/**
 What happens after a jail has ended: a scan that finds its canary stale and completes leaves nothing
 of it, whatever else happens meanwhile, and a heartbeat that was told to stop writes the canary at
 most once more.
 */
module LeaseRecovery {
  import opened Wrappers
  import opened Resources
  import opened Lease
  import opened LeaseRuns
  import LeaseTiming
  import opened LeaseCanary

  // ----- jails that have ended

  /** The owner is gone: it crashed, or its drop has returned, with Ok or with Err. */
  predicate Ended(s: Slot) {
    s.main.Crashed? || s.main.Dropped?
  }

  predicate Silent(b: Beat) {
    b.NoBeat? || b.BeatDone?
  }

  predicate Over(s: Slot) {
    Ended(s) && Silent(s.beat)
  }

  predicate Recovered(s: Slot) {
    Over(s) && s.res == {} && s.canary.None?
  }

  /** There is a heartbeat only while the owner runs or cleans up. */
  predicate BeatInv(s: Slot) {
    Silent(s.beat) || PastSetup(s.main)
  }

  lemma JailStepKeepsBeatInv(c: int, s: Slot, a: JailAct)
    requires BeatInv(s) && JailStep(c, s, a).Some?
    ensures BeatInv(JailStep(c, s, a).value)
  {
  }

  lemma StepKeepsBeatInv(timeout: nat, w: World, a: Act, i: Id)
    requires BeatInv(SlotOf(w, i)) && Step(timeout, w, a).Some?
    ensures BeatInv(SlotOf(Step(timeout, w, a).value, i))
  {
    if a.Jail? && a.id == i {
      JailStepKeepsBeatInv(w.clock, SlotOf(w, i), a.act);
    }
  }

  lemma {:induction false} EndedIsOver(timeout: nat, acts: seq<Act>, i: Id)
    requires Exec(timeout, START, acts).Some?
    ensures BeatInv(SlotOf(Exec(timeout, START, acts).value, i))
    decreases |acts|
  {
    if acts != [] {
      var before := acts[..|acts| - 1];
      EndedIsOver(timeout, before, i);
      StepKeepsBeatInv(timeout, Exec(timeout, START, before).value, acts[|acts| - 1], i);
    }
  }

  // ----- any completed scan recovers

  lemma StepKeepsRecovered(timeout: nat, w: World, a: Act, i: Id)
    requires Recovered(SlotOf(w, i)) && Step(timeout, w, a).Some?
    ensures Recovered(SlotOf(Step(timeout, w, a).value, i))
  {
  }

  /** Nobody brings back the canary or the resources of a jail that was recovered. */
  lemma {:induction false} RecoveredStaysRecovered(timeout: nat, w: World, acts: seq<Act>, i: Id)
    requires Recovered(SlotOf(w, i)) && Exec(timeout, w, acts).Some?
    ensures Recovered(SlotOf(Exec(timeout, w, acts).value, i))
    decreases |acts|
  {
    if acts != [] {
      var before := acts[..|acts| - 1];
      RecoveredStaysRecovered(timeout, w, before, i);
      StepKeepsRecovered(timeout, Exec(timeout, w, before).value, acts[|acts| - 1], i);
    }
  }

  predicate ReaperInv(x: Scan, i: Id, s: Slot) {
    match x
    case Reaping(j, left) => j == i ==> s.res <= left
    case Removing(j) => j == i ==> s.res == {}
    case _ => true
  }

  /** The jail is over, and scanner `p`, if it is at work on it, owes at least what the jail still has. */
  predicate Held(w: World, i: Id, p: nat) {
    Over(SlotOf(w, i)) && ReaperInv(ScanOf(w, p), i, SlotOf(w, i))
  }

  /** No timing is needed: once a jail is over its resources only go. */
  lemma StepKeepsHeld(timeout: nat, w: World, a: Act, i: Id, p: nat)
    requires Held(w, i, p) && Step(timeout, w, a).Some?
    ensures Held(Step(timeout, w, a).value, i, p)
  {
    AllResourcesListed(SlotOf(w, i).res);
  }

  lemma {:induction false} RunKeepsHeld(timeout: nat, w: World, acts: seq<Act>, i: Id, p: nat)
    requires Held(w, i, p) && Exec(timeout, w, acts).Some?
    ensures Held(Exec(timeout, w, acts).value, i, p)
    decreases |acts|
  {
    if acts != [] {
      var before := acts[..|acts| - 1];
      RunKeepsHeld(timeout, w, before, i, p);
      StepKeepsHeld(timeout, Exec(timeout, w, before).value, acts[|acts| - 1], i, p);
    }
  }

  /** When such a scan removes the canary, whatever has happened meanwhile, nothing of the jail is left. */
  lemma RemovalRecovers(timeout: nat, w: World, i: Id, mid: seq<Act>, p: nat, later: seq<Act>)
    requires Held(w, i, p) && Exec(timeout, w, mid).Some? && ScanOf(Exec(timeout, w, mid).value, p) == Removing(i)
    requires Exec(timeout, w, mid + [Remove(p)] + later).Some?
    ensures Recovered(SlotOf(Exec(timeout, w, mid + [Remove(p)] + later).value, i))
  {
    ExecPrefix(timeout, w, mid + [Remove(p)], later);
    ExecPrefix(timeout, w, mid, [Remove(p)]);
    RunKeepsHeld(timeout, w, mid, i, p);
    var u := Exec(timeout, w, mid).value;
    assert [Remove(p)][..0] == [];
    assert Exec(timeout, w, mid + [Remove(p)]) == Step(timeout, u, Remove(p));
    RecoveredStaysRecovered(timeout, Step(timeout, u, Remove(p)).value, later, i);
  }

  /** Scanner `p` does not finish its visit in these actions. */
  predicate StillAtWork(acts: seq<Act>, p: nat) {
    Remove(p) !in acts && ReapReturns(p, false) !in acts && Abandon(p) !in acts
  }

  predicate WorksOn(x: Scan, i: Id) {
    (x.Reaping? || x.Removing?) && x.target == i
  }

  lemma {:induction false} KeepsWorking(timeout: nat, w: World, acts: seq<Act>, p: nat, i: Id)
    requires WorksOn(ScanOf(w, p), i) && StillAtWork(acts, p) && Exec(timeout, w, acts).Some?
    ensures WorksOn(ScanOf(Exec(timeout, w, acts).value, p), i)
    decreases |acts|
  {
    if acts != [] {
      var before, a := acts[..|acts| - 1], acts[|acts| - 1];
      assert a in acts && forall b :: b in before ==> b in acts;
      KeepsWorking(timeout, w, before, p, i);
    }
  }

  lemma StaleIsReaped(timeout: nat, w: World, p: nat)
    requires ScanOf(w, p).Statted? && w.clock - ScanOf(w, p).mtime > timeout
    ensures var v := Step(timeout, w, Decide(p));
            v.Some? && ScanOf(v.value, p) == Reaping(ScanOf(w, p).target, ALL_RESOURCES)
  {
  }

  /** From a stale decision on, a scan can only reach its Remove with the same jail in hand. */
  lemma ReachesRemoving(timeout: nat, u: World, i: Id, p: nat, before: seq<Act>)
    requires ScanOf(u, p).Statted? && ScanOf(u, p).target == i && u.clock - ScanOf(u, p).mtime > timeout
    requires StillAtWork(before, p) && Exec(timeout, u, [Decide(p)] + before + [Remove(p)]).Some?
    ensures Exec(timeout, u, [Decide(p)] + before).Some?
    ensures ScanOf(Exec(timeout, u, [Decide(p)] + before).value, p) == Removing(i)
  {
    ExecPrefix(timeout, u, [Decide(p)] + before, [Remove(p)]);
    ExecPrefix(timeout, u, [Decide(p)], before);
    StaleIsReaped(timeout, u, p);
    assert [Decide(p)][..0] == [] && [Remove(p)][..0] == [];
    KeepsWorking(timeout, Exec(timeout, u, [Decide(p)]).value, before, p, i);
  }

  /** Any completed scan that decides more than the timeout after the time stamp it has read: whoever
      moves in between, other scanners of the same jail, other jails or the clock, nothing of the
      ended jail is left, for good.  Nothing is asked of the run before. */
  lemma CompletedScanRecovers(timeout: nat, acts: seq<Act>, i: Id, p: nat, before: seq<Act>, later: seq<Act>)
    requires Exec(timeout, START, acts).Some?
    requires var u := Exec(timeout, START, acts).value;
             && Ended(SlotOf(u, i))
             && ScanOf(u, p).Statted? && ScanOf(u, p).target == i && u.clock - ScanOf(u, p).mtime > timeout
             && StillAtWork(before, p)
             && Exec(timeout, u, [Decide(p)] + before + [Remove(p)] + later).Some?
    ensures var u := Exec(timeout, START, acts).value;
            Recovered(SlotOf(Exec(timeout, u, [Decide(p)] + before + [Remove(p)] + later).value, i))
  {
    var u := Exec(timeout, START, acts).value;
    EndedIsOver(timeout, acts, i);
    ExecPrefix(timeout, u, [Decide(p)] + before + [Remove(p)], later);
    ReachesRemoving(timeout, u, i, p, before);
    RemovalRecovers(timeout, u, i, [Decide(p)] + before, p, later);
  }

  // ----- scans find the canary, and cannot be stopped

  /** The jail is over, and every scanner at work on it owes at least what it still has. */
  ghost predicate Winding(w: World, i: Id) {
    Over(SlotOf(w, i)) && forall p :: p in w.scans ==> ReaperInv(w.scans[p], i, SlotOf(w, i))
  }

  /** The end of any run in which the jail's own setup was quick. */
  lemma EndedIsWinding(timeout: nat, i: Id, setup: nat, acts: seq<Act>)
    requires setup <= timeout && QuickSetups(timeout, i, setup, acts)
    requires Ended(SlotOf(Exec(timeout, START, acts).value, i))
    ensures Winding(Exec(timeout, START, acts).value, i)
  {
    RunKeepsInv(timeout, i, setup, acts);
    EndedIsOver(timeout, acts, i);
    var w := Exec(timeout, START, acts).value;
    forall p | p in w.scans ensures ReaperInv(w.scans[p], i, SlotOf(w, i)) {
      assert Concerns(w.scans[p], i) ==> ScanInv(w.scans[p], SlotOf(w, i));
    }
  }

  lemma StepKeepsWinding(timeout: nat, w: World, a: Act, i: Id)
    requires Winding(w, i) && Step(timeout, w, a).Some?
    ensures var v := Step(timeout, w, a).value;
            && Winding(v, i)
            && (SlotOf(v, i).canary == SlotOf(w, i).canary || Recovered(SlotOf(v, i)))
  {
    var v := Step(timeout, w, a).value;
    forall p | p in v.scans ensures ReaperInv(v.scans[p], i, SlotOf(v, i)) {
      assert Held(w, i, p);
      StepKeepsHeld(timeout, w, a, i, p);
    }
    assert Held(w, i, 0);
    StepKeepsHeld(timeout, w, a, i, 0);
    if a.Remove? {
      assert ReaperInv(w.scans[a.p], i, SlotOf(w, i));
    }
  }

  lemma OneMoreMove(timeout: nat, u: World, a: Act, i: Id, c: int, p: nat)
    requires Over(SlotOf(u, i)) && (SlotOf(u, i).canary == Some(c) || SlotOf(u, i).canary.None?)
    requires ScanOf(u, p).Statted? && ScanOf(u, p).target == i ==> ScanOf(u, p).mtime == c
    requires Step(timeout, u, a).Some?
    ensures var v := Step(timeout, u, a).value;
            && Over(SlotOf(v, i)) && (SlotOf(v, i).canary == Some(c) || SlotOf(v, i).canary.None?)
            && (ScanOf(v, p).Statted? && ScanOf(v, p).target == i ==> ScanOf(v, p).mtime == c)
  {
  }

  /** The last canary write of an ended jail is what every later visit reads, and it stands until a
      scanner removes it; if the jail's own setup was quick, until the jail is recovered. */
  lemma {:induction false} LastWriteStands(timeout: nat, w: World, mid: seq<Act>, i: Id, c: int, p: nat)
    requires Over(SlotOf(w, i)) && SlotOf(w, i).canary == Some(c) && Exec(timeout, w, mid).Some?
    requires ScanOf(w, p).Statted? ==> ScanOf(w, p).target != i
    ensures var v := Exec(timeout, w, mid).value;
            && Over(SlotOf(v, i))
            && (SlotOf(v, i).canary == Some(c) || SlotOf(v, i).canary.None?)
            && (ScanOf(v, p).Statted? && ScanOf(v, p).target == i ==> ScanOf(v, p).mtime == c)
            && (Winding(w, i) ==> Winding(v, i) && (SlotOf(v, i).canary == Some(c) || Recovered(SlotOf(v, i))))
    decreases |mid|
  {
    if mid != [] {
      var before, a := mid[..|mid| - 1], mid[|mid| - 1];
      var u := Exec(timeout, w, before).value;
      LastWriteStands(timeout, w, before, i, c, p);
      OneMoreMove(timeout, u, a, i, c, p);
      if Winding(w, i) {
        StepKeepsWinding(timeout, u, a, i);
        if Recovered(SlotOf(u, i)) {
          StepKeepsRecovered(timeout, u, a, i);
        }
      }
    }
  }

  predicate IsMoveOf(a: Act, p: nat) {
    match a
    case Stat(q, _) => q == p
    case Decide(q) => q == p
    case Reap(q, _) => q == p
    case ReapReturns(q, _) => q == p
    case Remove(q) => q == p
    case Abandon(q) => q == p
    case _ => false
  }

  lemma {:induction false} OthersLeaveScan(timeout: nat, w: World, others: seq<Act>, p: nat)
    requires Exec(timeout, w, others).Some? && forall a :: a in others ==> !IsMoveOf(a, p)
    ensures ScanOf(Exec(timeout, w, others).value, p) == ScanOf(w, p)
    decreases |others|
  {
    if others != [] {
      var before, a := others[..|others| - 1], others[|others| - 1];
      assert a in others && forall b :: b in before ==> b in others;
      OthersLeaveScan(timeout, w, before, p);
    }
  }

  /** How many moves a visit is from its end, at most. */
  function Remaining(x: Scan): nat {
    match x
    case Idle => 0
    case Removing(_) => 1
    case Reaping(_, left) => 2 + |left|
    case Statted(_, _, _) => 3 + |ALL_RESOURCES|
  }

  /** The next move of a visit whose cleanup succeeds; `r` is the resource it frees, if any. */
  function NextMove(x: Scan, p: nat, r: Resource): Act
    requires !x.Idle?
  {
    match x
    case Statted(_, _, _) => Decide(p)
    case Reaping(_, left) => if left == {} then ReapReturns(p, true) else Reap(p, r)
    case Removing(_) => Remove(p)
  }

  /** Whatever the others have done meanwhile, the next move of a visit is possible and brings it
      closer to its end. */
  lemma ScanCannotBeStopped(timeout: nat, w: World, others: seq<Act>, p: nat, r: Resource)
    requires Exec(timeout, w, others).Some? && forall a :: a in others ==> !IsMoveOf(a, p)
    requires !ScanOf(w, p).Idle?
    requires ScanOf(w, p).Reaping? && ScanOf(w, p).left != {} ==> r in ScanOf(w, p).left
    ensures var next := Step(timeout, Exec(timeout, w, others).value, NextMove(ScanOf(w, p), p, r));
            next.Some? && Remaining(ScanOf(next.value, p)) < Remaining(ScanOf(w, p))
  {
    OthersLeaveScan(timeout, w, others, p);
    var v := Exec(timeout, w, others).value;
    match ScanOf(w, p)
    case Reaping(i, left) =>
      if left != {} {
        var next := Step(timeout, v, Reap(p, r)).value;
        assert ScanOf(next, p) == Reaping(i, left - {r});
        assert |left - {r}| == |left| - 1;
      }
    case _ =>
  }

  // ----- one undisturbed visit

  function Frees(p: nat): seq<Act> {
    [Reap(p, Namespace), Reap(p, VethPair), Reap(p, HostTable), Reap(p, NetnsDir), ReapReturns(p, true)]
  }

  function Visit(p: nat, i: Id): seq<Act> {
    [Stat(p, i), Decide(p)] + Frees(p) + [Remove(p)]
  }

  lemma NothingLeft(res: set<Resource>)
    ensures res - {Namespace} - {VethPair} - {HostTable} - {NetnsDir} == {}
  {
    AllResourcesListed(res);
  }

  /** The world of `w` with new contents for jail `i` and scanner `p`. */
  function With(w: World, i: Id, s: Slot, p: nat, x: Scan): World {
    w.(slots := w.slots[i := s], scans := w.scans[p := x])
  }

  lemma OverwriteTwice(w: World, i: Id, s: Slot, t: Slot, p: nat, x: Scan, y: Scan)
    ensures w.slots[i := s][i := t] == w.slots[i := t] && w.scans[p := x][p := y] == w.scans[p := y]
  {
  }

  lemma ReapStep(timeout: nat, w: World, i: Id, s: Slot, p: nat, left: set<Resource>, r: Resource)
    ensures Step(timeout, With(w, i, s, p, Reaping(i, left)), Reap(p, r)) ==
            Some(With(w, i, s.(res := s.res - {r}), p, Reaping(i, left - {r})))
  {
    OverwriteTwice(w, i, s, s.(res := s.res - {r}), p, Reaping(i, left), Reaping(i, left - {r}));
  }

  lemma LastSteps(timeout: nat, w: World, i: Id, s: Slot, p: nat)
    ensures Step(timeout, With(w, i, s, p, Reaping(i, {})), ReapReturns(p, true)) == Some(With(w, i, s, p, Removing(i)))
    ensures Step(timeout, With(w, i, s, p, Removing(i)), Remove(p)) == Some(With(w, i, s.(canary := None), p, Idle))
  {
    OverwriteTwice(w, i, s, s, p, Reaping(i, {}), Removing(i));
    OverwriteTwice(w, i, s, s.(canary := None), p, Removing(i), Idle);
  }

  /** What a successful `cleanup_orphaned` leaves of jail `i`. */
  lemma FreesEverything(timeout: nat, w: World, i: Id, s: Slot, p: nat)
    ensures Exec(timeout, With(w, i, s, p, Reaping(i, ALL_RESOURCES)), Frees(p)) ==
            Some(With(w, i, s.(res := {}), p, Removing(i)))
  {
    var l0 := ALL_RESOURCES;
    var l1, r1 := l0 - {Namespace}, s.res - {Namespace};
    var l2, r2 := l1 - {VethPair}, r1 - {VethPair};
    var l3, r3 := l2 - {HostTable}, r2 - {HostTable};
    ReapStep(timeout, w, i, s, p, l0, Namespace);
    ReapStep(timeout, w, i, s.(res := r1), p, l1, VethPair);
    ReapStep(timeout, w, i, s.(res := r2), p, l2, HostTable);
    ReapStep(timeout, w, i, s.(res := r3), p, l3, NetnsDir);
    NothingLeft(s.res);
    NothingLeft(l0);
    LastSteps(timeout, w, i, s.(res := {}), p);
    ExecSteps(timeout, Frees(p),
      [With(w, i, s, p, Reaping(i, l0)), With(w, i, s.(res := r1), p, Reaping(i, l1)),
       With(w, i, s.(res := r2), p, Reaping(i, l2)), With(w, i, s.(res := r3), p, Reaping(i, l3)),
       With(w, i, s.(res := {}), p, Reaping(i, {})), With(w, i, s.(res := {}), p, Removing(i))]);
  }

  /** The first two steps of a visit: the decision rests on the age alone. */
  lemma Judges(timeout: nat, w: World, p: nat, i: Id)
    requires ScanOf(w, p).Idle? && i in w.slots && w.slots[i].canary.Some?
    ensures Exec(timeout, w, [Stat(p, i), Decide(p)]) ==
            Some(With(w, i, w.slots[i], p,
              if w.clock - w.slots[i].canary.value > timeout then Reaping(i, ALL_RESOURCES) else Idle))
  {
    var m := w.slots[i].canary.value;
    var next := if w.clock - m > timeout then Reaping(i, ALL_RESOURCES) else Idle;
    OverwriteTwice(w, i, w.slots[i], w.slots[i], p, Statted(i, m, w.clock), next);
    assert w.slots[i := w.slots[i]] == w.slots;
    ExecSteps(timeout, [Stat(p, i), Decide(p)],
      [w, With(w, i, w.slots[i], p, Statted(i, m, w.clock)), With(w, i, w.slots[i], p, next)]);
  }

  lemma {:induction false} NoneStaysNone(timeout: nat, w: World, a: Act, acts: seq<Act>)
    requires Step(timeout, w, a).None?
    ensures Exec(timeout, w, [a] + acts).None?
    decreases |acts|
  {
    assert [a][..0] == [];
    if acts == [] {
      assert [a] + acts == [a];
    } else {
      NoneStaysNone(timeout, w, a, acts[..|acts| - 1]);
      assert ([a] + acts)[..|[a] + acts| - 1] == [a] + acts[..|acts| - 1];
    }
  }

  /** An undisturbed visit to a stale canary frees everything and then removes it; every other jail,
      and every other scanner, is left as it was.  The decision rests on the age alone. */
  lemma VisitRecovers(timeout: nat, w: World, p: nat, i: Id)
    requires ScanOf(w, p).Idle? && i in w.slots && w.slots[i].canary.Some?
    ensures w.clock - w.slots[i].canary.value > timeout ==>
              Exec(timeout, w, Visit(p, i)) == Some(With(w, i, w.slots[i].(res := {}, canary := None), p, Idle))
    ensures w.clock - w.slots[i].canary.value <= timeout ==>
              Exec(timeout, w, Visit(p, i)).None? &&
              Exec(timeout, w, Visit(p, i)[..2]) == Some(With(w, i, w.slots[i], p, Idle))
  {
    var find := [Stat(p, i), Decide(p)];
    Judges(timeout, w, p, i);
    assert Visit(p, i)[..2] == find;
    if w.clock - w.slots[i].canary.value > timeout {
      FreesEverything(timeout, w, i, w.slots[i], p);
      ExecConcat(timeout, w, find, Frees(p));
      LastSteps(timeout, w, i, w.slots[i].(res := {}), p);
      assert Visit(p, i)[..7] == find + Frees(p);
    } else {
      var rest := Frees(p) + [Remove(p)];
      NoneStaysNone(timeout, With(w, i, w.slots[i], p, Idle), rest[0], rest[1..]);
      assert rest == [rest[0]] + rest[1..] && Visit(p, i) == find + rest;
      ExecConcat(timeout, w, find, rest);
    }
  }

  // ----- which ended jails can be recovered

  /** A leak that no scanner will find. */
  ghost predicate Leaked(w: World, i: Id) {
    && Over(SlotOf(w, i)) && SlotOf(w, i).canary.None? && SlotOf(w, i).res != {}
    && forall p :: p in w.scans ==> !Concerns(w.scans[p], i)
  }

  lemma StepKeepsLeaked(timeout: nat, w: World, a: Act, i: Id)
    requires Leaked(w, i) && Step(timeout, w, a).Some?
    ensures Leaked(Step(timeout, w, a).value, i)
  {
  }

  /** It is permanent. */
  lemma {:induction false} LeakIsPermanent(timeout: nat, w: World, later: seq<Act>, i: Id)
    requires Leaked(w, i) && Exec(timeout, w, later).Some?
    ensures Leaked(Exec(timeout, w, later).value, i)
    decreases |later|
  {
    if later != [] {
      var before := later[..|later| - 1];
      LeakIsPermanent(timeout, w, before, i);
      StepKeepsLeaked(timeout, Exec(timeout, w, before).value, later[|later| - 1], i);
    }
  }

  predicate Recovers(timeout: nat, w: World, mid: seq<Act>, i: Id) {
    Exec(timeout, w, mid).Some? && Recovered(SlotOf(Exec(timeout, w, mid).value, i))
  }

  /** Once the clock is past the timeout, a visit by an idle scanner recovers the jail. */
  lemma VisitsRecover(timeout: nat, w: World, i: Id, p: nat)
    requires Over(SlotOf(w, i)) && SlotOf(w, i).canary.Some? && ScanOf(w, p).Idle?
    ensures Recovers(timeout, w, [Tick(SlotOf(w, i).canary.value + timeout + 1)] + Visit(p, i), i)
  {
    var now := SlotOf(w, i).canary.value + timeout + 1;
    ExecFirst(timeout, w, Tick(now), Visit(p, i));
    VisitRecovers(timeout, w.(clock := now), p, i);
  }

  /** After any run, exactly which ended jails can still be recovered when no scanner is at work on
      them: those with a canary, and those with nothing left.  A leak without a canary is for good. */
  lemma EndedJailCanBeRecoveredIff(timeout: nat, acts: seq<Act>, i: Id, p: nat)
    requires Exec(timeout, START, acts).Some?
    requires var w := Exec(timeout, START, acts).value;
             && Ended(SlotOf(w, i)) && ScanOf(w, p).Idle?
             && forall q :: q in w.scans ==> !Concerns(w.scans[q], i)
    ensures var w := Exec(timeout, START, acts).value;
            SlotOf(w, i).canary.Some? || SlotOf(w, i).res == {} <==> exists mid :: Recovers(timeout, w, mid, i)
  {
    var w := Exec(timeout, START, acts).value;
    EndedIsOver(timeout, acts, i);
    if SlotOf(w, i).canary.Some? {
      VisitsRecover(timeout, w, i, p);
    } else if SlotOf(w, i).res == {} {
      assert Recovers(timeout, w, [], i);
    } else if mid :| Recovers(timeout, w, mid, i) {
      LeakIsPermanent(timeout, w, mid, i);
    }
  }

  /** An explicit cleanup that fails with something left, and a process that is killed before its drop:
      the leak is never found. */
  lemma FailedExplicitCleanupLeaks(timeout: nat) returns (acts: seq<Act>)
    ensures Exec(timeout, START, acts).Some? && Leaked(Exec(timeout, START, acts).value, "a")
    ensures forall later :: !Recovers(timeout, Exec(timeout, START, acts).value, later, "a")
  {
    var s0 := LeaseTiming.FRESH.slot;
    var s1 := s0.(res := {Namespace});
    var s2 := s1.(main := Beating);
    var s3 := s2.(main := Running, beat := BeatLoop);
    var s4 := s3.(main := Cleaning(ALL_RESOURCES), stop := true);
    var s5 := s4.(main := CleanupDeleting(false));
    var s6 := s5.(main := CleanedUp(false), canary := None, abandoned := true);
    var s7 := s6.(main := Crashed, beat := NoBeat);
    acts := [Jail("a", Create), Jail("a", Acquire(Namespace)), Jail("a", SetupOk), Jail("a", Spawn),
             Jail("a", BeginCleanup), Jail("a", CleanupReturns(false)), Jail("a", CleanupDelete), Jail("a", Crash)];
    var slots := [s0, s1, s2, s3, s4, s5, s6, s7];
    var ws := [START] + seq(8, k requires 0 <= k < 8 => World(0, map["a" := slots[k]], map[]));
    assert {} + {Namespace} == {Namespace};
    assert map[]["a" := s0] == map["a" := s0];
    forall k | 0 < k < 8 ensures Step(timeout, ws[k], acts[k]) == Some(ws[k + 1]) {
      assert JailStep(0, slots[k - 1], acts[k].act) == Some(slots[k]);
      assert map["a" := slots[k - 1]]["a" := slots[k]] == map["a" := slots[k]];
    }
    ExecSteps(timeout, acts, ws);
    var w := Exec(timeout, START, acts).value;
    assert SlotOf(w, "a") == s7;
    forall later ensures !Recovers(timeout, w, later, "a") {
      if Recovers(timeout, w, later, "a") {
        LeakIsPermanent(timeout, w, later, "a");
      }
    }
  }

  // ----- the drop path

  /** What the drop has still to free. */
  predicate DropInv(s: Slot) {
    && (s.main.DropCleaning? ==> s.res <= s.main.left)
    && (s.main.DropDeleting? || s.main == Dropped(true) ==> s.res == {})
  }

  lemma JailStepKeepsDropInv(c: int, s: Slot, a: JailAct)
    requires DropInv(s) && JailStep(c, s, a).Some?
    ensures DropInv(JailStep(c, s, a).value)
  {
    AllResourcesListed(s.res);
  }

  lemma StepKeepsDropInv(timeout: nat, w: World, a: Act, i: Id)
    requires DropInv(SlotOf(w, i)) && Step(timeout, w, a).Some?
    ensures DropInv(SlotOf(Step(timeout, w, a).value, i))
  {
    if a.Jail? && a.id == i {
      JailStepKeepsDropInv(w.clock, SlotOf(w, i), a.act);
    }
  }

  lemma {:induction false} RunKeepsDropInv(timeout: nat, acts: seq<Act>, i: Id)
    requires Exec(timeout, START, acts).Some?
    ensures DropInv(SlotOf(Exec(timeout, START, acts).value, i))
    decreases |acts|
  {
    if acts != [] {
      var before := acts[..|acts| - 1];
      RunKeepsDropInv(timeout, before, i);
      StepKeepsDropInv(timeout, Exec(timeout, START, before).value, acts[|acts| - 1], i);
    }
  }

  /** In every run: once its thread has been joined, an owner changes its canary only when nothing is
      left, a drop that returned after Ok leaves nothing, and one that returned after Err leaves its
      canary to the scanners. */
  lemma DropKeepsLease(timeout: nat, acts: seq<Act>, i: Id, act: JailAct)
    requires Exec(timeout, START, acts + [Jail(i, act)]).Some? && Exec(timeout, START, acts).Some?
    requires var s := SlotOf(Exec(timeout, START, acts).value, i); s.main.DropCleaning? || s.main.DropDeleting?
    ensures var s, t := SlotOf(Exec(timeout, START, acts).value, i),
                        SlotOf(Exec(timeout, START, acts + [Jail(i, act)]).value, i);
            && (t.canary != s.canary ==> t.res == {})
            && (t.main == Dropped(true) ==> t.res == {})
            && (t.main == Dropped(false) ==> t.canary == s.canary)
            && t.abandoned == s.abandoned
  {
    assert (acts + [Jail(i, act)])[..|acts|] == acts;
    RunKeepsDropInv(timeout, acts, i);
    EndedIsOver(timeout, acts, i);
    var w := Exec(timeout, START, acts).value;
    StepKeepsDropInv(timeout, w, Jail(i, act), i);
    assert JailStep(w.clock, SlotOf(w, i), act).Some?;
  }

  // ----- the last heartbeat

  /** The canary writes that a heartbeat thread may still make once the stop flag is set. */
  function Credit(b: Beat): nat {
    if b.BeatExists? || b.BeatStamp? || b.BeatSet? || b.BeatCreate? then 1 else 0
  }

  predicate WritesCanary(w: World, a: Act, i: Id) {
    a == Jail(i, WriteNew) || (a == Jail(i, SetTimes) && SlotOf(w, i).canary.Some?)
  }

  function BeatWrites(timeout: nat, w: World, acts: seq<Act>, i: Id): nat
    requires Exec(timeout, w, acts).Some?
    decreases |acts|
  {
    if acts == [] then 0
    else
      var before := acts[..|acts| - 1];
      BeatWrites(timeout, w, before, i) +
      if WritesCanary(Exec(timeout, w, before).value, acts[|acts| - 1], i) then 1 else 0
  }

  /** How often the canary file of `i` comes into being during the run. */
  function Appearances(timeout: nat, w: World, acts: seq<Act>, i: Id): nat
    requires Exec(timeout, w, acts).Some?
    decreases |acts|
  {
    if acts == [] then 0
    else
      var before := acts[..|acts| - 1];
      Appearances(timeout, w, before, i) +
      if SlotOf(Exec(timeout, w, before).value, i).canary.None? && SlotOf(Exec(timeout, w, acts).value, i).canary.Some?
      then 1 else 0
  }

  predicate Stopping(s: Slot) {
    s.stop && !s.main.NotStarted? && !Live(s) && !s.main.SetupFailed?
  }

  lemma StepSpendsCredit(timeout: nat, w: World, a: Act, i: Id)
    requires Stopping(SlotOf(w, i)) && Step(timeout, w, a).Some?
    ensures var s, t := SlotOf(w, i), SlotOf(Step(timeout, w, a).value, i);
            && Stopping(t)
            && (WritesCanary(w, a, i) ==> Credit(t.beat) < Credit(s.beat))
            && Credit(t.beat) <= Credit(s.beat)
            && (s.canary.None? && t.canary.Some? ==> WritesCanary(w, a, i))
  {
  }

  /** After the stop flag is set: at most one more write, hence at most one reappearance. */
  lemma {:induction false} AtMostOneMoreWrite(timeout: nat, w: World, acts: seq<Act>, i: Id)
    requires Stopping(SlotOf(w, i)) && Exec(timeout, w, acts).Some?
    ensures var v := Exec(timeout, w, acts).value;
            && Stopping(SlotOf(v, i))
            && Appearances(timeout, w, acts, i) <= BeatWrites(timeout, w, acts, i)
            && BeatWrites(timeout, w, acts, i) + Credit(SlotOf(v, i).beat) <= Credit(SlotOf(w, i).beat) <= 1
    decreases |acts|
  {
    if acts != [] {
      var before := acts[..|acts| - 1];
      AtMostOneMoreWrite(timeout, w, before, i);
      StepSpendsCredit(timeout, Exec(timeout, w, before).value, acts[|acts| - 1], i);
    }
  }

  predicate DeletedByDrop(s: Slot) {
    s.main == Dropped(true) ==> s.canary.None?
  }

  lemma StepKeepsDeleted(timeout: nat, w: World, a: Act, i: Id)
    requires BeatInv(SlotOf(w, i)) && DeletedByDrop(SlotOf(w, i)) && Step(timeout, w, a).Some?
    requires a != Jail(i, DeleteFails)
    ensures DeletedByDrop(SlotOf(Step(timeout, w, a).value, i))
  {
  }

  lemma {:induction false} DropDeletes(timeout: nat, acts: seq<Act>, i: Id)
    requires Exec(timeout, START, acts).Some? && Jail(i, DeleteFails) !in acts
    ensures DeletedByDrop(SlotOf(Exec(timeout, START, acts).value, i))
    decreases |acts|
  {
    if acts != [] {
      var before, a := acts[..|acts| - 1], acts[|acts| - 1];
      assert a in acts && forall b :: b in before ==> b in acts;
      DropDeletes(timeout, before, i);
      EndedIsOver(timeout, before, i);
      StepKeepsDeleted(timeout, Exec(timeout, START, before).value, a, i);
    }
  }

  predicate Gone(s: Slot) {
    s.canary.None? && Over(s)
  }

  lemma StepKeepsGone(timeout: nat, w: World, a: Act, i: Id)
    requires Gone(SlotOf(w, i)) && Step(timeout, w, a).Some?
    ensures Gone(SlotOf(Step(timeout, w, a).value, i))
  {
  }

  lemma {:induction false} GoneStaysGone(timeout: nat, w: World, acts: seq<Act>, i: Id)
    requires Gone(SlotOf(w, i)) && Exec(timeout, w, acts).Some?
    ensures Gone(SlotOf(Exec(timeout, w, acts).value, i))
    decreases |acts|
  {
    if acts != [] {
      var before := acts[..|acts| - 1];
      GoneStaysGone(timeout, w, before, i);
      StepKeepsGone(timeout, Exec(timeout, w, before).value, acts[|acts| - 1], i);
    }
  }

  /** Drop joins the thread before it deletes: in any schedule, with any clock, a canary that the
      drop has deleted, or that was gone when the owner ended, never comes back. */
  lemma DroppedCanaryNeverReappears(timeout: nat, acts: seq<Act>, later: seq<Act>, i: Id)
    requires Exec(timeout, START, acts + later).Some? && Exec(timeout, START, acts).Some?
    requires var s := SlotOf(Exec(timeout, START, acts).value, i);
             || (Ended(s) && s.canary.None?)
             || (s.main == Dropped(true) && Jail(i, DeleteFails) !in acts)
    ensures SlotOf(Exec(timeout, START, acts).value, i).canary.None?
    ensures SlotOf(Exec(timeout, START, acts + later).value, i).canary.None?
  {
    EndedIsOver(timeout, acts, i);
    if Jail(i, DeleteFails) !in acts {
      DropDeletes(timeout, acts, i);
    }
    ExecConcat(timeout, START, acts, later);
    GoneStaysGone(timeout, Exec(timeout, START, acts).value, later, i);
  }
}
