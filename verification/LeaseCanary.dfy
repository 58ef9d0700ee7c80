/**
 Resources imply a canary: what every run of the canary protocol keeps for one jail when its own inner
 setup takes no longer than the orphan timeout, and why that is exactly what is needed.  How slow
 heartbeats, scanners and other jails are does not matter.
 */
module LeaseCanary {
  import opened Wrappers
  import opened Resources
  import opened Lease
  import opened LeaseRuns
  import opened LeaseTiming

  /** A scanner that judges `i` during its inner setup finds that setup at most `setup` old. */
  predicate QuickSetup(i: Id, setup: nat, w: World, a: Act) {
    match a
    case Decide(p) =>
      ScanOf(w, p).Statted? && ScanOf(w, p).target == i && SlotOf(w, i).main.InSetup? ==>
        w.clock - SlotOf(w, i).since <= setup
    case _ => true
  }

  ghost predicate QuickSetups(timeout: nat, i: Id, setup: nat, acts: seq<Act>) {
    Obeys(timeout, START, acts, (w, a) => QuickSetup(i, setup, w, a))
  }

  // ----- the invariant

  /** Resources are only ever held under a canary, unless the owner itself abandoned them. */
  predicate Leased(s: Slot) {
    s.res != {} ==> s.canary.Some? || s.abandoned
  }

  predicate SlotInv(s: Slot) {
    && (s.main.NotStarted? ==> s.canary.None? && s.res == {} && !s.abandoned && s.beat.NoBeat?)
    && (s.main.InSetup? ==> s.canary == Some(s.since) && !s.abandoned && s.beat.NoBeat?)
    && (s.main.Cleaning? || s.main.DropCleaning? ==> s.res <= s.main.left)
    && ((s.main.CleanupDeleting? || s.main.CleanedUp? || s.main.Dropped?) && s.main.ok ==> s.res == {})
    && (s.main.DropDeleting? ==> s.res == {})
    && Leased(s)
  }

  /** What a scanner knows: the time stamp of a canary whose jail is in its inner setup, and that a
      jail being reaped has passed that setup and owns at most what is left to free. */
  predicate ScanInv(c: Scan, s: Slot) {
    match c
    case Idle => true
    case Statted(_, m, _) => !s.main.NotStarted? && (s.main.InSetup? ==> m == s.since)
    case Reaping(_, left) => !s.main.NotStarted? && !s.main.InSetup? && s.res <= left
    case Removing(_) => !s.main.NotStarted? && !s.main.InSetup? && s.res == {}
  }

  ghost predicate Inv(i: Id, w: World) {
    SlotInv(SlotOf(w, i)) &&
    forall p :: p in w.scans && Concerns(w.scans[p], i) ==> ScanInv(w.scans[p], SlotOf(w, i))
  }

  lemma JailStepKeepsSlotInv(c: int, s: Slot, a: JailAct)
    requires SlotInv(s) && JailStep(c, s, a).Some?
    ensures SlotInv(JailStep(c, s, a).value)
  {
    AllResourcesListed(s.res);
  }

  lemma JailStepKeepsScanInv(x: Scan, c: int, s: Slot, a: JailAct)
    requires SlotInv(s) && JailStep(c, s, a).Some? && ScanInv(x, s)
    ensures ScanInv(x, JailStep(c, s, a).value)
  {
  }

  lemma JailActionKeepsInv(timeout: nat, w: World, i: Id, act: JailAct)
    requires Inv(i, w) && Step(timeout, w, Jail(i, act)).Some?
    ensures Inv(i, Step(timeout, w, Jail(i, act)).value)
  {
    var w' := Step(timeout, w, Jail(i, act)).value;
    JailStepKeepsSlotInv(w.clock, SlotOf(w, i), act);
    forall p | p in w'.scans && Concerns(w'.scans[p], i) ensures ScanInv(w'.scans[p], SlotOf(w', i)) {
      JailStepKeepsScanInv(w.scans[p], w.clock, SlotOf(w, i), act);
    }
  }

  /** A jail in its inner setup cannot look stale: its canary is as old as the setup. */
  lemma DecideKeepsInv(timeout: nat, i: Id, setup: nat, w: World, p: nat)
    requires setup <= timeout
    requires Inv(i, w) && QuickSetup(i, setup, w, Decide(p)) && Step(timeout, w, Decide(p)).Some?
    ensures Inv(i, Step(timeout, w, Decide(p)).value)
  {
    var w' := Step(timeout, w, Decide(p)).value;
    forall q | q in w'.scans && Concerns(w'.scans[q], i) ensures ScanInv(w'.scans[q], SlotOf(w', i)) {
      if q == p {
        assert Age(w.clock, w.scans[p].mtime) > timeout;
        assert ScanInv(w.scans[p], SlotOf(w, i));
        AllResourcesListed(SlotOf(w, i).res);
      }
    }
  }

  lemma ReaperKeepsInv(timeout: nat, i: Id, w: World, a: Act)
    requires a.Reap? || a.ReapReturns? || a.Remove? || a.Abandon?
    requires Inv(i, w) && Step(timeout, w, a).Some?
    ensures Inv(i, Step(timeout, w, a).value)
  {
    var w' := Step(timeout, w, a).value;
    assert Concerns(w.scans[a.p], i) ==> ScanInv(w.scans[a.p], SlotOf(w, i));
    forall q | q in w'.scans && Concerns(w'.scans[q], i) ensures ScanInv(w'.scans[q], SlotOf(w', i)) {
      assert q != a.p ==> ScanInv(w.scans[q], SlotOf(w, i));
    }
  }

  lemma StepKeepsInv(timeout: nat, i: Id, setup: nat, w: World, a: Act)
    requires setup <= timeout
    requires Inv(i, w) && QuickSetup(i, setup, w, a) && Step(timeout, w, a).Some?
    ensures Inv(i, Step(timeout, w, a).value)
  {
    match a
    case Tick(_) =>
    case Jail(j, act) => if j == i { JailActionKeepsInv(timeout, w, i, act); }
    case Stat(_, _) =>
    case Decide(p) => DecideKeepsInv(timeout, i, setup, w, p);
    case _ => ReaperKeepsInv(timeout, i, w, a);
  }

  lemma {:induction false} RunKeepsInv(timeout: nat, i: Id, setup: nat, acts: seq<Act>)
    requires setup <= timeout && QuickSetups(timeout, i, setup, acts)
    ensures Inv(i, Exec(timeout, START, acts).value)
  {
    if acts != [] {
      var before := acts[..|acts| - 1];
      RunKeepsInv(timeout, i, setup, before);
      StepKeepsInv(timeout, i, setup, Exec(timeout, START, before).value, acts[|acts| - 1]);
    }
  }

  // ----- the lease

  /** At every point of every run in which its own setup is quick, crashes included, a jail that holds
      resources has its canary, unless its owner deleted that after an Err of its own. */
  lemma ResourcesImplyCanary(timeout: nat, i: Id, setup: nat, acts: seq<Act>)
    requires setup <= timeout && QuickSetups(timeout, i, setup, acts)
    ensures var s := SlotOf(Exec(timeout, START, acts).value, i);
            s.res != {} ==> s.canary.Some? || s.abandoned
  {
    RunKeepsInv(timeout, i, setup, acts);
  }

  /** The owner of `i` has met an Err of its inner setup or of an explicit inner cleanup. */
  predicate OwnErr(acts: seq<Act>, i: Id) {
    Jail(i, SetupErr) in acts || Jail(i, CleanupReturns(false)) in acts
  }

  predicate NoErrYet(s: Slot) {
    !s.abandoned && !s.main.SetupFailed? && s.main != CleanupDeleting(false)
  }

  lemma StepWithoutErr(timeout: nat, w: World, a: Act, i: Id)
    requires NoErrYet(SlotOf(w, i)) && Step(timeout, w, a).Some?
    requires a != Jail(i, SetupErr) && a != Jail(i, CleanupReturns(false))
    ensures NoErrYet(SlotOf(Step(timeout, w, a).value, i))
  {
  }

  lemma {:induction false} AbandonedOnlyAfterOwnErr(timeout: nat, acts: seq<Act>, i: Id)
    requires Exec(timeout, START, acts).Some? && !OwnErr(acts, i)
    ensures NoErrYet(SlotOf(Exec(timeout, START, acts).value, i))
    decreases |acts|
  {
    if acts != [] {
      var before, a := acts[..|acts| - 1], acts[|acts| - 1];
      assert a in acts && forall b :: b in before ==> b in acts;
      AbandonedOnlyAfterOwnErr(timeout, before, i);
      StepWithoutErr(timeout, Exec(timeout, START, before).value, a, i);
    }
  }

  /** The lease as the comments of the source state it: as long as no inner setup and no explicit
      inner cleanup of `i` has returned Err, resources of `i` are never without its canary, wherever
      the process crashes and whatever fails on the drop and scan paths. */
  lemma ResourcesNeverWithoutCanary(timeout: nat, i: Id, setup: nat, acts: seq<Act>)
    requires setup <= timeout && QuickSetups(timeout, i, setup, acts)
    requires !OwnErr(acts, i)
    ensures var s := SlotOf(Exec(timeout, START, acts).value, i); s.res != {} ==> s.canary.Some?
  {
    ResourcesImplyCanary(timeout, i, setup, acts);
    AbandonedOnlyAfterOwnErr(timeout, acts, i);
  }

  // ----- a setup that outlasts the timeout

  /** One move of scanner 0 at a jail in its inner setup whose canary was written at 0. */
  predicate ScansOn(x: Scan, a: Act, y: Scan) {
    !x.Idle? && x.target == "a" &&
    match a
    case Decide(p) => p == 0 && x.Statted? && x.mtime == 0 && y == Reaping("a", ALL_RESOURCES)
    case Reap(p, r) => p == 0 && x.Reaping? && y == Reaping("a", x.left - {r})
    case ReapReturns(p, ok) => p == 0 && ok && x == Reaping("a", {}) && y == Removing("a")
    case _ => false
  }

  /** That jail has no resources yet, and its setup has just outlasted the timeout. */
  lemma ScanMoves(timeout: nat, f: Frame, x: Scan, a: Act, y: Scan)
    requires f == FRESH.(clock := timeout + 1) && ScansOn(x, a, y)
    ensures Step(timeout, Solo(f, map[0 := x]), a) == Some(Solo(f, map[0 := y]))
  {
    assert map[0 := x][0 := y] == map[0 := y];
    assert map["a" := f.slot]["a" := f.slot] == map["a" := f.slot];
    assert a.Reap? ==> f.slot.(res := f.slot.res - {a.r}) == f.slot;
  }

  /** A run of that scanner alone, given by what it does after each move. */
  lemma ScanPath(timeout: nat, d: Dwell, delay: nat, acts: seq<Act>, xs: seq<Scan>)
    requires d.setup > timeout && |xs| == |acts| + 1
    requires forall k :: 0 <= k < |acts| ==> ScansOn(xs[k], acts[k], xs[k + 1])
    requires forall k :: 0 <= k < |xs| && xs[k].Statted? ==> xs[k].at == timeout + 1
    ensures var f := FRESH.(clock := timeout + 1);
            && Obeys(timeout, Solo(f, map[0 := xs[0]]), acts, Pace("a", d, delay))
            && Exec(timeout, Solo(f, map[0 := xs[0]]), acts) == Some(Solo(f, map[0 := xs[|acts|]]))
  {
    var f := FRESH.(clock := timeout + 1);
    var ws := seq(|xs|, k requires 0 <= k < |xs| => Solo(f, map[0 := xs[k]]));
    forall k | 0 <= k < |acts|
      ensures Step(timeout, ws[k], acts[k]) == Some(ws[k + 1]) && Pace("a", d, delay)(ws[k], acts[k])
    {
      ScanMoves(timeout, f, xs[k], acts[k], xs[k + 1]);
    }
    ObeysSteps(timeout, acts, ws, Pace("a", d, delay));
  }

  /** The scanner frees what the jail has not acquired yet, and is about to remove its canary. */
  lemma ReapedDuringSetup(timeout: nat, d: Dwell, delay: nat) returns (acts: seq<Act>)
    requires d.setup > timeout
    ensures Obeys(timeout, Solo(FRESH.(clock := timeout + 1), Watching(0, timeout + 1)), acts, Pace("a", d, delay))
    ensures Exec(timeout, Solo(FRESH.(clock := timeout + 1), Watching(0, timeout + 1)), acts) ==
            Some(Solo(FRESH.(clock := timeout + 1), map[0 := Removing("a")]))
    ensures !OwnErr(acts, "a")
  {
    var all := ALL_RESOURCES;
    assert all - {Namespace} - {VethPair} - {HostTable} - {NetnsDir} == {};
    acts := [Decide(0), Reap(0, Namespace), Reap(0, VethPair), Reap(0, HostTable), Reap(0, NetnsDir),
             ReapReturns(0, true)];
    ScanPath(timeout, d, delay, acts,
      [Statted("a", 0, timeout + 1), Reaping("a", all), Reaping("a", all - {Namespace}),
       Reaping("a", all - {Namespace} - {VethPair}), Reaping("a", all - {Namespace} - {VethPair} - {HostTable}),
       Reaping("a", {}), Removing("a")]);
  }

  /** The owner completes its setup with one resource, while the scanner waits. */
  lemma SetupCompletes(timeout: nat, d: Dwell, delay: nat) returns (acts: seq<Act>, f: Frame)
    requires d.setup > timeout
    ensures Obeys(timeout, Solo(FRESH.(clock := timeout + 1), map[0 := Removing("a")]), acts, Pace("a", d, delay))
    ensures Exec(timeout, Solo(FRESH.(clock := timeout + 1), map[0 := Removing("a")]), acts) ==
            Some(Solo(f, map[0 := Removing("a")]))
    ensures !OwnErr(acts, "a")
    ensures f.clock == timeout + 1 && f.slot.main.Running? && f.slot.beatSince == f.clock && f.slot.res == {Namespace}
  {
    var c := timeout + 1;
    var s1 := FRESH.slot.(res := {Namespace});
    var s2 := s1.(canary := Some(c), main := Beating, since := c);
    var s3 := s2.(main := Running, beat := BeatLoop, beatSince := c);
    f := Frame(c, s3);
    acts := [Jail("a", Acquire(Namespace)), Jail("a", SetupOk), Jail("a", Spawn)];
    assert FRESH.slot.res + {Namespace} == {Namespace};
    var fs := [Frame(c, FRESH.slot), Frame(c, s1), Frame(c, s2), f];
    assert SoloRun(d, acts, fs);
    SoloPath(timeout, d, delay, acts, fs, map[0 := Removing("a")]);
  }

  /** The scanner removes the canary of a jail that has just started to run. */
  lemma CanaryRemoved(timeout: nat, f: Frame) returns (v: World)
    ensures Step(timeout, Solo(f, map[0 := Removing("a")]), Remove(0)) == Some(v)
    ensures SlotOf(v, "a") == f.slot.(canary := None)
  {
    v := Step(timeout, Solo(f, map[0 := Removing("a")]), Remove(0)).value;
  }

  /** A scanner takes the mtime of a jail whose inner setup has just outlasted the timeout. */
  lemma LateSetupLookedAt(timeout: nat, d: Dwell, delay: nat) returns (acts: seq<Act>)
    requires d.setup > timeout
    ensures Obeys(timeout, START, acts, Pace("a", d, delay))
    ensures Exec(timeout, START, acts) == Some(Solo(FRESH.(clock := timeout + 1), Watching(0, timeout + 1)))
    ensures !OwnErr(acts, "a")
  {
    var late := FRESH.(clock := timeout + 1);
    assert SoloRun(d, [Tick(timeout + 1)], [FRESH, late]);
    assert SoloRun(d, [], [late]);
    acts := LookedAt(timeout, d, delay, [Tick(timeout + 1)], [FRESH, late], [], [late]);
  }

  /** A setup that may outlast the timeout breaks the lease even of a jail whose setup then returns
      Ok: a scanner that found the canary stale removes the rewritten one. */
  lemma LateRemoveStealsCanary(timeout: nat, d: Dwell, delay: nat) returns (acts: seq<Act>)
    requires d.setup > timeout
    ensures Disciplined(timeout, "a", d, delay, acts) && !OwnErr(acts, "a")
    ensures var s := SlotOf(Exec(timeout, START, acts).value, "a");
            s.main.Running? && s.res != {} && s.canary.None?
  {
    var rule := Pace("a", d, delay);
    var f0 := FRESH.(clock := timeout + 1);
    var xs := LateSetupLookedAt(timeout, d, delay);
    var ys := ReapedDuringSetup(timeout, d, delay);
    Continue(timeout, START, xs, Solo(f0, Watching(0, f0.clock)), ys, Solo(f0, map[0 := Removing("a")]), rule);
    var zs, f := SetupCompletes(timeout, d, delay);
    Continue(timeout, START, xs + ys, Solo(f0, map[0 := Removing("a")]), zs, Solo(f, map[0 := Removing("a")]), rule);
    var v := CanaryRemoved(timeout, f);
    ObeysOneMore(timeout, START, xs + ys + zs, Remove(0), v, rule);
    acts := xs + ys + zs + [Remove(0)];
    assert SlotOf(v, "a").res == {Namespace};
  }

  // ----- the exact condition

  lemma DisciplinedRunHasQuickSetups(timeout: nat, i: Id, d: Dwell, delay: nat, acts: seq<Act>)
    requires Disciplined(timeout, i, d, delay, acts)
    ensures QuickSetups(timeout, i, d.setup, acts)
  {
    ObeysWeaker(timeout, START, acts, Pace(i, d, delay), (w, a) => QuickSetup(i, d.setup, w, a));
  }

  /** Exactly when the lease holds: no inner setup may outlast the orphan timeout.  Steps, sleeps and
      scanner delays play no part in it, and neither do other jails. */
  lemma LeaseHoldsIff(timeout: nat, d: Dwell, delay: nat)
    ensures d.setup <= timeout <==>
            forall acts, i :: Disciplined(timeout, i, d, delay, acts) && !OwnErr(acts, i) ==>
              var s := SlotOf(Exec(timeout, START, acts).value, i); s.res != {} ==> s.canary.Some?
  {
    if d.setup <= timeout {
      forall acts, i | Disciplined(timeout, i, d, delay, acts) && !OwnErr(acts, i)
        ensures var s := SlotOf(Exec(timeout, START, acts).value, i); s.res != {} ==> s.canary.Some?
      {
        DisciplinedRunHasQuickSetups(timeout, i, d, delay, acts);
        ResourcesNeverWithoutCanary(timeout, i, d.setup, acts);
      }
    } else {
      var acts := LateRemoveStealsCanary(timeout, d, delay);
    }
  }
}
