/**
 No live jail is reaped: what every run of the canary protocol keeps for one jail, given how old its
 own canary and how slow a scanner that judges it can be.  Nothing is asked of other jails, of scans of
 other jails, or of scanners that never get to their comparison.
 */
module LeaseSafety {
  import opened Lease

  /** A scanner that reads the canary of `i` while it is live reads a time stamp at most `gap` old, and
      one that judges `i` while it is live does so at most `delay` after it has read. */
  predicate InTime(i: Id, gap: int, delay: int, w: World, a: Act) {
    var s := SlotOf(w, i);
    match a
    case Stat(_, j) => j == i && Live(s) && s.canary.Some? ==> w.clock - s.canary.value <= gap
    case Decide(p) =>
      ScanOf(w, p).Statted? && ScanOf(w, p).target == i && Live(s) ==> w.clock - ScanOf(w, p).at <= delay
    case _ => true
  }

  /** A run in which that is so throughout. */
  ghost predicate Timely(timeout: nat, i: Id, gap: int, delay: int, acts: seq<Act>) {
    Obeys(timeout, START, acts, (w, a) => InTime(i, gap, delay, w, a))
  }

  // ----- the invariant

  predicate SlotInv(s: Slot) {
    && (s.main.NotStarted? ==> s.canary.None? && !s.stop)
    && (Live(s) ==> s.canary.Some? && !s.stop)
    && (s.beat.NoBeat? || s.beat.BeatDone? || PastSetup(s.main))
  }

  /** What a scanner of the jail knows: the age of a live jail's canary when it looked, and that a
      jail being reaped has retired. */
  predicate ScanInv(gap: int, c: Scan, s: Slot) {
    match c
    case Idle => true
    case Statted(_, m, at) => !s.main.NotStarted? && (Live(s) ==> at - m <= gap)
    case Reaping(_, _) => Retired(s)
    case Removing(_) => Retired(s)
  }

  ghost predicate Inv(i: Id, gap: int, w: World) {
    SlotInv(SlotOf(w, i)) &&
    forall p :: p in w.scans && Concerns(w.scans[p], i) ==> ScanInv(gap, w.scans[p], SlotOf(w, i))
  }

  // ----- one step

  lemma JailStepKeepsSlotInv(c: int, s: Slot, a: JailAct)
    requires SlotInv(s) && JailStep(c, s, a).Some?
    ensures SlotInv(JailStep(c, s, a).value)
  {
  }

  /** A retired jail stays retired; a live one was started. */
  lemma JailStepKeepsScanInv(gap: int, x: Scan, c: int, s: Slot, a: JailAct)
    requires SlotInv(s) && JailStep(c, s, a).Some? && ScanInv(gap, x, s)
    ensures ScanInv(gap, x, JailStep(c, s, a).value)
  {
  }

  lemma JailActionKeepsInv(timeout: nat, gap: int, w: World, i: Id, act: JailAct)
    requires Inv(i, gap, w) && Step(timeout, w, Jail(i, act)).Some?
    ensures Inv(i, gap, Step(timeout, w, Jail(i, act)).value)
  {
    var w' := Step(timeout, w, Jail(i, act)).value;
    JailStepKeepsSlotInv(w.clock, SlotOf(w, i), act);
    forall p | p in w'.scans && Concerns(w'.scans[p], i) ensures ScanInv(gap, w'.scans[p], SlotOf(w', i)) {
      JailStepKeepsScanInv(gap, w.scans[p], w.clock, SlotOf(w, i), act);
    }
  }

  /** The timing argument: a live jail's canary cannot look stale to a prompt scanner. */
  lemma DecideKeepsInv(timeout: nat, i: Id, gap: int, delay: int, w: World, p: nat)
    requires gap + delay <= timeout
    requires Inv(i, gap, w) && InTime(i, gap, delay, w, Decide(p)) && Step(timeout, w, Decide(p)).Some?
    ensures Inv(i, gap, Step(timeout, w, Decide(p)).value)
  {
    var w' := Step(timeout, w, Decide(p)).value;
    forall q | q in w'.scans && Concerns(w'.scans[q], i) ensures ScanInv(gap, w'.scans[q], SlotOf(w', i)) {
      if q == p {
        assert Age(w.clock, w.scans[p].mtime) > timeout;
        assert ScanInv(gap, w.scans[p], SlotOf(w, i));
      }
    }
  }

  /** Reap and Remove change a slot that no live jail owns. */
  lemma ReaperKeepsInv(timeout: nat, i: Id, gap: int, w: World, a: Act)
    requires a.Reap? || a.ReapReturns? || a.Remove? || a.Abandon?
    requires Inv(i, gap, w) && Step(timeout, w, a).Some?
    ensures Inv(i, gap, Step(timeout, w, a).value)
  {
    var w' := Step(timeout, w, a).value;
    assert Concerns(w.scans[a.p], i) ==> ScanInv(gap, w.scans[a.p], SlotOf(w, i));
    forall q | q in w'.scans && Concerns(w'.scans[q], i) ensures ScanInv(gap, w'.scans[q], SlotOf(w', i)) {
      assert ScanInv(gap, w.scans[q], SlotOf(w, i));
    }
  }

  lemma StepKeepsInv(timeout: nat, i: Id, gap: int, delay: int, w: World, a: Act)
    requires gap + delay <= timeout
    requires Inv(i, gap, w) && InTime(i, gap, delay, w, a) && Step(timeout, w, a).Some?
    ensures Inv(i, gap, Step(timeout, w, a).value)
  {
    match a
    case Tick(_) =>
    case Jail(j, act) => if j == i { JailActionKeepsInv(timeout, gap, w, i, act); }
    case Stat(_, _) =>
    case Decide(p) => DecideKeepsInv(timeout, i, gap, delay, w, p);
    case _ => ReaperKeepsInv(timeout, i, gap, w, a);
  }

  // ----- whole runs

  lemma {:induction false} RunKeepsInv(timeout: nat, i: Id, gap: int, delay: int, acts: seq<Act>)
    requires gap + delay <= timeout
    requires Timely(timeout, i, gap, delay, acts)
    ensures Inv(i, gap, Exec(timeout, START, acts).value)
  {
    if acts != [] {
      var before := acts[..|acts| - 1];
      RunKeepsInv(timeout, i, gap, delay, before);
      StepKeepsInv(timeout, i, gap, delay, Exec(timeout, START, before).value, acts[|acts| - 1]);
    }
  }

  /** A jail whose own gap plus delay fit is never being freed, nor its canary removed, while it is
      live, whatever the other jails and the other scanners do. */
  lemma NoLiveJailIsReaped(timeout: nat, i: Id, gap: int, delay: int, acts: seq<Act>, p: nat)
    requires gap + delay <= timeout
    requires Timely(timeout, i, gap, delay, acts)
    ensures var w := Exec(timeout, START, acts).value;
            (ScanOf(w, p).Reaping? || ScanOf(w, p).Removing?) && ScanOf(w, p).target == i ==> !Live(SlotOf(w, i))
  {
    RunKeepsInv(timeout, i, gap, delay, acts);
  }
}
