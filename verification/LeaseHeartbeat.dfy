/**
 What the heartbeat thread does for a running jail: it never ends before it is told to, whatever fails,
 it touches the canary once per sleep, and it is never further than one sleep from a fresh time stamp.
 And what can strike at any moment.
 */
module LeaseHeartbeat {
  import opened Wrappers
  import opened Lease
  import LeaseRecovery

  // ----- a running jail has a heartbeat

  /** The flag is set only by a cleanup or a drop, and only the flag ends the thread. */
  predicate BeatsOn(s: Slot) {
    && (s.main.NotStarted? || Live(s) ==> !s.stop)
    && (s.main.Running? ==> !LeaseRecovery.Silent(s.beat))
    && (s.beat.BeatDone? ==> s.stop)
  }

  lemma JailStepKeepsBeatsOn(c: int, s: Slot, a: JailAct)
    requires BeatsOn(s) && JailStep(c, s, a).Some?
    ensures BeatsOn(JailStep(c, s, a).value)
  {
  }

  lemma StepKeepsBeatsOn(timeout: nat, w: World, a: Act, i: Id)
    requires BeatsOn(SlotOf(w, i)) && Step(timeout, w, a).Some?
    ensures BeatsOn(SlotOf(Step(timeout, w, a).value, i))
  {
    if a.Jail? && a.id == i {
      JailStepKeepsBeatsOn(w.clock, SlotOf(w, i), a.act);
    }
  }

  /** In every run, whatever touches fail: a running jail has not been told to stop and its heartbeat is
      somewhere in its loop; a heartbeat that has ended was told to. */
  lemma {:induction false} RunningJailBeats(timeout: nat, acts: seq<Act>, i: Id)
    requires Exec(timeout, START, acts).Some?
    ensures var s := SlotOf(Exec(timeout, START, acts).value, i);
            && BeatsOn(s)
            && (s.main.Running? ==> !s.stop && !s.beat.NoBeat? && !s.beat.BeatDone?)
            && (s.beat.BeatDone? ==> s.stop)
    decreases |acts|
  {
    if acts != [] {
      var before := acts[..|acts| - 1];
      RunningJailBeats(timeout, before, i);
      StepKeepsBeatsOn(timeout, Exec(timeout, START, before).value, acts[|acts| - 1], i);
    }
  }

  // ----- never further than one sleep from a fresh stamp

  /** The thread's next move when nothing fails. */
  function NextBeat(b: Beat): JailAct {
    match b
    case BeatLoop => Load
    case BeatExists => TestExists
    case BeatStamp => Stamp
    case BeatSet(_) => SetTimes
    case BeatCreate => WriteNew
    case _ => Wake
  }

  /** The jail after `n` such moves at clock `c`, and how many of them were the end of a sleep; None
      when the thread has none to make. */
  function Beats(c: int, s: Slot, n: nat): Option<(Slot, nat)>
    decreases n
  {
    if n == 0 then Some((s, 0))
    else
      match JailStep(c, s, NextBeat(s.beat))
      case None => None
      case Some(t) =>
        match Beats(c, t, n - 1)
        case None => None
        case Some((u, sleeps)) => Some((u, if s.beat.BeatSleep? then sleeps + 1 else sleeps))
  }

  /** Within `n` moves and `sleeps` sleeps the canary carries the current time; the owner has not moved. */
  predicate Stamps(c: int, s: Slot, n: nat, sleeps: nat) {
    Beats(c, s, n).Some? &&
    var (t, k) := Beats(c, s, n).value;
    t.canary == Some(c) && t.main == s.main && k <= sleeps
  }

  lemma StampsLater(c: int, s: Slot, n: nat, sleeps: nat)
    requires JailStep(c, s, NextBeat(s.beat)).Some?
    requires var t := JailStep(c, s, NextBeat(s.beat)).value; t.main == s.main && Stamps(c, t, n, sleeps)
    ensures Stamps(c, s, n + 1, if s.beat.BeatSleep? then sleeps + 1 else sleeps)
  {
  }

  /** From the test for the file: it is touched, or created anew, without a sleep. */
  lemma ExistsStamps(c: int, s: Slot) returns (n: nat)
    requires s.beat.BeatExists?
    ensures Stamps(c, s, n, 0)
  {
    var u := JailStep(c, s, TestExists).value;
    if s.canary.Some? {
      var v := JailStep(c, u, Stamp).value;
      assert Stamps(c, JailStep(c, v, SetTimes).value, 0, 0);
      StampsLater(c, v, 0, 0);
      StampsLater(c, u, 1, 0);
      n := 3;
    } else {
      assert Stamps(c, JailStep(c, u, WriteNew).value, 0, 0);
      StampsLater(c, u, 0, 0);
      n := 2;
    }
    StampsLater(c, s, n - 1, 0);
  }

  lemma LoopStamps(c: int, s: Slot) returns (n: nat)
    requires s.beat.BeatLoop? && !s.stop
    ensures Stamps(c, s, n, 0)
  {
    n := ExistsStamps(c, JailStep(c, s, Load).value);
    StampsLater(c, s, n, 0);
    n := n + 1;
  }

  /** From wherever a touch has just failed, or has not begun: at most one sleep away from a touch. */
  lemma SleepStamps(c: int, s: Slot) returns (n: nat)
    requires s.beat.BeatSleep? && !s.stop
    ensures Stamps(c, s, n, 1)
  {
    n := LoopStamps(c, JailStep(c, s, Wake).value);
    StampsLater(c, s, n, 0);
    n := n + 1;
  }

  lemma AnyBeatStamps(c: int, s: Slot) returns (n: nat)
    requires !s.stop && !LeaseRecovery.Silent(s.beat)
    ensures Stamps(c, s, n, 1)
  {
    match s.beat
    case BeatLoop => n := LoopStamps(c, s);
    case BeatSleep => n := SleepStamps(c, s);
    case BeatCreate =>
      assert Stamps(c, JailStep(c, s, WriteNew).value, 0, 1);
      StampsLater(c, s, 0, 1);
      n := 1;
    case BeatSet(_) =>
      n := SleepStamps(c, JailStep(c, s, SetTimes).value);
      StampsLater(c, s, n, 1);
      n := n + 1;
    case BeatStamp =>
      var t := JailStep(c, s, Stamp).value;
      n := SleepStamps(c, JailStep(c, t, SetTimes).value);
      StampsLater(c, t, n, 1);
      StampsLater(c, s, n + 1, 1);
      n := n + 2;
    case BeatExists => n := ExistsStamps(c, s);
  }

  /** In every run: a running jail, also one whose touch fails this very moment, has a heartbeat that
      can stamp its canary with the current time after at most one sleep. */
  lemma RunningJailCanStamp(timeout: nat, acts: seq<Act>, i: Id, failing: bool) returns (n: nat)
    requires Exec(timeout, START, acts).Some?
    requires var w := Exec(timeout, START, acts).value;
             && SlotOf(w, i).main.Running?
             && (failing ==> JailStep(w.clock, SlotOf(w, i), BeatFail).Some?)
    ensures var w := Exec(timeout, START, acts).value;
            Stamps(w.clock, if failing then JailStep(w.clock, SlotOf(w, i), BeatFail).value else SlotOf(w, i), n, 1)
  {
    RunningJailBeats(timeout, acts, i);
    var w := Exec(timeout, START, acts).value;
    var s := if failing then JailStep(w.clock, SlotOf(w, i), BeatFail).value else SlotOf(w, i);
    if failing {
      JailStepKeepsBeatsOn(w.clock, SlotOf(w, i), BeatFail);
    }
    n := AnyBeatStamps(w.clock, s);
  }

  // ----- one touch per sleep

  function Count(acts: seq<Act>, a: Act): nat {
    if acts == [] then 0 else Count(acts[..|acts| - 1], a) + if acts[|acts| - 1] == a then 1 else 0
  }

  /** The touches that may begin before the next sleep ends. */
  function TouchesDue(b: Beat): nat {
    if b.BeatLoop? || b.BeatExists? then 1 else 0
  }

  /** Setup has returned, or the jail has ended: no heartbeat will be started any more. */
  predicate NoMoreSpawn(s: Slot) {
    !s.main.NotStarted? && !s.main.InSetup? && !s.main.Beating?
  }

  lemma StepKeepsRhythm(timeout: nat, w: World, a: Act, i: Id)
    requires NoMoreSpawn(SlotOf(w, i)) && Step(timeout, w, a).Some?
    ensures var s, t := SlotOf(w, i), SlotOf(Step(timeout, w, a).value, i);
            && NoMoreSpawn(t)
            && (if a == Jail(i, TestExists) then 1 else 0) + TouchesDue(t.beat) <=
               TouchesDue(s.beat) + (if a == Jail(i, Wake) then 1 else 0)
  {
  }

  /** In any schedule, whatever touches fail: there is a whole sleep between two touches. */
  lemma {:induction false} OneTouchPerSleep(timeout: nat, w: World, acts: seq<Act>, i: Id)
    requires NoMoreSpawn(SlotOf(w, i)) && Exec(timeout, w, acts).Some?
    ensures NoMoreSpawn(SlotOf(Exec(timeout, w, acts).value, i))
    ensures Count(acts, Jail(i, TestExists)) + TouchesDue(SlotOf(Exec(timeout, w, acts).value, i).beat) <=
            Count(acts, Jail(i, Wake)) + TouchesDue(SlotOf(w, i).beat)
    decreases |acts|
  {
    if acts != [] {
      var before := acts[..|acts| - 1];
      OneTouchPerSleep(timeout, w, before, i);
      StepKeepsRhythm(timeout, Exec(timeout, w, before).value, acts[|acts| - 1], i);
    }
  }

  // ----- what can strike at any moment

  /** In any world: the clock may jump; a jail that was started may crash, and leaves its canary and its
      resources as they are; any touch of a canary may fail, and costs one sleep; a scanner
      may die; a cleanup by a scanner may fail with anything left.  None of it touches another jail or scanner. */
  lemma FaultsCanStrike(timeout: nat, w: World, i: Id, p: nat, c: int)
    ensures var s := SlotOf(w, i);
            && (exists v :: Step(timeout, w, Tick(c)) == Some(v) &&
                  v.clock == c && v.slots == w.slots && v.scans == w.scans)
            && (!s.main.NotStarted? && !s.main.Crashed? ==>
                  exists v :: Step(timeout, w, Jail(i, Crash)) == Some(v) && v.scans == w.scans &&
                    SlotOf(v, i).main.Crashed? && LeaseRecovery.Silent(SlotOf(v, i).beat) &&
                    SlotOf(v, i).canary == s.canary && SlotOf(v, i).res == s.res &&
                    forall j :: j != i ==> SlotOf(v, j) == SlotOf(w, j))
            && (s.beat.BeatExists? || s.beat.BeatStamp? || s.beat.BeatSet? || s.beat.BeatCreate? ==>
                  exists v :: Step(timeout, w, Jail(i, BeatFail)) == Some(v) && v.scans == w.scans &&
                    SlotOf(v, i) == s.(beat := BeatSleep, beatSince := w.clock) &&
                    forall j :: j != i ==> SlotOf(v, j) == SlotOf(w, j))
            && (!ScanOf(w, p).Idle? ==>
                  exists v :: Step(timeout, w, Abandon(p)) == Some(v) && v.slots == w.slots && ScanOf(v, p).Idle? &&
                    forall q :: q != p ==> ScanOf(v, q) == ScanOf(w, q))
            && (ScanOf(w, p).Reaping? ==>
                  exists v :: Step(timeout, w, ReapReturns(p, false)) == Some(v) && v.slots == w.slots &&
                    ScanOf(v, p).Idle? && forall q :: q != p ==> ScanOf(v, q) == ScanOf(w, q))
  {
    var t := Step(timeout, w, Tick(c));
    assert t.Some?;
    var k := Step(timeout, w, Jail(i, Crash));
    var b := Step(timeout, w, Jail(i, BeatFail));
    var a := Step(timeout, w, Abandon(p));
    var r := Step(timeout, w, ReapReturns(p, false));
  }
}
