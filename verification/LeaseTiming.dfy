/**
 From scheduling delays to canary ages: how long the threads may take at each point decides
 whether a live jail can be reaped, and the bound is exact.
 */
module LeaseTiming {
  import opened Wrappers
  import opened Resources
  import opened Lease
  import opened LeaseRuns
  import opened LeaseSafety

  /** The longest stay of a live jail: in the inner setup, at any other single point of its two
      threads, and in the sleep between two heartbeats. */
  datatype Dwell = Dwell(setup: nat, step: nat, sleep: nat)

  /** The oldest a live jail's canary can get: the whole inner setup, or one sleep and the five
      points from taking one time stamp to setting the next. */
  function Gap(d: Dwell): nat {
    if d.setup >= 5 * d.step + d.sleep then d.setup else 5 * d.step + d.sleep
  }

  predicate DwellOk(d: Dwell, clock: int, s: Slot) {
    && (s.main.InSetup? ==> clock - s.since <= d.setup)
    && (s.main.Beating? ==> clock - s.since <= d.step)
    && (s.main.Running? ==> clock - s.beatSince <= if s.beat.BeatSleep? then d.sleep else d.step)
  }

  /** No thread of `i` overstays, no touch of its canary fails, and no scanner takes longer than `delay`
      from reading its canary to judging it. */
  predicate KeepsPace(i: Id, d: Dwell, delay: nat, w: World, a: Act) {
    && DwellOk(d, w.clock, SlotOf(w, i))
    && a != Jail(i, BeatFail)
    && match a
       case Decide(p) => ScanOf(w, p).Statted? && ScanOf(w, p).target == i ==> w.clock - ScanOf(w, p).at <= delay
       case _ => true
  }

  ghost function Pace(i: Id, d: Dwell, delay: nat): (World, Act) -> bool {
    (w, a) => KeepsPace(i, d, delay, w, a)
  }

  /** A run in which that is so throughout; the other jails and their scanners do what they like. */
  ghost predicate Disciplined(timeout: nat, i: Id, d: Dwell, delay: nat, acts: seq<Act>) {
    Obeys(timeout, START, acts, Pace(i, d, delay))
  }

  // ----- every disciplined run is timely

  /** How old the canary may already be when the heartbeat thread reaches a point. */
  function AgeOnEntry(d: Dwell, b: Beat): nat {
    match b
    case BeatSleep => d.step
    case BeatLoop => d.step + d.sleep
    case BeatExists => 2 * d.step + d.sleep
    case BeatStamp => 3 * d.step + d.sleep
    case _ => 4 * d.step + d.sleep
  }

  predicate Paced(d: Dwell, s: Slot) {
    && (s.main.InSetup? || s.main.Beating? ==> s.canary == Some(s.since))
    && (s.main.Running? ==>
          && s.canary.Some?
          && s.beatSince - s.canary.value <= AgeOnEntry(d, s.beat)
          && (s.beat.BeatLoop? || s.beat.BeatExists? || s.beat.BeatStamp? || s.beat.BeatSet? || s.beat.BeatSleep?)
          && (s.beat.BeatSet? ==> s.beat.stamp == s.beatSince))
  }

  lemma JailStepKeepsPace(d: Dwell, c: int, s: Slot, a: JailAct)
    requires SlotInv(s) && Paced(d, s) && DwellOk(d, c, s)
    requires JailStep(c, s, a).Some? && !a.BeatFail?
    ensures Paced(d, JailStep(c, s, a).value)
  {
  }

  lemma PacedIsInTime(i: Id, d: Dwell, delay: nat, w: World, a: Act)
    requires Paced(d, SlotOf(w, i)) && KeepsPace(i, d, delay, w, a)
    ensures InTime(i, Gap(d), delay, w, a)
  {
  }

  lemma StepKeepsPace(timeout: nat, i: Id, d: Dwell, delay: nat, w: World, a: Act)
    requires Inv(i, Gap(d), w) && Paced(d, SlotOf(w, i)) && KeepsPace(i, d, delay, w, a)
    requires Step(timeout, w, a).Some?
    ensures Paced(d, SlotOf(Step(timeout, w, a).value, i))
  {
    match a
    case Jail(j, act) => if j == i { JailStepKeepsPace(d, w.clock, SlotOf(w, i), act); }
    case Reap(p, _) => assert Concerns(w.scans[p], i) ==> ScanInv(Gap(d), w.scans[p], SlotOf(w, i));
    case Remove(p) => assert Concerns(w.scans[p], i) ==> ScanInv(Gap(d), w.scans[p], SlotOf(w, i));
    case _ =>
  }

  lemma {:induction false} DisciplinedRunIsPaced(timeout: nat, i: Id, d: Dwell, delay: nat, acts: seq<Act>)
    requires Gap(d) + delay <= timeout
    requires Disciplined(timeout, i, d, delay, acts)
    ensures Inv(i, Gap(d), Exec(timeout, START, acts).value)
    ensures Paced(d, SlotOf(Exec(timeout, START, acts).value, i))
    ensures Timely(timeout, i, Gap(d), delay, acts)
    decreases |acts|
  {
    if acts != [] {
      var before, a := acts[..|acts| - 1], acts[|acts| - 1];
      var v := Exec(timeout, START, before).value;
      DisciplinedRunIsPaced(timeout, i, d, delay, before);
      assert Pace(i, d, delay)(v, a);
      PacedIsInTime(i, d, delay, v, a);
      StepKeepsPace(timeout, i, d, delay, v, a);
      StepKeepsInv(timeout, i, Gap(d), delay, v, a);
    }
  }

  // ----- the bound is exact

  /** A world with one jail, seen at one clock reading. */
  datatype Frame = Frame(clock: int, slot: Slot)

  function Solo(f: Frame, scans: map<nat, Scan>): World {
    World(f.clock, map["a" := f.slot], scans)
  }

  predicate Moves(f: Frame, a: Act, g: Frame) {
    match a
    case Tick(c) => g == f.(clock := c)
    case Jail(i, act) =>
      i == "a" && g.clock == f.clock && JailStep(f.clock, f.slot, act) == Some(g.slot) && !act.BeatFail?
    case _ => false
  }

  lemma SoloStep(timeout: nat, f: Frame, a: Act, g: Frame, scans: map<nat, Scan>)
    requires Moves(f, a, g)
    ensures Step(timeout, Solo(f, scans), a) == Some(Solo(g, scans))
  {
    if a.Jail? {
      assert map["a" := f.slot]["a" := g.slot] == map["a" := g.slot];
    }
  }

  /** What the one jail looks like before each of its actions and after the last; no thread overstays. */
  ghost predicate SoloRun(d: Dwell, acts: seq<Act>, fs: seq<Frame>) {
    && |fs| == |acts| + 1
    && (forall k :: 0 <= k < |acts| ==> Moves(fs[k], acts[k], fs[k + 1]))
    && (forall k :: 0 <= k < |fs| ==> DwellOk(d, fs[k].clock, fs[k].slot))
  }

  lemma SoloRunConcat(d: Dwell, xs: seq<Act>, fs: seq<Frame>, ys: seq<Act>, gs: seq<Frame>)
    requires SoloRun(d, xs, fs) && SoloRun(d, ys, gs) && fs[|xs|] == gs[0]
    ensures SoloRun(d, xs + ys, fs + gs[1..])
  {
    var hs := fs + gs[1..];
    assert forall k :: 0 <= k <= |xs| ==> hs[k] == fs[k];
    assert forall k :: |xs| <= k < |hs| ==> hs[k] == gs[k - |xs|];
  }

  /** Such a run is one of the protocol's, whatever scanners are waiting. */
  lemma SoloPath(timeout: nat, d: Dwell, delay: nat, acts: seq<Act>, fs: seq<Frame>, scans: map<nat, Scan>)
    requires SoloRun(d, acts, fs)
    ensures Exec(timeout, Solo(fs[0], scans), acts) == Some(Solo(fs[|acts|], scans))
    ensures Obeys(timeout, Solo(fs[0], scans), acts, Pace("a", d, delay))
  {
    var ws := seq(|fs|, k requires 0 <= k < |fs| => Solo(fs[k], scans));
    forall k | 0 <= k < |acts|
      ensures Step(timeout, ws[k], acts[k]) == Some(ws[k + 1]) && Pace("a", d, delay)(ws[k], acts[k])
    {
      assert Moves(fs[k], acts[k], fs[k + 1]);
      SoloStep(timeout, fs[k], acts[k], fs[k + 1], scans);
    }
    ObeysSteps(timeout, acts, ws, Pace("a", d, delay));
  }

  /** Asleep since now in a running jail whose canary exists. */
  predicate Asleep(f: Frame) {
    f.slot.main.Running? && f.slot.canary.Some? && !f.slot.stop && f.slot.beat.BeatSleep? &&
    f.slot.beatSince == f.clock
  }

  /** One touch of the canary, in no time. */
  lemma QuickTouch(d: Dwell, f: Frame) returns (acts: seq<Act>, fs: seq<Frame>)
    requires f.slot.main.Running? && f.slot.canary.Some? && !f.slot.stop
    requires f.slot.beat.BeatLoop? && f.slot.beatSince == f.clock
    ensures SoloRun(d, acts, fs) && fs[0] == f && Asleep(fs[|acts|]) && fs[|acts|].clock == f.clock
  {
    var c, b := f.clock, f.slot;
    acts := [Jail("a", Load), Jail("a", TestExists), Jail("a", Stamp), Jail("a", SetTimes)];
    fs := [f, Frame(c, b.(beat := BeatExists)), Frame(c, b.(beat := BeatStamp)), Frame(c, b.(beat := BeatSet(c))),
           Frame(c, b.(beat := BeatSleep, canary := Some(c)))];
  }

  /** One turn of the heartbeat loop that lasts exactly the sleep interval. */
  lemma OneBeat(d: Dwell, f: Frame) returns (acts: seq<Act>, fs: seq<Frame>)
    requires Asleep(f)
    ensures SoloRun(d, acts, fs) && fs[0] == f
    ensures Asleep(fs[|acts|]) && fs[|acts|].clock == f.clock + d.sleep
  {
    var c := f.clock + d.sleep;
    var g := Frame(c, f.slot.(beat := BeatLoop, beatSince := c));
    var xs, gs := [Tick(c), Jail("a", Wake)], [f, Frame(c, f.slot), g];
    var ys, hs := QuickTouch(d, g);
    SoloRunConcat(d, xs, gs, ys, hs);
    acts, fs := xs + ys, gs + hs[1..];
  }

  /** A running jail can stay live, keeping every bound, for any length of time. */
  lemma {:induction false} StayAlive(d: Dwell, f: Frame, wait: nat) returns (acts: seq<Act>, fs: seq<Frame>)
    requires d.sleep >= 1 && Asleep(f)
    ensures SoloRun(d, acts, fs) && fs[0] == f
    ensures fs[|acts|].slot.main.Running? && fs[|acts|].clock == f.clock + wait
    decreases wait
  {
    if wait <= d.sleep {
      acts, fs := [Tick(f.clock + wait)], [f, f.(clock := f.clock + wait)];
    } else {
      var xs, gs := OneBeat(d, f);
      var ys, hs := StayAlive(d, gs[|xs|], wait - d.sleep);
      SoloRunConcat(d, xs, gs, ys, hs);
      acts, fs := xs + ys, gs + hs[1..];
    }
  }

  /** A jail whose canary has just been created. */
  const FRESH := Frame(0, Slot(Some(0), {}, InSetup, NoBeat, false, false, 0, 0))

  function Watching(m: int, at: int): map<nat, Scan> {
    map[0 := Statted("a", m, at)]
  }

  /** The jail goes along `fs`; then a scanner takes its mtime; then it goes on along `gs`. */
  lemma LookedAt(timeout: nat, d: Dwell, delay: nat, xs: seq<Act>, fs: seq<Frame>, ys: seq<Act>, gs: seq<Frame>)
    returns (acts: seq<Act>)
    requires SoloRun(d, xs, fs) && SoloRun(d, ys, gs)
    requires fs[0] == FRESH && gs[0] == fs[|xs|] && gs[0].slot.canary.Some?
    ensures acts == [Jail("a", Create)] + xs + [Stat(0, "a")] + ys
    ensures Disciplined(timeout, "a", d, delay, acts)
    ensures Exec(timeout, START, acts) == Some(Solo(gs[|ys|], Watching(gs[0].slot.canary.value, gs[0].clock)))
  {
    var rule := Pace("a", d, delay);
    var looked := Watching(gs[0].slot.canary.value, gs[0].clock);
    assert map[]["a" := fs[0].slot] == map["a" := fs[0].slot];
    ObeysOneMore(timeout, START, [], Jail("a", Create), Solo(fs[0], map[]), rule);
    SoloPath(timeout, d, delay, xs, fs, map[]);
    var start := [] + [Jail("a", Create)];
    Continue(timeout, START, start, Solo(fs[0], map[]), xs, Solo(gs[0], map[]), rule);
    assert map[][0 := Statted("a", gs[0].slot.canary.value, gs[0].clock)] == looked;
    ObeysOneMore(timeout, START, start + xs, Stat(0, "a"), Solo(gs[0], looked), rule);
    SoloPath(timeout, d, delay, ys, gs, looked);
    Continue(timeout, START, start + xs + [Stat(0, "a")], Solo(gs[0], looked), ys, Solo(gs[|ys|], looked), rule);
    acts := start + xs + [Stat(0, "a")] + ys;
  }

  /** From the end of an inner setup at `c` to the first time stamp, in no time. */
  lemma UpToStamp(d: Dwell, c: int) returns (xs: seq<Act>, fs: seq<Frame>)
    requires c <= d.setup
    ensures SoloRun(d, xs, fs) && fs[0] == FRESH.(clock := c)
    ensures fs[|xs|] == Frame(c, Slot(Some(c), {}, Running, BeatSet(c), false, false, c, c))
    ensures forall k :: 0 <= k < |fs| ==> fs[k].clock == c
  {
    var s := FRESH.slot.(canary := Some(c), main := Beating, since := c);
    var t := s.(main := Running, beat := BeatLoop, beatSince := c);
    xs := [Jail("a", SetupOk), Jail("a", Spawn), Jail("a", Load), Jail("a", TestExists), Jail("a", Stamp)];
    fs := [FRESH.(clock := c), Frame(c, s), Frame(c, t), Frame(c, t.(beat := BeatExists)),
           Frame(c, t.(beat := BeatStamp)), Frame(c, t.(beat := BeatSet(c)))];
  }

  /** The same up to the first sleep. */
  lemma FirstTouch(d: Dwell, c: int) returns (xs: seq<Act>, fs: seq<Frame>)
    requires c <= d.setup
    ensures SoloRun(d, xs, fs) && fs[0] == FRESH.(clock := c) && Asleep(fs[|xs|])
    ensures forall k :: 0 <= k < |fs| ==> fs[k].clock == c
  {
    var before, gs := UpToStamp(d, c);
    var g := gs[|before|];
    var asleep := g.(slot := g.slot.(beat := BeatSleep));
    assert SoloRun(d, [Jail("a", SetTimes)], [g, asleep]);
    SoloRunConcat(d, before, gs, [Jail("a", SetTimes)], [g, asleep]);
    xs, fs := before + [Jail("a", SetTimes)], gs + [g, asleep][1..];
  }

  /** A running jail whose canary was stamped at 0 and whose heartbeat reached `b` at `since`. */
  function At(clock: int, b: Beat, since: int): Frame {
    Frame(clock, Slot(Some(0), {}, Running, b, false, false, 0, since))
  }

  lemma SlowSleep(d: Dwell) returns (xs: seq<Act>, fs: seq<Frame>)
    ensures SoloRun(d, xs, fs) && fs[0] == At(0, BeatSet(0), 0)
    ensures fs[|xs|] == At(2 * d.step + d.sleep, BeatLoop, d.step + d.sleep)
  {
    var e: int, z: int := d.step, d.sleep;
    xs := [Tick(e), Jail("a", SetTimes), Tick(e + z), Jail("a", Wake), Tick(2 * e + z)];
    fs := [At(0, BeatSet(0), 0), At(e, BeatSet(0), 0), At(e, BeatSleep, e), At(e + z, BeatSleep, e),
           At(e + z, BeatLoop, e + z), At(2 * e + z, BeatLoop, e + z)];
  }

  lemma SlowLook(d: Dwell) returns (xs: seq<Act>, fs: seq<Frame>)
    ensures SoloRun(d, xs, fs) && fs[0] == At(2 * d.step + d.sleep, BeatLoop, d.step + d.sleep)
    ensures fs[|xs|] == At(4 * d.step + d.sleep, BeatStamp, 3 * d.step + d.sleep)
  {
    var e: int, z: int := d.step, d.sleep;
    xs := [Jail("a", Load), Tick(3 * e + z), Jail("a", TestExists), Tick(4 * e + z)];
    fs := [At(2 * e + z, BeatLoop, e + z), At(2 * e + z, BeatExists, 2 * e + z), At(3 * e + z, BeatExists, 2 * e + z),
           At(3 * e + z, BeatStamp, 3 * e + z), At(4 * e + z, BeatStamp, 3 * e + z)];
  }

  lemma SlowTouch(d: Dwell) returns (xs: seq<Act>, fs: seq<Frame>)
    ensures SoloRun(d, xs, fs) && fs[0] == At(4 * d.step + d.sleep, BeatStamp, 3 * d.step + d.sleep)
    ensures fs[|xs|] == At(5 * d.step + d.sleep, BeatSet(4 * d.step + d.sleep), 4 * d.step + d.sleep)
  {
    var e: int, z: int := d.step, d.sleep;
    var stamp := BeatSet(4 * e + z);
    xs := [Jail("a", Stamp), Tick(5 * e + z)];
    fs := [At(4 * e + z, BeatStamp, 3 * e + z), At(4 * e + z, stamp, 4 * e + z), At(5 * e + z, stamp, 4 * e + z)];
  }

  /** What a scanner sees when a canary is as old as it can get: the jail up to that moment, and from
      there, in no time, to its next sleep. */
  ghost predicate Oldest(d: Dwell, xs: seq<Act>, fs: seq<Frame>, ys: seq<Act>, gs: seq<Frame>) {
    && SoloRun(d, xs, fs) && SoloRun(d, ys, gs)
    && fs[0] == FRESH && gs[0] == fs[|xs|]
    && gs[0].slot.canary == Some(gs[0].clock - Gap(d))
    && Asleep(gs[|ys|]) && gs[|ys|].clock == gs[0].clock
  }

  /** An inner setup that takes all of its time, looked at in its last moment. */
  lemma SlowSetup(d: Dwell) returns (xs: seq<Act>, fs: seq<Frame>, ys: seq<Act>, gs: seq<Frame>)
    requires Gap(d) == d.setup
    ensures Oldest(d, xs, fs, ys, gs)
  {
    ys, gs := FirstTouch(d, d.setup);
    xs, fs := [Tick(d.setup)], [FRESH, FRESH.(clock := d.setup)];
  }

  /** A heartbeat that takes all of its time at every point, looked at just before it lands. */
  lemma SlowBeat(d: Dwell) returns (xs: seq<Act>, fs: seq<Frame>, ys: seq<Act>, gs: seq<Frame>)
    requires Gap(d) == 5 * d.step + d.sleep
    ensures Oldest(d, xs, fs, ys, gs)
  {
    var xs1, fs1 := UpToStamp(d, 0);
    var xs2, fs2 := SlowSleep(d);
    var xs3, fs3 := SlowLook(d);
    var xs4, fs4 := SlowTouch(d);
    SoloRunConcat(d, xs1, fs1, xs2, fs2);
    SoloRunConcat(d, xs3, fs3, xs4, fs4);
    SoloRunConcat(d, xs1 + xs2, fs1 + fs2[1..], xs3 + xs4, fs3 + fs4[1..]);
    xs, fs := xs1 + xs2 + (xs3 + xs4), fs1 + fs2[1..] + (fs3 + fs4[1..])[1..];
    var g := fs4[|xs4|];
    ys := [Jail("a", SetTimes)];
    gs := [g, g.(slot := g.slot.(beat := BeatSleep, canary := Some(g.slot.beatSince), beatSince := g.clock))];
  }

  /** The slower of the two ways to let a canary grow old. */
  lemma OldestCanary(d: Dwell) returns (xs: seq<Act>, fs: seq<Frame>, ys: seq<Act>, gs: seq<Frame>)
    ensures Oldest(d, xs, fs, ys, gs)
  {
    if Gap(d) == d.setup {
      xs, fs, ys, gs := SlowSetup(d);
    } else {
      xs, fs, ys, gs := SlowBeat(d);
    }
  }

  /** Some scanner is freeing the resources of `i` while it is live. */
  ghost predicate ReapsLive(w: World, i: Id) {
    Live(SlotOf(w, i)) && exists p :: ScanOf(w, p).Reaping? && ScanOf(w, p).target == i
  }

  /** The scanner compares the mtime it holds with the clock and finds the jail stale. */
  lemma FindsLiveJailStale(timeout: nat, g: Frame, m: int, at: int) returns (v: World)
    requires g.slot.main.Running? && g.clock - m > timeout
    ensures Step(timeout, Solo(g, Watching(m, at)), Decide(0)) == Some(v) && ReapsLive(v, "a")
  {
    v := Solo(g, map[0 := Reaping("a", ALL_RESOURCES)]);
    assert Watching(m, at)[0 := Reaping("a", ALL_RESOURCES)] == map[0 := Reaping("a", ALL_RESOURCES)];
    assert ScanOf(v, 0).Reaping? && ScanOf(v, 0).target == "a";
  }

  /** The same, and then alive for as long as the scanner takes. */
  lemma OldestAndAlive(d: Dwell, delay: nat) returns (xs: seq<Act>, fs: seq<Frame>, ys: seq<Act>, gs: seq<Frame>)
    requires d.sleep >= 1
    ensures SoloRun(d, xs, fs) && SoloRun(d, ys, gs) && fs[0] == FRESH && gs[0] == fs[|xs|]
    ensures gs[0].slot.canary == Some(gs[0].clock - Gap(d))
    ensures gs[|ys|].slot.main.Running? && gs[|ys|].clock == gs[0].clock + delay
  {
    var zs, hs;
    xs, fs, zs, hs := OldestCanary(d);
    var us, ks := StayAlive(d, hs[|zs|], delay);
    SoloRunConcat(d, zs, hs, us, ks);
    ys, gs := zs + us, hs + ks[1..];
  }

  lemma TooSlowReapsLiveJail(timeout: nat, d: Dwell, delay: nat) returns (acts: seq<Act>)
    requires d.sleep >= 1
    requires Gap(d) + delay > timeout
    ensures Disciplined(timeout, "a", d, delay, acts)
    ensures ReapsLive(Exec(timeout, START, acts).value, "a")
  {
    var xs, fs, ys, gs := OldestAndAlive(d, delay);
    var before := LookedAt(timeout, d, delay, xs, fs, ys, gs);
    var v := FindsLiveJailStale(timeout, gs[|ys|], gs[0].clock - Gap(d), gs[0].clock);
    ObeysOneMore(timeout, START, before, Decide(0), v, Pace("a", d, delay));
    acts := before + [Decide(0)];
  }

  /** Exactly when a set of thread delays is safe: the oldest canary plus the slowest scanner must
      fit within the orphan timeout.  The delays are those of one jail and of the scanners that judge it. */
  lemma LiveJailsAreSafeIff(timeout: nat, d: Dwell, delay: nat)
    requires d.sleep >= 1
    ensures Gap(d) + delay <= timeout <==>
            forall acts, i :: Disciplined(timeout, i, d, delay, acts) ==>
              !ReapsLive(Exec(timeout, START, acts).value, i)
  {
    if Gap(d) + delay <= timeout {
      forall acts, i | Disciplined(timeout, i, d, delay, acts)
        ensures !ReapsLive(Exec(timeout, START, acts).value, i)
      {
        DisciplinedRunIsPaced(timeout, i, d, delay, acts);
        var w := Exec(timeout, START, acts).value;
        forall p | ScanOf(w, p).Reaping? && ScanOf(w, p).target == i ensures !Live(SlotOf(w, i)) {
          NoLiveJailIsReaped(timeout, i, Gap(d), delay, acts, p);
        }
      }
    } else {
      var acts := TooSlowReapsLiveJail(timeout, d, delay);
    }
  }

  /** The same for the default configuration, in milliseconds: a heartbeat every second, an orphan
      timeout of ten seconds. */
  lemma DefaultsAreSafeIff(setup: nat, step: nat, delay: nat)
    ensures setup + delay <= 10000 && 5 * step + delay <= 9000 <==>
            forall acts, i :: Disciplined(10000, i, Dwell(setup, step, 1000), delay, acts) ==>
              !ReapsLive(Exec(10000, START, acts).value, i)
  {
    LiveJailsAreSafeIff(10000, Dwell(setup, step, 1000), delay);
  }
}
