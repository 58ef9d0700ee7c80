/**
 The canary protocol of src/jail/managed.rs as a labelled transition system.

 Every jail owns one `Slot`: its canary file, its operating-system resources, the program
 counters of its main thread and of its heartbeat thread, and the shared stop flag.  Any number
 of scanners walk the canary directory at the same time.  An action names the thread that moves
 and every choice it makes, so a step is a partial function and a run is a sequence of actions.
 */
module Lease {
  import opened Wrappers
  import opened Resources

  type Id = string

  /** Where the thread that owns the `ManagedJail` is. */
  datatype Main =
    | NotStarted
    | InSetup                           // canary created, inner setup running
    | Beating                           // inner setup Ok, canary written again, thread not yet spawned
    | Running                           // setup has returned Ok
    | SetupFailed                       // inner setup failed, delete_canary comes next
    | Aborted                           // setup has returned Err
    | Cleaning(left: set<Resource>)     // explicit cleanup: stop flag set, inner cleanup at work
    | CleanupDeleting(ok: bool)         // explicit cleanup: inner cleanup returned, delete_canary next
    | CleanedUp(ok: bool)               // explicit cleanup has returned
    | DropJoining                       // drop: stop flag set, waiting for the heartbeat thread
    | DropCleaning(left: set<Resource>) // drop: thread joined, inner cleanup at work
    | DropDeleting                      // drop: inner cleanup Ok, delete_canary next
    | Dropped(ok: bool)
    | Crashed                           // the process is gone, with both of its threads

  /** Where the heartbeat thread is. */
  datatype Beat =
    | NoBeat
    | BeatLoop             // about to load the stop flag
    | BeatExists           // flag was clear, about to test path.exists()
    | BeatStamp            // file exists, about to read SystemTime::now()
    | BeatSet(stamp: int)  // about to set_file_times
    | BeatCreate           // file missing, about to fs::write
    | BeatSleep
    | BeatDone

  /** `abandoned` records that the owner deleted its canary after an inner setup or cleanup that
      had returned Err.  `since` and `beatSince` record when the two threads reached the point
      where they are.  No step tests any of the three. */
  datatype Slot = Slot(
    canary: Option<int>,
    res: set<Resource>,
    main: Main,
    beat: Beat,
    stop: bool,
    abandoned: bool,
    since: int,
    beatSince: int)

  const EMPTY_SLOT := Slot(None, {}, NotStarted, NoBeat, false, false, 0, 0)

  datatype JailAct =
    | Create | CreateFails | Acquire(r: Resource) | SetupOk | StartFail | SetupErr | FailDelete | Spawn | DeleteFails
    | BeginCleanup | Free(r: Resource) | CleanupReturns(ok: bool) | CleanupDelete
    | BeginDrop | Join | DropReturns(ok: bool) | DropDelete
    | Load | TestExists | Stamp | SetTimes | WriteNew | BeatFail | Wake
    | Crash

  /** From the first canary write until cleanup begins, setup fails or the process crashes. */
  predicate Live(s: Slot) {
    s.main.InSetup? || s.main.Beating? || s.main.Running?
  }

  /** Started once and not live any more. */
  predicate Retired(s: Slot) {
    !s.main.NotStarted? && !Live(s)
  }

  /** Setup has returned Ok, and the drop has not joined the heartbeat yet. */
  predicate PastSetup(m: Main) {
    m.Running? || m.Cleaning? || m.CleanupDeleting? || m.CleanedUp? || m.DropJoining?
  }

  function When(enabled: bool, next: Slot): Option<Slot> {
    if enabled then Some(next) else None
  }

  /** One step of one thread of a jail at clock `c`, None when that thread is elsewhere.  The main
      thread moves first in the list, the heartbeat thread from `Load` on, and a crash ends both.
      `CreateFails` ends a setup whose scan or first canary write failed, `DeleteFails` is a failed
      delete_canary; a failed file operation of the heartbeat thread is only logged. */
  function JailStep(c: int, s: Slot, a: JailAct): Option<Slot> {
    match a
    case Create => When(s.main.NotStarted?, s.(canary := Some(c), main := InSetup, since := c))
    case CreateFails => When(s.main.NotStarted?, s.(main := Aborted))
    case Acquire(r) => When(s.main.InSetup?, s.(res := s.res + {r}))
    case SetupOk => When(s.main.InSetup?, s.(canary := Some(c), main := Beating, since := c))
    case StartFail => When(s.main.InSetup?, s.(main := Aborted))
    case SetupErr => When(s.main.InSetup?, s.(main := SetupFailed))
    case FailDelete => When(s.main.SetupFailed?, s.(canary := None, main := Aborted, abandoned := true))
    case DeleteFails =>
      (match s.main
       case SetupFailed => Some(s.(main := Aborted))
       case CleanupDeleting(ok) => Some(s.(main := CleanedUp(ok)))
       case DropDeleting => Some(s.(main := Dropped(true)))
       case _ => None)
    case Spawn => When(s.main.Beating?, s.(main := Running, beat := BeatLoop, beatSince := c))
    case BeginCleanup => When(s.main.Running? || s.main.CleanedUp?, s.(main := Cleaning(ALL_RESOURCES), stop := true))
    case Free(r) =>
      (match s.main
       case Cleaning(left) => Some(s.(res := s.res - {r}, main := Cleaning(left - {r})))
       case DropCleaning(left) => Some(s.(res := s.res - {r}, main := DropCleaning(left - {r})))
       case _ => None)
    case CleanupReturns(ok) =>
      When(s.main.Cleaning? && (ok ==> s.main.left == {}), s.(main := CleanupDeleting(ok)))
    case CleanupDelete =>
      (match s.main
       case CleanupDeleting(ok) => Some(s.(canary := None, main := CleanedUp(ok), abandoned := s.abandoned || !ok))
       case _ => None)
    case BeginDrop =>
      When(s.main.Running? || s.main.CleanedUp? || s.main.Aborted?, s.(main := DropJoining, stop := true))
    case Join =>
      When(s.main.DropJoining? && (s.beat.NoBeat? || s.beat.BeatDone?), s.(main := DropCleaning(ALL_RESOURCES)))
    case DropReturns(ok) =>
      When(s.main.DropCleaning? && (ok ==> s.main.left == {}), s.(main := if ok then DropDeleting else Dropped(false)))
    case DropDelete => When(s.main.DropDeleting?, s.(canary := None, main := Dropped(true)))
    case Load => When(s.beat.BeatLoop?, s.(beat := if s.stop then BeatDone else BeatExists, beatSince := c))
    case TestExists =>
      When(s.beat.BeatExists?, s.(beat := if s.canary.Some? then BeatStamp else BeatCreate, beatSince := c))
    case Stamp => When(s.beat.BeatStamp?, s.(beat := BeatSet(c), beatSince := c))
    case SetTimes =>
      (match s.beat
       case BeatSet(stamp) =>
         Some(s.(canary := if s.canary.Some? then Some(stamp) else None, beat := BeatSleep, beatSince := c))
       case _ => None)
    case WriteNew => When(s.beat.BeatCreate?, s.(canary := Some(c), beat := BeatSleep, beatSince := c))
    case BeatFail =>
      When(s.beat.BeatExists? || s.beat.BeatStamp? || s.beat.BeatSet? || s.beat.BeatCreate?,
           s.(beat := BeatSleep, beatSince := c))
    case Wake => When(s.beat.BeatSleep?, s.(beat := BeatLoop, beatSince := c))
    case Crash => When(!s.main.NotStarted? && !s.main.Crashed?, s.(main := Crashed, beat := NoBeat))
  }

  /** One visit of `cleanup_orphans` to one directory entry. */
  datatype Scan =
    | Idle
    | Statted(target: Id, mtime: int, at: int)       // metadata read when the clock showed `at`
    | Reaping(target: Id, left: set<Resource>)       // found stale, cleanup_orphaned at work
    | Removing(target: Id)                           // cleanup_orphaned Ok, remove_file next

  /** A visit to the canary of `i` is under way. */
  predicate Concerns(x: Scan, i: Id) {
    !x.Idle? && x.target == i
  }

  datatype World = World(clock: int, slots: map<Id, Slot>, scans: map<nat, Scan>)

  datatype Act =
    | Tick(to: int)
    | Jail(id: Id, act: JailAct)
    | Stat(p: nat, id: Id)
    | Decide(p: nat)
    | Reap(p: nat, r: Resource)
    | ReapReturns(p: nat, ok: bool)
    | Remove(p: nat)
    | Abandon(p: nat)      // the scanner's process dies, or an error of its own ends the scan

  function SlotOf(w: World, i: Id): Slot {
    if i in w.slots then w.slots[i] else EMPTY_SLOT
  }

  function ScanOf(w: World, p: nat): Scan {
    if p in w.scans then w.scans[p] else Idle
  }

  /** `SystemTime::now().duration_since(modified).unwrap_or(0)`. */
  function Age(now: int, modified: int): nat {
    if now >= modified then now - modified else 0
  }

  /** The clock may jump to any value, backwards included. */
  function Step(timeout: nat, w: World, a: Act): Option<World> {
    match a
    case Tick(c) => Some(w.(clock := c))
    case Jail(i, act) =>
      (match JailStep(w.clock, SlotOf(w, i), act)
       case Some(s) => Some(w.(slots := w.slots[i := s]))
       case None => None)
    case Stat(p, i) =>
      if ScanOf(w, p).Idle? && SlotOf(w, i).canary.Some?
      then Some(w.(scans := w.scans[p := Statted(i, SlotOf(w, i).canary.value, w.clock)]))
      else None
    case Decide(p) =>
      (match ScanOf(w, p)
       case Statted(i, m, _) =>
         Some(w.(scans := w.scans[p := if Age(w.clock, m) > timeout then Reaping(i, ALL_RESOURCES) else Idle]))
       case _ => None)
    case Reap(p, r) =>
      (match ScanOf(w, p)
       case Reaping(i, left) =>
         Some(w.(slots := w.slots[i := SlotOf(w, i).(res := SlotOf(w, i).res - {r})],
                 scans := w.scans[p := Reaping(i, left - {r})]))
       case _ => None)
    case ReapReturns(p, ok) =>
      (match ScanOf(w, p)
       case Reaping(i, left) =>
         if !ok then Some(w.(scans := w.scans[p := Idle]))
         else if left == {} then Some(w.(scans := w.scans[p := Removing(i)]))
         else None
       case _ => None)
    case Remove(p) =>
      (match ScanOf(w, p)
       case Removing(i) =>
         Some(w.(slots := w.slots[i := SlotOf(w, i).(canary := None)], scans := w.scans[p := Idle]))
       case _ => None)
    case Abandon(p) => if ScanOf(w, p).Idle? then None else Some(w.(scans := w.scans[p := Idle]))
  }

  const START := World(0, map[], map[])

  /** The world after `acts` from `w`, or None when some action is not enabled. */
  function Exec(timeout: nat, w: World, acts: seq<Act>): Option<World>
    decreases |acts|
  {
    if acts == [] then Some(w)
    else
      match Exec(timeout, w, acts[..|acts| - 1])
      case None => None
      case Some(v) => Step(timeout, v, acts[|acts| - 1])
  }

  /** Every action of the run is taken in a world where `rule` allows it. */
  ghost predicate Obeys(timeout: nat, w: World, acts: seq<Act>, rule: (World, Act) -> bool)
    decreases |acts|
  {
    && Exec(timeout, w, acts).Some?
    && (acts != [] ==>
          var before := acts[..|acts| - 1];
          Obeys(timeout, w, before, rule) && rule(Exec(timeout, w, before).value, acts[|acts| - 1]))
  }
}
