/**
 The owner object of src/jail/managed.rs, its heartbeat thread and its scan loop, run with no other
 process in between.  Each method of the owner is shown to be one of the runs of the canary protocol.
 */
module ManagedJail {
  import opened Wrappers
  import opened Resources
  import opened Lease
  import LeaseRecovery

  // ----- the scan loop

  /** What one scan meets: the entries in order, the canaries whose metadata can be read, the jails for
      which cleanup_orphaned returns Ok, what it frees of the others, the canaries that can be removed. */
  datatype ScanPlan = ScanPlan(
    listing: seq<Id>,
    readable: set<Id>,
    frees: set<Id>,
    partly: map<Id, set<Resource>>,
    removable: set<Id>)

  /** The jails of a listing whose canary is older than the timeout. */
  function StaleIn(canaries: map<Id, int>, clock: int, timeout: nat, listing: seq<Id>): set<Id> {
    set i | i in listing && i in canaries && Age(clock, canaries[i]) > timeout
  }

  /** The entry ends the scan with an error. */
  predicate Blocks(canaries: map<Id, int>, clock: int, timeout: nat, plan: ScanPlan, i: Id) {
    i in canaries && (i !in plan.readable || (Age(clock, canaries[i]) > timeout && i !in plan.frees))
  }

  /** What a cleanup that fails leaves of jail `i`. */
  function PartlyFreed(resources: map<Id, set<Resource>>, plan: ScanPlan, i: Id): map<Id, set<Resource>> {
    if i in resources && i in plan.partly then resources[i := resources[i] - plan.partly[i]] else resources
  }

  /** The directory and the resources after a scan that got as far as entry `done`. */
  predicate Scanned(canaries: map<Id, int>, resources: map<Id, set<Resource>>, clock: int, timeout: nat,
                    plan: ScanPlan, done: nat, canaries': map<Id, int>, resources': map<Id, set<Resource>>)
  {
    && done <= |plan.listing|
    && (forall k :: 0 <= k < done ==> !Blocks(canaries, clock, timeout, plan, plan.listing[k]))
    && (done < |plan.listing| ==> Blocks(canaries, clock, timeout, plan, plan.listing[done]))
    && var stale := StaleIn(canaries, clock, timeout, plan.listing[..done]);
    && canaries' == canaries - stale * plan.removable
    && resources' == if done < |plan.listing| && plan.listing[done] in plan.readable
                     then PartlyFreed(resources - stale, plan, plan.listing[done]) else resources - stale
  }

  /** The loop's test is the protocol's: a scanner that has read this canary now begins to clean up exactly
      when the jail is among the stale ones. */
  lemma StaleAsInProtocol(timeout: nat, w: World, p: nat, i: Id, m: int, listing: seq<Id>, canaries: map<Id, int>)
    requires i in listing && i in canaries && canaries[i] == m && ScanOf(w, p) == Statted(i, m, w.clock)
    ensures var next := Step(timeout, w, Decide(p));
            next.Some? && (ScanOf(next.value, p).Reaping? <==> i in StaleIn(canaries, w.clock, timeout, listing))
  {
  }

  class CanaryDirectory {
    var canaries: map<Id, int>
    var resources: map<Id, set<Resource>>

    constructor (canaries: map<Id, int>, resources: map<Id, set<Resource>>)
      ensures this.canaries == canaries && this.resources == resources
    {
      this.canaries, this.resources := canaries, resources;
    }

    /** `cleanup_orphans` over one listing of the directory.  Up to the first entry that cannot be read
        or cleaned, exactly the stale jails lose their resources and then their canary; that entry
        keeps its canary, and nothing after it is looked at. */
    method CleanupOrphans(plan: ScanPlan, clock: int, timeout: nat) returns (done: nat, ok: bool)
      requires forall j, k :: 0 <= j < k < |plan.listing| ==> plan.listing[j] != plan.listing[k]
      modifies this
      ensures ok <==> done == |plan.listing|
      ensures Scanned(old(canaries), old(resources), clock, timeout, plan, done, canaries, resources)
      ensures !ok && plan.listing[done] in plan.readable && plan.listing[done] in old(resources) &&
              plan.listing[done] in plan.partly ==>
                plan.listing[done] in resources &&
                resources[plan.listing[done]] == old(resources)[plan.listing[done]] - plan.partly[plan.listing[done]]
    {
      done := 0;
      var listing := plan.listing;
      while done < |listing|
        invariant done <= |listing|
        invariant forall k :: 0 <= k < done ==> !Blocks(old(canaries), clock, timeout, plan, listing[k])
        invariant canaries == old(canaries) - StaleIn(old(canaries), clock, timeout, listing[..done]) * plan.removable
        invariant resources == old(resources) - StaleIn(old(canaries), clock, timeout, listing[..done])
      {
        var id := listing[done];
        ghost var stale := StaleIn(old(canaries), clock, timeout, listing[..done]);
        assert id !in stale;
        assert listing[..done + 1] == listing[..done] + [id];
        if id in canaries {
          if id !in plan.readable {
            return done, false;
          }
          if Age(clock, canaries[id]) > timeout {
            if id !in plan.frees {
              resources := PartlyFreed(resources, plan, id);
              return done, false;
            }
            resources := resources - {id};
            if id in plan.removable {
              canaries := canaries - {id};
            }
            assert StaleIn(old(canaries), clock, timeout, listing[..done + 1]) == stale + {id};
          } else {
            assert StaleIn(old(canaries), clock, timeout, listing[..done + 1]) == stale;
          }
        } else {
          assert StaleIn(old(canaries), clock, timeout, listing[..done + 1]) == stale;
        }
        done := done + 1;
      }
      return done, true;
    }
  }

  // ----- runs of one jail

  /** The actions of one jail's two threads, all at clock `c`. */
  function JailRun(c: int, s: Slot, acts: seq<JailAct>): Option<Slot>
    decreases |acts|
  {
    if acts == [] then Some(s)
    else
      match JailRun(c, s, acts[..|acts| - 1])
      case None => None
      case Some(t) => JailStep(c, t, acts[|acts| - 1])
  }

  lemma JailRunMore(c: int, s: Slot, acts: seq<JailAct>, a: JailAct)
    ensures JailRun(c, s, acts + [a]) ==
            match JailRun(c, s, acts) case None => None case Some(t) => JailStep(c, t, a)
  {
    assert (acts + [a])[..|acts|] == acts;
  }

  /** Some run leads from `s` to `t`. */
  ghost predicate Leads(c: int, s: Slot, t: Slot) {
    exists acts :: JailRun(c, s, acts) == Some(t)
  }

  lemma Nothing(c: int, s: Slot)
    ensures Leads(c, s, s)
  {
    assert JailRun(c, s, []) == Some(s);
  }

  /** One more action of a run that has reached `t`. */
  lemma Take(c: int, s: Slot, t: Slot, a: JailAct) returns (u: Slot)
    requires Leads(c, s, t) && JailStep(c, t, a).Some?
    ensures JailStep(c, t, a) == Some(u) && Leads(c, s, u)
  {
    var acts :| JailRun(c, s, acts) == Some(t);
    u := JailStep(c, t, a).value;
    JailRunMore(c, s, acts, a);
    assert JailRun(c, s, acts + [a]) == Some(u);
  }

  /** What the heartbeat thread does, and what the inner cleanup does. */
  predicate DuringCleanup(a: JailAct) {
    a.Free? || a.Load? || a.TestExists? || a.Stamp? || a.SetTimes? || a.WriteNew? || a.BeatFail? || a.Wake?
  }

  lemma CleaningStep(c: int, u: Slot, a: JailAct)
    requires u.main.Cleaning? && DuringCleanup(a) && JailStep(c, u, a).Some?
    ensures var v := JailStep(c, u, a).value;
            && v.main.Cleaning?
            && (forall r :: r in v.main.left <==> r in u.main.left && a != Free(r))
            && (forall r :: r in v.res <==> r in u.res && a != Free(r))
  {
  }

  lemma {:induction false} CleaningFrees(c: int, s: Slot, work: seq<JailAct>)
    requires s.main.Running? || s.main.CleanedUp?
    requires forall a :: a in work ==> DuringCleanup(a)
    requires JailRun(c, s, [BeginCleanup] + work).Some?
    ensures var u := JailRun(c, s, [BeginCleanup] + work).value;
            && u.main.Cleaning?
            && (forall r :: r in u.main.left <==> Free(r) !in work)
            && (forall r :: r in u.res <==> r in s.res && Free(r) !in work)
    decreases |work|
  {
    if work == [] {
      assert [BeginCleanup] + work == [] + [BeginCleanup];
      JailRunMore(c, s, [], BeginCleanup);
      AllResourcesListed({});
    } else {
      var before, a := work[..|work| - 1], work[|work| - 1];
      assert work == before + [a];
      assert [BeginCleanup] + work == [BeginCleanup] + before + [a];
      JailRunMore(c, s, [BeginCleanup] + before, a);
      assert a in work && forall b :: b in work <==> b in before || b == a;
      CleaningFrees(c, s, before);
      CleaningStep(c, JailRun(c, s, [BeginCleanup] + before).value, a);
    }
  }

  /** The exact condition under which an explicit cleanup keeps the lease, whatever the heartbeat does
      meanwhile: the inner cleanup must have freed all that the jail had.  An Ok from it means that; after
      an Err the canary goes all the same, and what is left is abandoned. */
  lemma ExplicitCleanupKeepsLeaseIff(c: int, s: Slot, work: seq<JailAct>, ok: bool)
    requires s.main.Running? || s.main.CleanedUp?
    requires forall a :: a in work ==> DuringCleanup(a)
    requires JailRun(c, s, [BeginCleanup] + work + [CleanupReturns(ok)] + [CleanupDelete]).Some?
    ensures var t := JailRun(c, s, [BeginCleanup] + work + [CleanupReturns(ok)] + [CleanupDelete]).value;
            && ((t.res != {} ==> t.canary.Some?) <==> forall r :: r in s.res ==> Free(r) in work)
            && (ok ==> forall r :: r in s.res ==> Free(r) in work)
            && (forall r :: r in t.res <==> r in s.res && Free(r) !in work)
            && (t.res != {} ==> t.abandoned)
  {
    JailRunMore(c, s, [BeginCleanup] + work + [CleanupReturns(ok)], CleanupDelete);
    JailRunMore(c, s, [BeginCleanup] + work, CleanupReturns(ok));
    CleaningFrees(c, s, work);
    var u := JailRun(c, s, [BeginCleanup] + work).value;
    var t := JailRun(c, s, [BeginCleanup] + work + [CleanupReturns(ok)] + [CleanupDelete]).value;
    assert t.res == u.res && t.canary.None?;
    assert ok ==> u.main.left == {};
    assert ok ==> forall r :: r in s.res ==> r !in u.main.left;
  }

  // ----- the owner

  /** How the file operations and the inner setup of one `setup` turn out. */
  datatype SetupEnv = SetupEnv(
    creatable: bool, acquires: seq<Resource>, innerOk: bool, deletable: bool, recreatable: bool)

  /** The canary and the resources after the jail's own part of `setup`: fresh on success, deleted after
      an Err of the inner setup, left behind when only the second write fails. */
  predicate AfterOwnSetup(canary: Option<int>, resources: set<Resource>, clock: int, env: SetupEnv,
                          canary': Option<int>, resources': set<Resource>)
  {
    if !env.creatable then canary' == canary && resources' == resources
    else
      && canary' == (if !env.innerOk && env.deletable then None else Some(clock))
      && forall r :: r in resources' <==> r in resources || r in env.acquires
  }

  /** How far the heartbeat thread is from its end once it has been told to stop. */
  function ToGo(b: Beat): nat {
    match b
    case BeatExists => 6
    case BeatStamp => 5
    case BeatSet(_) => 4
    case BeatCreate => 4
    case BeatSleep => 3
    case BeatLoop => 2
    case _ => 0
  }

  /** The thread's next move, when it has one; touching the file may fail. */
  function BeatAct(b: Beat, touchOk: bool): JailAct
    requires !LeaseRecovery.Silent(b)
  {
    if !touchOk && !b.BeatLoop? && !b.BeatSleep? then BeatFail
    else
      match b
      case BeatLoop => Load
      case BeatExists => TestExists
      case BeatStamp => Stamp
      case BeatSet(_) => SetTimes
      case BeatCreate => WriteNew
      case _ => Wake
  }

  lemma BeatMoves(c: int, s: Slot, touchOk: bool)
    requires !LeaseRecovery.Silent(s.beat)
    ensures var next := JailStep(c, s, BeatAct(s.beat, touchOk));
            && next.Some? && next.value.main == s.main
            && (s.stop ==> ToGo(next.value.beat) < ToGo(s.beat))
            && (s.stop ==> LeaseRecovery.Credit(next.value.beat) <= LeaseRecovery.Credit(s.beat))
            && (s.canary.Some? ==> next.value.canary.Some?)
            && (LeaseRecovery.Credit(s.beat) == 0 ==> next.value.canary == s.canary)
  {
  }

  /** One jail with its own file and its own operating-system resources; other jails are other objects. */
  class ManagedJail {
    var canary: Option<int>
    var resources: set<Resource>
    var stopHeartbeat: bool
    var beat: Beat          // where the heartbeat thread is, if there is one

    constructor ()
      ensures Is(EMPTY_SLOT)
    {
      canary, resources, stopHeartbeat, beat := None, {}, false, NoBeat;
    }

    /** The jail as the protocol sees it; its history fields have no counterpart here. */
    predicate Is(s: Slot)
      reads this
    {
      s.canary == canary && s.res == resources && s.stop == stopHeartbeat && s.beat == beat
    }

    method CreateCanary(clock: int, creatable: bool) returns (ok: bool)
      modifies this`canary
      ensures ok == creatable && canary == if ok then Some(clock) else old(canary)
    {
      if creatable {
        canary := Some(clock);
      }
      return creatable;
    }

    /** A missing file is no error. */
    method DeleteCanary(deletable: bool) returns (ok: bool)
      modifies this`canary
      ensures ok <==> canary.None?
      ensures canary == if deletable then None else old(canary)
    {
      if canary.None? {
        return true;
      }
      if deletable {
        canary := None;
      }
      return deletable;
    }

    /** The heartbeat thread's next move: the loop of `start_heartbeat` around `touch_file_mtime`, whose
        errors are only logged.  Told to stop, it comes closer to its end with every move. */
    method BeatMove(clock: int, touchOk: bool, ghost s: Slot, ghost from: Slot) returns (ghost t: Slot)
      requires Is(from) && Leads(clock, s, from) && !LeaseRecovery.Silent(beat)
      modifies this`canary, this`beat
      ensures Is(t) && Leads(clock, s, t) && Some(t) == JailStep(clock, from, BeatAct(old(beat), touchOk))
      ensures t.main == from.main
      ensures stopHeartbeat ==> ToGo(beat) < ToGo(old(beat))
      ensures old(canary).Some? ==> canary.Some?
      ensures LeaseRecovery.Credit(old(beat)) == 0 ==> canary == old(canary)
      ensures stopHeartbeat ==> LeaseRecovery.Credit(beat) <= LeaseRecovery.Credit(old(beat))
    {
      BeatMoves(clock, from, touchOk);
      t := Take(clock, s, from, BeatAct(from.beat, touchOk));
      if !touchOk && !beat.BeatLoop? && !beat.BeatSleep? {
        beat := BeatSleep;
        return;
      }
      match beat {
        case BeatLoop => beat := if stopHeartbeat then BeatDone else BeatExists;
        case BeatExists => beat := if canary.Some? then BeatStamp else BeatCreate;
        case BeatStamp => beat := BeatSet(clock);
        case BeatSet(stamp) => canary, beat := if canary.Some? then Some(stamp) else None, BeatSleep;
        case BeatCreate => canary, beat := Some(clock), BeatSleep;
        case BeatSleep => beat := BeatLoop;
      }
    }

    /** The inner setup up to its end: it acquires some resources. */
    method AcquireAll(clock: int, acquires: seq<Resource>, ghost s: Slot, ghost from: Slot)
      returns (ghost t: Slot)
      requires Is(from) && from.main.InSetup? && Leads(clock, s, from)
      modifies this`resources
      ensures Is(t) && t == from.(res := t.res) && Leads(clock, s, t)
      ensures forall r :: r in resources <==> r in old(resources) || r in acquires
    {
      t := from;
      var i := 0;
      while i < |acquires|
        invariant 0 <= i <= |acquires|
        invariant Is(t) && t == from.(res := t.res) && Leads(clock, s, t)
        invariant forall r :: r in resources <==> r in old(resources) || r in acquires[..i]
      {
        assert acquires[..i + 1] == acquires[..i] + [acquires[i]];
        resources := resources + {acquires[i]};
        t := Take(clock, s, t, Acquire(acquires[i]));
        i := i + 1;
      }
      assert acquires[..i] == acquires;
    }

    /** The inner cleanup: it frees some resources. */
    method FreeAll(clock: int, freed: seq<Resource>, ghost s: Slot, ghost from: Slot)
      returns (ghost t: Slot)
      requires Is(from) && (from.main == Cleaning(ALL_RESOURCES) || from.main == DropCleaning(ALL_RESOURCES))
      requires Leads(clock, s, from)
      modifies this`resources
      ensures Is(t) && t == from.(res := t.res, main := t.main) && Leads(clock, s, t)
      ensures from.main.Cleaning? ==> t.main.Cleaning?
      ensures from.main.DropCleaning? ==> t.main.DropCleaning?
      ensures forall r :: r in t.main.left <==> r !in freed
      ensures forall r :: r in resources <==> r in old(resources) && r !in freed
    {
      t := from;
      AllResourcesListed({});
      var i := 0;
      while i < |freed|
        invariant 0 <= i <= |freed|
        invariant Is(t) && t == from.(res := t.res, main := t.main) && Leads(clock, s, t)
        invariant from.main.Cleaning? ==> t.main.Cleaning?
        invariant from.main.DropCleaning? ==> t.main.DropCleaning?
        invariant forall r :: r in t.main.left <==> r !in freed[..i]
        invariant forall r :: r in resources <==> r in old(resources) && r !in freed[..i]
      {
        assert freed[..i + 1] == freed[..i] + [freed[i]];
        resources := resources - {freed[i]};
        t := Take(clock, s, t, Free(freed[i]));
        i := i + 1;
      }
      assert freed[..i] == freed;
    }

    /** `setup`: the scan of the other jails' canaries, and if that went through, this jail's own part. */
    method Setup(dir: CanaryDirectory, plan: ScanPlan, clock: int, timeout: nat, env: SetupEnv, ghost s: Slot)
      returns (ok: bool, done: nat, ghost t: Slot)
      requires forall j, k :: 0 <= j < k < |plan.listing| ==> plan.listing[j] != plan.listing[k]
      requires Is(s) && s.main.NotStarted? && !stopHeartbeat && beat.NoBeat?
      modifies this, dir
      ensures Scanned(old(dir.canaries), old(dir.resources), clock, timeout, plan, done, dir.canaries, dir.resources)
      ensures Leads(clock, s, t) && Is(t)
      ensures ok <==> done == |plan.listing| && env.creatable && env.innerOk && env.recreatable
      ensures t.main == if ok then Running else Aborted
      ensures done < |plan.listing| ==> canary == old(canary) && resources == old(resources)
      ensures done == |plan.listing| ==> AfterOwnSetup(old(canary), old(resources), clock, env, canary, resources)
    {
      var scanned;
      done, scanned := dir.CleanupOrphans(plan, clock, timeout);
      if !scanned {
        Nothing(clock, s);
        t := Take(clock, s, s, CreateFails);
        return false, done, t;
      }
      ok, t := SetupOwn(clock, env, s);
    }

    /** Create, the inner setup, then either delete or create again and start the heartbeat. */
    method SetupOwn(clock: int, env: SetupEnv, ghost s: Slot) returns (ok: bool, ghost t: Slot)
      requires Is(s) && s.main.NotStarted? && !stopHeartbeat && beat.NoBeat?
      modifies this
      ensures Leads(clock, s, t) && Is(t)
      ensures ok <==> env.creatable && env.innerOk && env.recreatable
      ensures t.main == if ok then Running else Aborted
      ensures AfterOwnSetup(old(canary), old(resources), clock, env, canary, resources)
    {
      t := s;
      Nothing(clock, s);
      ok := CreateCanary(clock, env.creatable);
      if !ok {
        t := Take(clock, s, t, CreateFails);
        return;
      }
      t := Take(clock, s, t, Create);
      t := AcquireAll(clock, env.acquires, s, t);
      if !env.innerOk {
        t := Take(clock, s, t, SetupErr);
        var deleted := DeleteCanary(env.deletable);
        t := Take(clock, s, t, if deleted then FailDelete else DeleteFails);
        return false, t;
      }
      ok := CreateCanary(clock, env.recreatable);
      if !ok {
        t := Take(clock, s, t, StartFail);
        return;
      }
      t := Take(clock, s, t, SetupOk);
      beat := BeatLoop;
      t := Take(clock, s, t, Spawn);
    }

    /** Explicit cleanup, of a running jail or once more: signal, inner cleanup, and then the canary goes
        whatever that returned.  The jail is left with a canary, or without resources, exactly when all
        that it had was freed or the file could not be deleted. */
    method Cleanup(clock: int, freed: seq<Resource>, innerOk: bool, deletable: bool, ghost s: Slot)
      returns (ok: bool, ghost t: Slot)
      requires Is(s) && (s.main.Running? || s.main.CleanedUp?)
      requires innerOk ==> forall r: Resource :: r in freed
      modifies this`canary, this`resources, this`stopHeartbeat
      ensures Leads(clock, s, t) && Is(t) && t.main == CleanedUp(innerOk)
      ensures stopHeartbeat && (ok <==> innerOk && canary.None?)
      ensures canary == if deletable then None else old(canary)
      ensures forall r :: r in resources <==> r in old(resources) && r !in freed
      ensures (resources != {} ==> canary.Some?) <==>
              (forall r :: r in old(resources) ==> r in freed) || (old(canary).Some? && !deletable)
    {
      t := s;
      Nothing(clock, s);
      stopHeartbeat := true;
      t := Take(clock, s, t, BeginCleanup);
      t := FreeAll(clock, freed, s, t);
      t := Take(clock, s, t, CleanupReturns(innerOk));
      ok := DeleteCanary(deletable);
      t := Take(clock, s, t, if ok then CleanupDelete else DeleteFails);
      return innerOk && ok, t;
    }

    /** `stop_heartbeat`: set the flag and join the thread, wherever it is.  It may touch the canary
        once more if it was past its test of the flag. */
    method StopHeartbeat(clock: int, touchOk: bool, ghost s: Slot) returns (ghost t: Slot)
      requires Is(s) && (s.main.Running? || s.main.CleanedUp? || s.main.Aborted?)
      modifies this`stopHeartbeat, this`beat, this`canary
      ensures Leads(clock, s, t) && Is(t) && t.main == DropCleaning(ALL_RESOURCES)
      ensures stopHeartbeat && LeaseRecovery.Silent(beat)
      ensures old(canary).Some? ==> canary.Some?
      ensures LeaseRecovery.Credit(old(beat)) == 0 ==> canary == old(canary)
    {
      t := s;
      Nothing(clock, s);
      stopHeartbeat := true;
      t := Take(clock, s, t, BeginDrop);
      while !LeaseRecovery.Silent(beat)
        invariant Is(t) && Leads(clock, s, t) && t.main.DropJoining? && stopHeartbeat
        invariant old(canary).Some? ==> canary.Some?
        invariant LeaseRecovery.Credit(beat) <= LeaseRecovery.Credit(old(beat))
        invariant LeaseRecovery.Credit(old(beat)) == 0 ==> canary == old(canary)
        decreases ToGo(beat)
      {
        t := BeatMove(clock, touchOk, s, t);
      }
      t := Take(clock, s, t, Join);
    }

    /** `Drop`: stop and join the heartbeat, inner cleanup, and the canary goes only if that returned Ok. */
    method Drop(clock: int, touchOk: bool, freed: seq<Resource>, innerOk: bool, deletable: bool, ghost s: Slot)
      returns (ghost t: Slot)
      requires Is(s) && (s.main.Running? || s.main.CleanedUp? || s.main.Aborted?)
      requires innerOk ==> forall r: Resource :: r in freed
      modifies this
      ensures Leads(clock, s, t) && Is(t) && t.main == Dropped(innerOk)
      ensures LeaseRecovery.Silent(beat)
      ensures innerOk ==> resources == {} && (deletable ==> canary.None?)
      ensures !innerOk && old(canary).Some? ==> canary.Some?
      ensures !(innerOk && deletable) && LeaseRecovery.Credit(old(beat)) == 0 ==> canary == old(canary)
      ensures forall r :: r in resources <==> r in old(resources) && r !in freed
    {
      t := StopHeartbeat(clock, touchOk, s);
      t := FreeAll(clock, freed, s, t);
      t := Take(clock, s, t, DropReturns(innerOk));
      if innerOk {
        var deleted := DeleteCanary(deletable);
        t := Take(clock, s, t, if deleted then DropDelete else DeleteFails);
      }
    }
  }
}
