/** The engine object of src/rules/v8_js.rs, as one worker sees it while nobody else moves. */
module V8Engine {
  import opened Wrappers
  import opened HotReload

  function Alone(hist: seq<Rev>, stored: Stored): World {
    World(hist, stored, None, map[])
  }

  /** Some run without a write leads from `w0` to `w`. */
  ghost predicate Leads(valid: string -> bool, w0: World, w: World) {
    w0.hist != [] && w.hist != [] && exists acts :: Quiet(acts) && Exec(valid, w0, acts) == Some(w)
  }

  /** One more step of the only worker. */
  lemma Next(valid: string -> bool, w0: World, w: World) returns (v: World)
    requires Leads(valid, w0, w) && Step(valid, w, Move(0)).Some?
    ensures Some(v) == Step(valid, w, Move(0)) && Leads(valid, w0, v)
  {
    var acts :| Quiet(acts) && Exec(valid, w0, acts) == Some(w);
    v := Step(valid, w, Move(0)).value;
    var more := acts + [Move(0)];
    assert more[..|acts|] == acts;
    assert Quiet(more) && Exec(valid, w0, more) == Some(v);
  }

  lemma Begin(valid: string -> bool, w0: World) returns (v: World)
    requires w0.hist != [] && PcOf(w0, 0).Idle?
    ensures Leads(valid, w0, v) && v == Goto(w0, 0, Begun)
  {
    assert Quiet([]) && Exec(valid, w0, []) == Some(w0);
    v := Next(valid, w0, w0);
  }

  class V8JsRuleEngine {
    var stored: Stored   // what the ArcSwap points to
    const valid: string -> bool

    constructor (valid: string -> bool, code: string, mtime: Option<int>, codeRev: nat, mtimeRev: nat)
      requires valid(code)
      ensures this.valid == valid && stored == Stored(code, mtime, codeRev, mtimeRev)
    {
      this.valid := valid;
      this.stored := Stored(code, mtime, codeRev, mtimeRev);
    }

    /** `evaluate` up to the script it runs, with the file at rest in the last state of `hist`: one of
        the runs of the transition system, in which only this worker moves. */
    method Evaluate(hist: seq<Rev>) returns (code: string, ghost w: World)
      requires hist != []
      modifies this
      ensures Leads(valid, Alone(hist, old(stored)), w)
      ensures w.hist == hist && w.stored == stored && PcOf(w, 0).Running? && PcOf(w, 0).code == code
      ensures w.lock.None?
    {
      ghost var w0 := Alone(hist, stored);
      w := Begin(valid, w0);
      w := Next(valid, w0, w);
      w := CheckAndReloadFile(hist, w0, w);
      code := stored.code;
      w := Next(valid, w0, w);
    }

    /** `check_and_reload_file`; the ghost run is at the point where the mtime has been read. */
    method CheckAndReloadFile(hist: seq<Rev>, ghost w0: World, ghost w: World) returns (ghost v: World)
      requires hist != [] && Leads(valid, w0, w) && w.hist == hist && w.stored == stored && w.lock.None?
      requires PcOf(w, 0) == Statted(hist[|hist| - 1].mtime, |hist| - 1)
      modifies this
      ensures Leads(valid, w0, v) && v.hist == hist && v.stored == stored && v.lock.None? && PcOf(v, 0).Loading?
    {
      var now := |hist| - 1;
      var currentMtime := hist[now].mtime;
      v := Next(valid, w0, w);
      if NeedsReload(currentMtime, stored) {
        v := Next(valid, w0, v);
        v := ReloadUnderLock(hist, currentMtime, w0, v);
        v := Next(valid, w0, v);
      }
    }

    /** The part of the slow path that runs under the lock. */
    method ReloadUnderLock(hist: seq<Rev>, mtime: Option<int>, ghost w0: World, ghost w: World) returns (ghost v: World)
      requires hist != [] && Leads(valid, w0, w) && w.hist == hist && w.stored == stored
      requires PcOf(w, 0) == Locked(mtime, |hist| - 1)
      modifies this
      ensures Leads(valid, w0, v) && v.hist == hist && v.stored == stored && PcOf(v, 0).Unlocking?
    {
      v := Next(valid, w0, w);
      if NeedsReload(mtime, stored) {
        v := ReadAndStore(hist, mtime, w0, v);
      }
    }

    method ReadAndStore(hist: seq<Rev>, mtime: Option<int>, ghost w0: World, ghost w: World) returns (ghost v: World)
      requires hist != [] && Leads(valid, w0, w) && w.hist == hist && w.stored == stored
      requires PcOf(w, 0) == Reading(mtime, |hist| - 1)
      modifies this
      ensures Leads(valid, w0, v) && v.hist == hist && v.stored == stored && PcOf(v, 0).Unlocking?
    {
      var now := |hist| - 1;
      v := Next(valid, w0, w);
      if hist[now].content.Some? && valid(hist[now].content.value) {
        v := Next(valid, w0, v);
        stored := Stored(hist[now].content.value, mtime, now, now);
      }
    }
  }
}
