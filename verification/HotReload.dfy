/**
 Hot reload of the JavaScript rules (src/rules/v8_js.rs): any number of workers run `evaluate`
 against one stored (code, mtime) pair while a writer changes the rule file at any moment.

 `hist` lists every state the file has been in.  The two revision numbers of the stored pair and
 of a worker's local values record which states they were read from; no step tests them.
 Compiling a script is the uninterpreted predicate `valid`.
 */
module HotReload {
  import opened Wrappers

  /** A state of the file: what metadata and read_to_string would return, None for their errors. */
  datatype Rev = Rev(mtime: Option<int>, content: Option<string>)

  /** The pair behind the ArcSwap. */
  datatype Stored = Stored(code: string, mtime: Option<int>, codeRev: nat, mtimeRev: nat)

  /** Where a worker is in `evaluate`; `m` is the mtime it read first, from revision `r`. */
  datatype Pc =
    | Idle
    | Begun
    | Statted(m: Option<int>, r: nat)    // fast path: compare with the stored mtime next
    | Waiting(m: Option<int>, r: nat)    // for the reload lock
    | Locked(m: Option<int>, r: nat)     // double check next
    | Reading(m: Option<int>, r: nat)    // read_to_string and validate next
    | Storing(m: Option<int>, r: nat, code: string, codeRev: nat)
    | Unlocking
    | Loading                            // load_js_code next
    | Running(code: string, codeRev: nat)

  datatype World = World(hist: seq<Rev>, stored: Stored, lock: Option<nat>, pcs: map<nat, Pc>)

  datatype Act = Write(rev: Rev) | Move(p: nat)

  function PcOf(w: World, p: nat): Pc {
    if p in w.pcs then w.pcs[p] else Idle
  }

  predicate HoldsLock(x: Pc) {
    x.Locked? || x.Reading? || x.Storing? || x.Unlocking?
  }

  function Current(w: World): Rev
    requires w.hist != []
  {
    w.hist[|w.hist| - 1]
  }

  function Goto(w: World, p: nat, x: Pc): World {
    w.(pcs := w.pcs[p := x])
  }

  predicate NeedsReload(m: Option<int>, stored: Stored) {
    m != stored.mtime && m.Some?
  }

  /** One atomic step: the writer's, or the next one of worker `p`, which only the lock can block. */
  function Step(valid: string -> bool, w: World, a: Act): Option<World>
    requires w.hist != []
    ensures Step(valid, w, a).Some? ==> Step(valid, w, a).value.hist != []
  {
    match a
    case Write(rev) => Some(w.(hist := w.hist + [rev]))
    case Move(p) =>
      var now := |w.hist| - 1;
      match PcOf(w, p)
      case Idle => Some(Goto(w, p, Begun))
      case Begun => Some(Goto(w, p, Statted(Current(w).mtime, now)))
      case Statted(m, r) => Some(Goto(w, p, if NeedsReload(m, w.stored) then Waiting(m, r) else Loading))
      case Waiting(m, r) => if w.lock.None? then Some(Goto(w.(lock := Some(p)), p, Locked(m, r))) else None
      case Locked(m, r) => Some(Goto(w, p, if NeedsReload(m, w.stored) then Reading(m, r) else Unlocking))
      case Reading(m, r) =>
        (match Current(w).content
         case Some(c) => Some(Goto(w, p, if valid(c) then Storing(m, r, c, now) else Unlocking))
         case None => Some(Goto(w, p, Unlocking)))
      case Storing(m, r, c, cr) => Some(Goto(w.(stored := Stored(c, m, cr, r)), p, Unlocking))
      case Unlocking => Some(Goto(w.(lock := None), p, Loading))
      case Loading => Some(Goto(w, p, Running(w.stored.code, w.stored.codeRev)))
      case Running(_, _) => Some(Goto(w, p, Idle))
  }

  function Exec(valid: string -> bool, w: World, acts: seq<Act>): (r: Option<World>)
    requires w.hist != []
    ensures r.Some? ==> r.value.hist != []
    decreases |acts|
  {
    if acts == [] then Some(w)
    else
      match Exec(valid, w, acts[..|acts| - 1])
      case None => None
      case Some(v) => Step(valid, v, acts[|acts| - 1])
  }

  /** Nobody writes the file. */
  predicate Quiet(acts: seq<Act>) {
    forall a: Act :: a in acts ==> a.Move?
  }

  /** The run is possible and ends with `p` about to execute the code it loaded. */
  predicate Runs(valid: string -> bool, w: World, acts: seq<Act>, p: nat)
    requires w.hist != []
  {
    Exec(valid, w, acts).Some? && PcOf(Exec(valid, w, acts).value, p).Running?
  }

  // ----- the invariant

  /** Distinct file states have distinct modification times. */
  ghost predicate DistinctMtimes(hist: seq<Rev>) {
    forall a, b :: 0 <= a < b < |hist| && hist[a].mtime.Some? ==> hist[a].mtime != hist[b].mtime
  }

  /** `code` is what the file held at revision `cr`, and it compiles. */
  predicate IsRevision(valid: string -> bool, hist: seq<Rev>, code: string, cr: nat) {
    cr < |hist| && hist[cr].content == Some(code) && valid(code)
  }

  predicate StoredInv(valid: string -> bool, hist: seq<Rev>, s: Stored) {
    && IsRevision(valid, hist, s.code, s.codeRev)
    && s.mtimeRev <= s.codeRev
    && (s.mtime.Some? ==> s.mtime == hist[s.mtimeRev].mtime)
  }

  predicate PcInv(valid: string -> bool, hist: seq<Rev>, storedRev: nat, x: Pc) {
    match x
    case Idle => true
    case Begun => true
    case Statted(m, r) => r < |hist| && m == hist[r].mtime
    case Waiting(m, r) => r < |hist| && m == hist[r].mtime && m.Some?
    case Locked(m, r) => r < |hist| && m == hist[r].mtime && m.Some?
    case Reading(m, r) => r < |hist| && m == hist[r].mtime && m.Some?
    case Storing(m, r, c, cr) => r <= cr && IsRevision(valid, hist, c, cr) && m == hist[r].mtime && storedRev <= cr
    case Unlocking => true
    case Loading => true
    case Running(c, cr) => IsRevision(valid, hist, c, cr) && cr <= storedRev
  }

  ghost predicate Inv(valid: string -> bool, w: World) {
    && w.hist != []
    && StoredInv(valid, w.hist, w.stored)
    && (forall p :: p in w.pcs ==> PcInv(valid, w.hist, w.stored.codeRev, w.pcs[p]))
    && (forall p :: p in w.pcs && HoldsLock(w.pcs[p]) ==> w.lock == Some(p))
  }

  /** The engine as `new_with_file` leaves it when code and mtime were read from one file state. */
  ghost predicate Initial(valid: string -> bool, w: World) {
    w.hist != [] && StoredInv(valid, w.hist, w.stored) && w.lock.None? && w.pcs == map[]
  }

  lemma LaterKeepsPcInv(valid: string -> bool, hist: seq<Rev>, hist': seq<Rev>, c: nat, c': nat, x: Pc)
    requires PcInv(valid, hist, c, x) && hist <= hist' && c <= c' && (x.Storing? ==> c == c')
    ensures PcInv(valid, hist', c', x)
  {
  }

  lemma MoverKeepsInv(valid: string -> bool, w: World, p: nat)
    requires w.hist != [] && StoredInv(valid, w.hist, w.stored)
    requires PcInv(valid, w.hist, w.stored.codeRev, PcOf(w, p)) && Step(valid, w, Move(p)).Some?
    ensures var w' := Step(valid, w, Move(p)).value;
            && w'.hist == w.hist && StoredInv(valid, w.hist, w'.stored)
            && PcInv(valid, w.hist, w'.stored.codeRev, PcOf(w', p))
            && w.stored.codeRev <= w'.stored.codeRev
            && (w'.stored != w.stored ==> PcOf(w, p).Storing?)
  {
  }

  lemma MoverKeepsLock(valid: string -> bool, w: World, p: nat)
    requires w.hist != [] && Step(valid, w, Move(p)).Some?
    requires forall q :: q in w.pcs && HoldsLock(w.pcs[q]) ==> w.lock == Some(q)
    ensures var w' := Step(valid, w, Move(p)).value;
            && (forall q :: q in w'.pcs && HoldsLock(w'.pcs[q]) ==> w'.lock == Some(q))
            && (forall q :: q != p ==> PcOf(w', q) == PcOf(w, q))
            && w'.pcs.Keys == w.pcs.Keys + {p}
  {
  }

  lemma StepKeepsInv(valid: string -> bool, w: World, a: Act)
    requires Inv(valid, w) && Step(valid, w, a).Some?
    ensures Inv(valid, Step(valid, w, a).value)
    ensures w.stored.codeRev <= Step(valid, w, a).value.stored.codeRev
    ensures w.hist <= Step(valid, w, a).value.hist
  {
    var w' := Step(valid, w, a).value;
    if a.Move? {
      MoverKeepsInv(valid, w, a.p);
      MoverKeepsLock(valid, w, a.p);
    }
    forall q | q in w'.pcs ensures PcInv(valid, w'.hist, w'.stored.codeRev, w'.pcs[q]) {
      if a.Write? || q != a.p {
        assert w'.pcs[q] == PcOf(w', q) == PcOf(w, q) == w.pcs[q];
        LaterKeepsPcInv(valid, w.hist, w'.hist, w.stored.codeRev, w'.stored.codeRev, w.pcs[q]);
      }
    }
  }

  /** In every run: version(stored mtime) <= version(stored code) <= version(file), everything that
      is stored or running compiled, and neither the stored version nor the history goes back. */
  lemma {:induction false} RunKeepsOrder(valid: string -> bool, w: World, acts: seq<Act>)
    requires Inv(valid, w) && Exec(valid, w, acts).Some?
    ensures var v := Exec(valid, w, acts).value;
            Inv(valid, v) && w.stored.codeRev <= v.stored.codeRev && w.hist <= v.hist
    decreases |acts|
  {
    if acts != [] {
      var before := acts[..|acts| - 1];
      RunKeepsOrder(valid, w, before);
      StepKeepsInv(valid, Exec(valid, w, before).value, acts[|acts| - 1]);
    }
  }

  lemma RevisionOfMtime(hist: seq<Rev>, m: Option<int>, a: nat, b: nat)
    requires DistinctMtimes(hist) && a < |hist| && b < |hist|
    requires m.Some? && m == hist[a].mtime == hist[b].mtime
    ensures a == b
  {
  }

  /** Reading the stored mtime is enough: when it equals the file's, the stored code is the file's. */
  lemma SameMtimeMeansSameCode(valid: string -> bool, w: World, acts: seq<Act>)
    requires Initial(valid, w) && Exec(valid, w, acts).Some?
    requires var v := Exec(valid, w, acts).value;
             DistinctMtimes(v.hist) && v.stored.mtime.Some? && v.stored.mtime == Current(v).mtime
    ensures var v := Exec(valid, w, acts).value; Current(v).content == Some(v.stored.code)
  {
    RunKeepsOrder(valid, w, acts);
    var v := Exec(valid, w, acts).value;
    RevisionOfMtime(v.hist, v.stored.mtime, v.stored.mtimeRev, |v.hist| - 1);
  }

  // ----- freshness

  predicate Usable(valid: string -> bool, rev: Rev) {
    rev.mtime.Some? && rev.content.Some? && valid(rev.content.value)
  }

  /** Every version from `base` on can be read and compiles. */
  ghost predicate UsableSince(valid: string -> bool, hist: seq<Rev>, base: nat) {
    base < |hist| && forall k :: base <= k < |hist| ==> Usable(valid, hist[k])
  }

  /** What a worker knows when its evaluation began with the file at revision `base`. */
  predicate Informed(stored: Stored, base: nat, x: Pc) {
    match x
    case Idle => true
    case Begun => true
    case Statted(_, r) => base <= r
    case Waiting(_, r) => base <= r
    case Locked(_, r) => base <= r
    case Reading(_, r) => base <= r
    case Storing(_, _, _, cr) => base <= cr
    case Unlocking => base <= stored.codeRev
    case Loading => base <= stored.codeRev
    case Running(_, cr) => base <= cr
  }

  lemma MoverKeepsInformed(valid: string -> bool, w: World, p: nat, base: nat)
    requires Inv(valid, w) && DistinctMtimes(w.hist) && UsableSince(valid, w.hist, base)
    requires Informed(w.stored, base, PcOf(w, p)) && Step(valid, w, Move(p)).Some?
    ensures Informed(Step(valid, w, Move(p)).value.stored, base, PcOf(Step(valid, w, Move(p)).value, p))
  {
    var x := PcOf(w, p);
    assert PcInv(valid, w.hist, w.stored.codeRev, x);
    assert Usable(valid, Current(w));
    if (x.Statted? || x.Locked?) && !NeedsReload(x.m, w.stored) {
      assert Usable(valid, w.hist[x.r]);
      RevisionOfMtime(w.hist, w.stored.mtime, w.stored.mtimeRev, x.r);
    }
  }

  lemma StepKeepsInformed(valid: string -> bool, w: World, a: Act, p: nat, base: nat)
    requires Inv(valid, w) && DistinctMtimes(w.hist) && UsableSince(valid, w.hist, base)
    requires Informed(w.stored, base, PcOf(w, p)) && Step(valid, w, a).Some?
    ensures Informed(Step(valid, w, a).value.stored, base, PcOf(Step(valid, w, a).value, p))
  {
    if a == Move(p) {
      MoverKeepsInformed(valid, w, p, base);
    } else if a.Move? {
      MoverKeepsInv(valid, w, a.p) by { assert PcInv(valid, w.hist, w.stored.codeRev, PcOf(w, a.p)); }
      MoverKeepsLock(valid, w, a.p);
    }
  }

  lemma {:induction false} RunKeepsInformed(valid: string -> bool, w: World, acts: seq<Act>, p: nat, base: nat)
    requires Inv(valid, w) && base < |w.hist| && Informed(w.stored, base, PcOf(w, p)) && Exec(valid, w, acts).Some?
    requires DistinctMtimes(Exec(valid, w, acts).value.hist)
    requires UsableSince(valid, Exec(valid, w, acts).value.hist, base)
    ensures var v := Exec(valid, w, acts).value; Informed(v.stored, base, PcOf(v, p))
    decreases |acts|
  {
    if acts != [] {
      var before, a := acts[..|acts| - 1], acts[|acts| - 1];
      var u := Exec(valid, w, before).value;
      RunKeepsOrder(valid, w, before);
      StepKeepsInv(valid, u, a);
      RunKeepsInformed(valid, w, before, p, base);
      StepKeepsInformed(valid, u, a, p, base);
    }
  }

  lemma LaterEvaluation(valid: string -> bool, b: World, acts: seq<Act>, p: nat)
    requires Inv(valid, b) && PcOf(b, p).Begun? && Runs(valid, b, acts, p)
    requires DistinctMtimes(Exec(valid, b, acts).value.hist)
    requires UsableSince(valid, Exec(valid, b, acts).value.hist, |b.hist| - 1)
    ensures var v := Exec(valid, b, acts).value;
            && |b.hist| - 1 <= PcOf(v, p).codeRev < |v.hist|
            && Some(PcOf(v, p).code) == v.hist[PcOf(v, p).codeRev].content
  {
    RunKeepsOrder(valid, b, acts);
    RunKeepsInformed(valid, b, acts, p, |b.hist| - 1);
    var v := Exec(valid, b, acts).value;
    assert PcInv(valid, v.hist, v.stored.codeRev, PcOf(v, p));
  }

  /** An evaluation never runs a version older than the file's when it began, as long as every
      version since is valid: whatever stale mtimes the other workers hold or store, and in
      whatever order they get the lock. */
  lemma EvaluationIsNeverStale(valid: string -> bool, w: World, past: seq<Act>, b: World, acts: seq<Act>, p: nat)
    requires Initial(valid, w) && Exec(valid, w, past) == Some(b)
    requires PcOf(b, p).Begun? && Runs(valid, b, acts, p)
    requires DistinctMtimes(Exec(valid, b, acts).value.hist)
    requires UsableSince(valid, Exec(valid, b, acts).value.hist, |b.hist| - 1)
    ensures var v := Exec(valid, b, acts).value;
            exists k :: |b.hist| - 1 <= k < |v.hist| && v.hist[k].content == Some(PcOf(v, p).code)
  {
    RunKeepsOrder(valid, w, past);
    LaterEvaluation(valid, b, acts, p);
  }

  lemma {:induction false} QuietKeepsHistory(valid: string -> bool, w: World, acts: seq<Act>)
    requires w.hist != [] && Exec(valid, w, acts).Some? && Quiet(acts)
    ensures Exec(valid, w, acts).value.hist == w.hist
    decreases |acts|
  {
    if acts != [] {
      var before := acts[..|acts| - 1];
      assert acts[|acts| - 1] in acts && forall a :: a in before ==> a in acts;
      QuietKeepsHistory(valid, w, before);
    }
  }

  lemma QuietEvaluation(valid: string -> bool, b: World, acts: seq<Act>, p: nat)
    requires Inv(valid, b) && DistinctMtimes(b.hist) && Usable(valid, Current(b)) && PcOf(b, p).Begun?
    requires Quiet(acts) && Runs(valid, b, acts, p)
    ensures Some(PcOf(Exec(valid, b, acts).value, p).code) == Current(b).content
  {
    QuietKeepsHistory(valid, b, acts);
    LaterEvaluation(valid, b, acts, p);
  }

  /** With no write before it loads, the evaluation runs exactly the file's version. */
  lemma EvaluationRunsCurrentRules(valid: string -> bool, w: World, past: seq<Act>, b: World, acts: seq<Act>, p: nat)
    requires Initial(valid, w) && Exec(valid, w, past) == Some(b)
    requires DistinctMtimes(b.hist) && Usable(valid, Current(b)) && PcOf(b, p).Begun?
    requires Quiet(acts) && Runs(valid, b, acts, p)
    ensures Some(PcOf(Exec(valid, b, acts).value, p).code) == Current(b).content
  {
    RunKeepsOrder(valid, w, past);
    QuietEvaluation(valid, b, acts, p);
  }

  // ----- invalid versions

  ghost predicate NobodyStoring(w: World) {
    forall p :: p in w.pcs ==> !w.pcs[p].Storing?
  }

  lemma {:induction false} HistoryGrows(valid: string -> bool, w: World, acts: seq<Act>)
    requires w.hist != [] && Exec(valid, w, acts).Some?
    ensures w.hist <= Exec(valid, w, acts).value.hist
    decreases |acts|
  {
    if acts != [] {
      HistoryGrows(valid, w, acts[..|acts| - 1]);
    }
  }

  /** While every version of the file fails to read or to compile, the stored rules stay in force. */
  lemma {:induction false} InvalidVersionsKeepRules(valid: string -> bool, w: World, acts: seq<Act>)
    requires w.hist != [] && NobodyStoring(w) && Exec(valid, w, acts).Some?
    requires var h := Exec(valid, w, acts).value.hist;
             forall k :: |w.hist| - 1 <= k < |h| && h[k].content.Some? ==> !valid(h[k].content.value)
    ensures var v := Exec(valid, w, acts).value;
            v.stored == w.stored && NobodyStoring(v) && w.hist <= v.hist
    decreases |acts|
  {
    if acts != [] {
      var before, a := acts[..|acts| - 1], acts[|acts| - 1];
      var u := Exec(valid, w, before).value;
      var v := Exec(valid, w, acts).value;
      assert u.hist <= v.hist;
      HistoryGrows(valid, w, before);
      InvalidVersionsKeepRules(valid, w, before);
    }
  }

  // ----- the constructor reads code and mtime separately

  /** The file is at rest, and the engine starts with any compiling code and any mtime. */
  predicate AnyStart(valid: string -> bool, w: World) {
    w.hist != [] && Usable(valid, Current(w)) && w.lock.None? && w.pcs == map[]
  }

  /** Every evaluation before the next write runs the file's content. */
  ghost predicate AlwaysCurrent(valid: string -> bool, w: World)
    requires w.hist != []
  {
    forall acts, p :: Quiet(acts) && Runs(valid, w, acts, p) ==>
      Some(PcOf(Exec(valid, w, acts).value, p).code) == Current(w).content
  }

  /** By value, what an engine whose starting pair does not hide the file keeps while the file rests. */
  predicate PcCurrent(w: World, x: Pc)
    requires w.hist != []
  {
    match x
    case Statted(m, _) => m == Current(w).mtime
    case Waiting(m, _) => m == Current(w).mtime
    case Locked(m, _) => m == Current(w).mtime
    case Reading(m, _) => m == Current(w).mtime
    case Storing(m, _, c, _) => m == Current(w).mtime && Some(c) == Current(w).content
    case Unlocking => Some(w.stored.code) == Current(w).content
    case Loading => Some(w.stored.code) == Current(w).content
    case Running(c, _) => Some(c) == Current(w).content
    case _ => true
  }

  ghost predicate Matching(w: World)
    requires w.hist != []
  {
    && (w.stored.mtime == Current(w).mtime ==> Some(w.stored.code) == Current(w).content)
    && (forall p :: p in w.pcs ==> PcCurrent(w, w.pcs[p]))
  }

  lemma StepKeepsMatching(valid: string -> bool, w: World, p: nat)
    requires w.hist != [] && Matching(w) && Usable(valid, Current(w)) && Step(valid, w, Move(p)).Some?
    ensures var v := Step(valid, w, Move(p)).value; v.hist == w.hist && Matching(v)
  {
    assert PcOf(w, p).Idle? || PcCurrent(w, w.pcs[p]);
  }

  lemma {:induction false} QuietRunKeepsMatching(valid: string -> bool, w: World, acts: seq<Act>)
    requires w.hist != [] && Matching(w) && Usable(valid, Current(w))
    requires Exec(valid, w, acts).Some? && Quiet(acts)
    ensures var v := Exec(valid, w, acts).value; v.hist == w.hist && Matching(v)
    decreases |acts|
  {
    if acts != [] {
      var before, a := acts[..|acts| - 1], acts[|acts| - 1];
      assert a in acts && forall b :: b in before ==> b in acts;
      QuietRunKeepsMatching(valid, w, before);
      StepKeepsMatching(valid, Exec(valid, w, before).value, a.p);
    }
  }

  /** Exactly when a starting pair is safe: its mtime must differ from the file's, or its code must
      be the file's.  Code read before a change and mtime read after it break this, and the engine
      then runs the old rules for as long as the file rests. */
  lemma StartingPairIsCurrentIff(valid: string -> bool, w: World)
    requires AnyStart(valid, w)
    ensures AlwaysCurrent(valid, w) <==>
            (w.stored.mtime == Current(w).mtime ==> Some(w.stored.code) == Current(w).content)
  {
    if w.stored.mtime == Current(w).mtime ==> Some(w.stored.code) == Current(w).content {
      forall acts, p | Quiet(acts) && Runs(valid, w, acts, p)
        ensures Some(PcOf(Exec(valid, w, acts).value, p).code) == Current(w).content
      {
        QuietRunKeepsMatching(valid, w, acts);
        var v := Exec(valid, w, acts).value;
        assert PcCurrent(v, v.pcs[p]);
      }
    } else {
      var m: Act := Move(0);
      var w1 := Goto(w, 0, Begun);
      var w2 := Goto(w1, 0, Statted(Current(w).mtime, |w.hist| - 1));
      var w3 := Goto(w2, 0, Loading);
      var w4 := Goto(w3, 0, Running(w.stored.code, w.stored.codeRev));
      assert Exec(valid, w, [m]) == Some(w1) by { assert [m][..0] == []; }
      assert Exec(valid, w, [m, m]) == Some(w2) by { assert [m, m][..1] == [m]; }
      assert Exec(valid, w, [m, m, m]) == Some(w3) by { assert [m, m, m][..2] == [m, m]; }
      assert Exec(valid, w, [m, m, m, m]) == Some(w4) by { assert [m, m, m, m][..3] == [m, m, m]; }
      assert Quiet([m, m, m, m]) && Runs(valid, w, [m, m, m, m], 0);
    }
  }

  // ----- the lock, and progress

  /** The lock is held by exactly one worker, which is somewhere in the part under it, or by nobody. */
  ghost predicate LockInv(w: World) {
    && (forall p: nat :: HoldsLock(PcOf(w, p)) ==> w.lock == Some(p))
    && (w.lock.Some? ==> HoldsLock(PcOf(w, w.lock.value)))
  }

  lemma StepKeepsLockInv(valid: string -> bool, w: World, a: Act)
    requires w.hist != [] && LockInv(w) && Step(valid, w, a).Some?
    ensures LockInv(Step(valid, w, a).value)
  {
    var v := Step(valid, w, a).value;
    if a.Move? {
      forall q: nat ensures HoldsLock(PcOf(v, q)) ==> v.lock == Some(q) {
        assert q != a.p ==> PcOf(v, q) == PcOf(w, q);
        assert HoldsLock(PcOf(w, q)) ==> w.lock == Some(q);
      }
      assert HoldsLock(PcOf(w, a.p)) ==> w.lock == Some(a.p);
    } else {
      forall q: nat ensures PcOf(v, q) == PcOf(w, q) {
      }
    }
  }

  /** In every run, the lock is held exactly by the worker that is under it: it is always let go. */
  lemma {:induction false} LockIsHeldByItsWorker(valid: string -> bool, w: World, acts: seq<Act>)
    requires Initial(valid, w) && Exec(valid, w, acts).Some?
    ensures LockInv(Exec(valid, w, acts).value)
    decreases |acts|
  {
    if acts != [] {
      var before := acts[..|acts| - 1];
      LockIsHeldByItsWorker(valid, w, before);
      StepKeepsLockInv(valid, Exec(valid, w, before).value, acts[|acts| - 1]);
    }
  }

  /** How many moves an evaluation is from executing, at most. */
  function Remaining(x: Pc): nat {
    match x
    case Begun => 8
    case Statted(_, _) => 7
    case Waiting(_, _) => 6
    case Locked(_, _) => 5
    case Reading(_, _) => 4
    case Storing(_, _, _, _) => 3
    case Unlocking => 2
    case Loading => 1
    case _ => 0
  }

  /** Some continuation without a write leads from `w` to `v`. */
  ghost predicate QuietlyTo(valid: string -> bool, w: World, v: World) {
    w.hist != [] && exists acts :: Quiet(acts) && Exec(valid, w, acts) == Some(v)
  }

  lemma QuietlyNowhere(valid: string -> bool, w: World)
    requires w.hist != []
    ensures QuietlyTo(valid, w, w)
  {
    assert Quiet([]) && Exec(valid, w, []) == Some(w);
  }

  lemma QuietlyOn(valid: string -> bool, w: World, v: World, p: nat)
    requires QuietlyTo(valid, w, v) && v.hist != [] && Step(valid, v, Move(p)).Some?
    ensures QuietlyTo(valid, w, Step(valid, v, Move(p)).value)
  {
    var acts :| Quiet(acts) && Exec(valid, w, acts) == Some(v);
    var more := acts + [Move(p)];
    assert more[..|acts|] == acts;
    assert Quiet(more) && Exec(valid, w, more) == Step(valid, v, Move(p));
  }

  /** Whoever holds the lock can let it go by itself; nobody else moves meanwhile. */
  lemma {:induction false} LockComesFree(valid: string -> bool, w: World, v: World) returns (u: World)
    requires QuietlyTo(valid, w, v) && v.hist != [] && LockInv(v)
    ensures QuietlyTo(valid, w, u) && u.hist != [] && LockInv(u) && u.lock.None?
    ensures forall q: nat :: v.lock != Some(q) ==> PcOf(u, q) == PcOf(v, q)
    decreases if v.lock.Some? then Remaining(PcOf(v, v.lock.value)) else 0
  {
    if v.lock.None? {
      u := v;
    } else {
      var p := v.lock.value;
      var next := Step(valid, v, Move(p)).value;
      QuietlyOn(valid, w, v, p);
      StepKeepsLockInv(valid, v, Move(p));
      u := LockComesFree(valid, w, next);
    }
  }

  /** With the lock free, or its own, a worker comes to its execution by itself. */
  lemma {:induction false} GetsThrough(valid: string -> bool, w: World, v: World, p: nat) returns (u: World)
    requires QuietlyTo(valid, w, v) && v.hist != [] && LockInv(v) && (v.lock.None? || v.lock == Some(p))
    requires !PcOf(v, p).Idle?
    ensures QuietlyTo(valid, w, u) && PcOf(u, p).Running?
    decreases Remaining(PcOf(v, p))
  {
    if PcOf(v, p).Running? {
      u := v;
    } else {
      QuietlyOn(valid, w, v, p);
      StepKeepsLockInv(valid, v, Move(p));
      u := GetsThrough(valid, w, Step(valid, v, Move(p)).value, p);
    }
  }

  /** After any run, every evaluation that has begun can come to its execution without another write:
      no reload blocks the others for good. */
  lemma EvaluationCanFinish(valid: string -> bool, w: World, acts: seq<Act>, p: nat)
    requires Initial(valid, w) && Exec(valid, w, acts).Some? && !PcOf(Exec(valid, w, acts).value, p).Idle?
    ensures exists v :: QuietlyTo(valid, Exec(valid, w, acts).value, v) && PcOf(v, p).Running?
  {
    var b := Exec(valid, w, acts).value;
    LockIsHeldByItsWorker(valid, w, acts);
    QuietlyNowhere(valid, b);
    if b.lock == Some(p) {
      var v := GetsThrough(valid, b, b, p);
    } else {
      var u := LockComesFree(valid, b, b);
      var v := GetsThrough(valid, b, u, p);
    }
  }

  /** After any run, a worker that is executing or idle can begin another evaluation at once. */
  lemma WorkerCanBeginAgain(valid: string -> bool, w: World, acts: seq<Act>, p: nat)
    requires Initial(valid, w) && Exec(valid, w, acts).Some?
    requires PcOf(Exec(valid, w, acts).value, p).Idle? || PcOf(Exec(valid, w, acts).value, p).Running?
    ensures exists v :: QuietlyTo(valid, Exec(valid, w, acts).value, v) && PcOf(v, p).Begun?
  {
    var b := Exec(valid, w, acts).value;
    QuietlyNowhere(valid, b);
    QuietlyOn(valid, b, b, p);
    var u := Step(valid, b, Move(p)).value;
    if PcOf(b, p).Running? {
      QuietlyOn(valid, b, u, p);
      assert PcOf(Step(valid, u, Move(p)).value, p).Begun?;
    }
  }

  /** An evaluation that finds the stored mtime in the file, or cannot read one, executes the stored code
      three moves later, without the lock, whoever holds it, and without storing anything. */
  lemma UnchangedFileNeedsNoLock(valid: string -> bool, w: World, p: nat)
    requires w.hist != [] && PcOf(w, p).Begun? && (Current(w).mtime == w.stored.mtime || Current(w).mtime.None?)
    ensures Exec(valid, w, [Move(p), Move(p), Move(p)]).Some?
    ensures var v := Exec(valid, w, [Move(p), Move(p), Move(p)]).value;
            && v.stored == w.stored && v.lock == w.lock
            && PcOf(v, p) == Running(w.stored.code, w.stored.codeRev)
  {
    var m: Act := Move(p);
    assert [m][..0] == [] && [m, m][..1] == [m] && [m, m, m][..2] == [m, m];
    var w1 := Step(valid, w, m).value;
    var w2 := Step(valid, w1, m).value;
    assert Exec(valid, w, [m]) == Some(w1);
    assert Exec(valid, w, [m, m]) == Some(w2);
  }

  /** A worker that got the lock after another has stored the same mtime does not read the file again. */
  lemma DoubleCheckSavesReload(valid: string -> bool, w: World, p: nat)
    requires w.hist != [] && PcOf(w, p).Locked? && PcOf(w, p).m == w.stored.mtime
    ensures Exec(valid, w, [Move(p), Move(p), Move(p)]).Some?
    ensures var v := Exec(valid, w, [Move(p), Move(p), Move(p)]).value;
            && v.stored == w.stored && v.lock.None?
            && PcOf(v, p) == Running(w.stored.code, w.stored.codeRev)
  {
    var m: Act := Move(p);
    assert [m][..0] == [] && [m, m][..1] == [m] && [m, m, m][..2] == [m, m];
    var w1 := Step(valid, w, m).value;
    var w2 := Step(valid, w1, m).value;
    assert Exec(valid, w, [m]) == Some(w1);
    assert Exec(valid, w, [m, m]) == Some(w2);
  }
}
