/** How runs of the canary protocol compose. */
module LeaseRuns {
  import opened Wrappers
  import opened Lease

  lemma {:induction false} ExecConcat(timeout: nat, w: World, xs: seq<Act>, ys: seq<Act>)
    requires Exec(timeout, w, xs).Some?
    ensures Exec(timeout, w, xs + ys) == Exec(timeout, Exec(timeout, w, xs).value, ys)
    decreases |ys|
  {
    if ys == [] {
      assert xs + ys == xs;
    } else {
      var zs := ys[..|ys| - 1];
      ExecConcat(timeout, w, xs, zs);
      assert (xs + ys)[..|xs + ys| - 1] == xs + zs;
    }
  }

  lemma {:induction false} ObeysConcat(timeout: nat, w: World, xs: seq<Act>, ys: seq<Act>, rule: (World, Act) -> bool)
    requires Obeys(timeout, w, xs, rule)
    requires Obeys(timeout, Exec(timeout, w, xs).value, ys, rule)
    ensures Obeys(timeout, w, xs + ys, rule)
    decreases |ys|
  {
    if ys == [] {
      assert xs + ys == xs;
    } else {
      var zs := ys[..|ys| - 1];
      ObeysConcat(timeout, w, xs, zs, rule);
      ExecConcat(timeout, w, xs, zs);
      ExecConcat(timeout, w, xs, ys);
      assert (xs + ys)[..|xs + ys| - 1] == xs + zs;
    }
  }

  /** A run followed by one more action. */
  lemma ObeysOneMore(timeout: nat, w: World, acts: seq<Act>, a: Act, v: World, rule: (World, Act) -> bool)
    requires Obeys(timeout, w, acts, rule)
    requires var u := Exec(timeout, w, acts).value; Step(timeout, u, a) == Some(v) && rule(u, a)
    ensures Obeys(timeout, w, acts + [a], rule) && Exec(timeout, w, acts + [a]) == Some(v)
  {
    assert (acts + [a])[..|acts|] == acts;
  }

  /** A run from `w` to `u` and one from there to `v`. */
  lemma Continue(timeout: nat, w: World, xs: seq<Act>, u: World, ys: seq<Act>, v: World, rule: (World, Act) -> bool)
    requires Obeys(timeout, w, xs, rule) && Exec(timeout, w, xs) == Some(u)
    requires Obeys(timeout, u, ys, rule) && Exec(timeout, u, ys) == Some(v)
    ensures Obeys(timeout, w, xs + ys, rule) && Exec(timeout, w, xs + ys) == Some(v)
  {
    ObeysConcat(timeout, w, xs, ys, rule);
    ExecConcat(timeout, w, xs, ys);
  }

  /** A run given by the worlds it passes through. */
  lemma {:induction false} ObeysFirst(timeout: nat, acts: seq<Act>, ws: seq<World>, rule: (World, Act) -> bool, n: nat)
    requires n <= |acts| && |ws| == |acts| + 1
    requires forall k :: 0 <= k < |acts| ==> Step(timeout, ws[k], acts[k]) == Some(ws[k + 1])
    requires forall k :: 0 <= k < |acts| ==> rule(ws[k], acts[k])
    ensures Obeys(timeout, ws[0], acts[..n], rule) && Exec(timeout, ws[0], acts[..n]) == Some(ws[n])
    decreases n
  {
    if n > 0 {
      ObeysFirst(timeout, acts, ws, rule, n - 1);
      ObeysOneMore(timeout, ws[0], acts[..n - 1], acts[n - 1], ws[n], rule);
      assert acts[..n] == acts[..n - 1] + [acts[n - 1]];
    }
  }

  lemma ObeysSteps(timeout: nat, acts: seq<Act>, ws: seq<World>, rule: (World, Act) -> bool)
    requires |ws| == |acts| + 1
    requires forall k :: 0 <= k < |acts| ==> Step(timeout, ws[k], acts[k]) == Some(ws[k + 1])
    requires forall k :: 0 <= k < |acts| ==> rule(ws[k], acts[k])
    ensures Obeys(timeout, ws[0], acts, rule) && Exec(timeout, ws[0], acts) == Some(ws[|acts|])
  {
    ObeysFirst(timeout, acts, ws, rule, |acts|);
    assert acts[..|acts|] == acts;
  }

  lemma ExecSteps(timeout: nat, acts: seq<Act>, ws: seq<World>)
    requires |ws| == |acts| + 1
    requires forall k :: 0 <= k < |acts| ==> Step(timeout, ws[k], acts[k]) == Some(ws[k + 1])
    ensures Exec(timeout, ws[0], acts) == Some(ws[|acts|])
  {
    ObeysSteps(timeout, acts, ws, (w, a) => true);
  }

  /** A run that obeys one rule obeys every weaker one. */
  lemma {:induction false} ObeysWeaker(timeout: nat, w: World, acts: seq<Act>, rule: (World, Act) -> bool,
                                       weaker: (World, Act) -> bool)
    requires Obeys(timeout, w, acts, rule)
    requires forall v, a :: rule(v, a) ==> weaker(v, a)
    ensures Obeys(timeout, w, acts, weaker)
    decreases |acts|
  {
    if acts != [] {
      ObeysWeaker(timeout, w, acts[..|acts| - 1], rule, weaker);
    }
  }

  lemma {:induction false} ExecFirst(timeout: nat, w: World, a: Act, acts: seq<Act>)
    requires Step(timeout, w, a).Some?
    ensures Exec(timeout, w, [a] + acts) == Exec(timeout, Step(timeout, w, a).value, acts)
  {
    assert [a][..0] == [];
    ExecConcat(timeout, w, [a], acts);
  }

  /** A run that is possible is possible up to each of its points. */
  lemma {:induction false} ExecPrefix(timeout: nat, w: World, xs: seq<Act>, ys: seq<Act>)
    requires Exec(timeout, w, xs + ys).Some?
    ensures Exec(timeout, w, xs).Some?
    ensures Exec(timeout, Exec(timeout, w, xs).value, ys) == Exec(timeout, w, xs + ys)
    decreases |ys|
  {
    if ys == [] {
      assert xs + ys == xs;
    } else {
      assert (xs + ys)[..|xs + ys| - 1] == xs + ys[..|ys| - 1];
      ExecPrefix(timeout, w, xs, ys[..|ys| - 1]);
    }
  }
}
