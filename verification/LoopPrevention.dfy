/**
 Loop prevention among chained instances (src/proxy.rs): every instance appends its nonce to a
 header of the request it forwards, and rejects a request that already carries its nonce.
 */
module LoopPrevention {
  import opened Wrappers
  import opened Headers
  import opened Hex

  const LOOP := "httpjail-loop-prevention"
  const HOST := "host"

  /** What HeaderValue::from_str and to_str accept. */
  predicate Printable(s: string) {
    forall k :: 0 <= k < |s| ==> ' ' <= s[k] <= '~' || s[k] == '\t'
  }

  // ----- nonces

  /** `format!("{:x}", n)`. */
  function Nonce(n: nat): (s: string)
    ensures s != [] && Printable(s) && ',' !in s
  {
    if n < 16 then [HexDigit(n)] else Nonce(n / 16) + [HexDigit(n % 16)]
  }

  /** The number that a hexadecimal text stands for. */
  function ReadHex(s: string): nat {
    if s == [] then 0
    else 16 * ReadHex(s[..|s| - 1]) + (match HexValue(s[|s| - 1]) case Some(d) => d case None => 0)
  }

  lemma {:induction false} NonceReadsBack(n: nat)
    ensures ReadHex(Nonce(n)) == n
  {
    var s := Nonce(n);
    if n >= 16 {
      NonceReadsBack(n / 16);
      assert s[..|s| - 1] == Nonce(n / 16);
    } else {
      assert s[..0] == [];
    }
    assert HexValue(s[|s| - 1]) == Some(n % 16);
  }

  /** Distinct random numbers give distinct nonces. */
  lemma NonceInjective(a: nat, b: nat)
    requires Nonce(a) == Nonce(b)
    ensures a == b
  {
    NonceReadsBack(a);
    NonceReadsBack(b);
  }

  // ----- one instance

  /** The header check at the start of `handle_http_request`. */
  method DetectsLoop(headers: seq<Header>, ourNonce: string) returns (found: bool)
    requires Printable(ourNonce)
    ensures found <==> ourNonce in Values(headers, LOOP)
  {
    var values := Values(headers, LOOP);
    var i := 0;
    while i < |values|
      invariant 0 <= i <= |values|
      invariant ourNonce !in values[..i]
    {
      if Printable(values[i]) && values[i] == ourNonce {
        return true;
      }
      i := i + 1;
    }
    return false;
  }

  const CONNECTION := "proxy-connection"
  const AUTHORIZATION := "proxy-authorization"
  const AUTHENTICATE := "proxy-authenticate"

  predicate IsProxyHeader(n: string) {
    n == CONNECTION || n == AUTHORIZATION || n == AUTHENTICATE
  }

  /** What forwarding does to the headers: proxy headers gone, our nonce after all earlier ones, one
      Host that matches the target, everything else as it was. */
  ghost predicate Prepared(before: seq<Header>, after: seq<Header>, authority: Option<string>, nonce: string) {
    && (forall n :: IsProxyHeader(n) ==> Values(after, n) == [])
    && Values(after, LOOP) == Values(before, LOOP) + [nonce]
    && (authority.Some? ==> Values(after, HOST) == [if Printable(authority.value) then authority.value else "unknown"])
    && (forall n :: !IsProxyHeader(n) && n != LOOP && (n == HOST ==> authority.None?) ==>
          Values(after, n) == Values(before, n))
  }

  method RemoveProxyHeaders(map_: HeaderMap)
    modifies map_
    ensures forall n :: IsProxyHeader(n) ==> Values(map_.entries, n) == []
    ensures forall n :: !IsProxyHeader(n) ==> Values(map_.entries, n) == Values(old(map_.entries), n)
  {
    map_.Remove(CONNECTION);
    map_.Remove(AUTHORIZATION);
    map_.Remove(AUTHENTICATE);
  }

  /** `prepare_upstream_request` on the header map. */
  method PrepareUpstreamRequest(map_: HeaderMap, authority: Option<string>, loopNonce: string)
    requires Printable(loopNonce)
    modifies map_
    ensures Prepared(old(map_.entries), map_.entries, authority, loopNonce)
  {
    RemoveProxyHeaders(map_);
    map_.Append(LOOP, loopNonce);
    if authority.Some? {
      map_.Insert(HOST, if Printable(authority.value) then authority.value else "unknown");
    }
  }

  // ----- chains of instances

  /** One forwarding: the instance's random number, and the loop header's values as they arrived
      and as they left. */
  datatype Hop = Hop(instance: nat, arrived: seq<string>, left: seq<string>)

  predicate Forwards(h: Hop) {
    Nonce(h.instance) !in h.arrived && h.left == h.arrived + [Nonce(h.instance)]
  }

  /** A request that passes the loop check and is prepared for upstream makes such a hop. */
  lemma HandlerForwards(i: nat, before: seq<Header>, after: seq<Header>, authority: Option<string>)
    requires Nonce(i) !in Values(before, LOOP) && Prepared(before, after, authority, Nonce(i))
    ensures Forwards(Hop(i, Values(before, LOOP), Values(after, LOOP)))
  {
  }

  /** Any routing: between two instances anything may happen that keeps the loop header's values. */
  predicate Reaches(a: Hop, b: Hop) {
    forall k :: 0 <= k < |a.left| ==> a.left[k] in b.arrived
  }

  ghost predicate Chain(hops: seq<Hop>) {
    && (forall k :: 0 <= k < |hops| ==> Forwards(hops[k]))
    && (forall k :: 0 < k < |hops| ==> Reaches(hops[k - 1], hops[k]))
  }

  /** Repeated header lines joined into one, as an intermediary may do. */
  function Joined(values: seq<string>): string
    requires values != []
  {
    if |values| == 1 then values[0] else values[0] + ", " + Joined(values[1..])
  }

  /** What `Reaches` rules out: an instance that gets the loop header joined into one value finds its
      nonce exactly when that nonce is all there is.  Behind one other instance it forwards its own
      request again. */
  lemma JoinedHidesNonceIff(i: nat, values: seq<string>)
    requires values != []
    ensures Forwards(Hop(i, [Joined(values)], [Joined(values), Nonce(i)])) <==> values != [Nonce(i)]
  {
    if |values| > 1 {
      assert Joined(values)[|values[0]|] == ',';
    }
  }

  lemma PassesOn(a: Hop, b: Hop, v: string)
    requires Forwards(a) && Reaches(a, b) && (v in a.arrived || v == Nonce(a.instance))
    ensures v in b.arrived
  {
    if v in a.arrived {
      var k :| 0 <= k < |a.arrived| && a.arrived[k] == v;
      assert a.left[k] == v;
    } else {
      assert a.left[|a.arrived|] == v;
    }
  }

  lemma {:induction false} NoncesAccumulate(hops: seq<Hop>, j: nat, k: nat)
    requires Chain(hops) && j < k < |hops|
    ensures Nonce(hops[j].instance) in hops[k].arrived
    decreases k
  {
    var a, b := hops[k - 1], hops[k];
    assert Forwards(a) && Reaches(a, b);
    if j < k - 1 {
      NoncesAccumulate(hops, j, k - 1);
    }
    PassesOn(a, b, Nonce(hops[j].instance));
  }

  function Instances(hops: seq<Hop>): set<nat> {
    if hops == [] then {} else Instances(hops[..|hops| - 1]) + {hops[|hops| - 1].instance}
  }

  lemma {:induction false} OnlyInstancesListed(hops: seq<Hop>, i: nat) returns (k: nat)
    requires i in Instances(hops)
    ensures k < |hops| && hops[k].instance == i
  {
    var n := |hops| - 1;
    if hops[n].instance == i {
      k := n;
    } else {
      k := OnlyInstancesListed(hops[..n], i);
    }
  }

  lemma {:induction false} DistinctInstancesCount(hops: seq<Hop>)
    requires forall j, k :: 0 <= j < k < |hops| ==> hops[j].instance != hops[k].instance
    ensures |Instances(hops)| == |hops|
  {
    if hops != [] {
      var before, last := hops[..|hops| - 1], hops[|hops| - 1].instance;
      DistinctInstancesCount(before);
      if last in Instances(before) {
        var k := OnlyInstancesListed(before, last);
        assert false;
      }
    }
  }

  /** However requests are routed, each instance forwards a request at most once, so a chain of
      forwardings is no longer than the number of instances it runs through. */
  lemma ForwardedOncePerInstance(hops: seq<Hop>)
    requires Chain(hops)
    ensures forall j, k :: 0 <= j < k < |hops| ==> hops[j].instance != hops[k].instance
    ensures |Instances(hops)| == |hops|
  {
    forall j, k | 0 <= j < k < |hops| ensures hops[j].instance != hops[k].instance {
      NoncesAccumulate(hops, j, k);
      assert Forwards(hops[k]);
    }
    DistinctInstancesCount(hops);
  }

  lemma {:induction false} SubsetIsSmaller(a: set<nat>, b: set<nat>)
    requires a <= b
    ensures |a| <= |b|
  {
    if a != {} {
      var x :| x in a;
      SubsetIsSmaller(a - {x}, b - {x});
    }
  }

  /** With N instances in the world a request is forwarded at most N times. */
  lemma ForwardingTerminates(hops: seq<Hop>, world: set<nat>)
    requires Chain(hops) && forall k :: 0 <= k < |hops| ==> hops[k].instance in world
    ensures |hops| <= |world|
  {
    ForwardedOncePerInstance(hops);
    forall i | i in Instances(hops) ensures i in world {
      var k := OnlyInstancesListed(hops, i);
    }
    SubsetIsSmaller(Instances(hops), world);
  }
}
