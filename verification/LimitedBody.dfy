/**
 The body wrapper of src/limited_body.rs.  The inner body is a script of what its polls return;
 a script that has run out is a body that has ended.
 */
module LimitedBody {
  import opened Wrappers

  datatype Frame = Data(bytes: seq<bv8>) | Trailers(id: nat)

  datatype Inner = Pending | Ready(frame: Frame) | Failed(code: nat)

  datatype Output = Polled(inner: Inner) | End

  /** The wrapper as a value. */
  datatype Body = Body(inner: seq<Inner>, bytesTransmitted: nat, maxBytes: nat)

  /** What one `poll_frame` returns and leaves; the sum is that of the machine's u64. */
  function Poll(b: Body): (Body, Output) {
    if b.bytesTransmitted >= b.maxBytes then (b, End)
    else if b.inner == [] then (b, End)
    else
      var rest := b.(inner := b.inner[1..]);
      match b.inner[0]
      case Ready(Data(bytes)) =>
        var newTotal := (b.bytesTransmitted + |bytes|) % U64;
        if newTotal > b.maxBytes then
          var remaining := b.maxBytes - b.bytesTransmitted;
          if 0 < remaining <= |bytes| then
            (rest.(bytesTransmitted := b.maxBytes), Polled(Ready(Data(bytes[..remaining]))))
          else (rest, End)
        else (rest.(bytesTransmitted := newTotal), Polled(b.inner[0]))
      case _ => (rest, Polled(b.inner[0]))
  }

  function UpperBound(b: Body, innerUpper: Option<nat>): nat {
    var remaining := if b.maxBytes >= b.bytesTransmitted then b.maxBytes - b.bytesTransmitted else 0;
    if innerUpper.Some? && innerUpper.value <= remaining then innerUpper.value else remaining
  }

  class LimitedBody {
    var inner: seq<Inner>
    var bytesTransmitted: nat
    const maxBytes: nat

    ghost function Value(): Body
      reads this
    {
      Body(inner, bytesTransmitted, maxBytes)
    }

    ghost predicate Valid()
      reads this
    {
      maxBytes < U64 && bytesTransmitted <= maxBytes
    }

    constructor (inner: seq<Inner>, maxBytes: nat)
      requires maxBytes < U64
      ensures Valid() && Value() == Body(inner, 0, maxBytes)
    {
      this.inner, this.bytesTransmitted, this.maxBytes := inner, 0, maxBytes;
    }

    method PollFrame() returns (out: Output)
      requires Valid()
      modifies this
      ensures Valid() && (Value(), out) == Poll(old(Value()))
    {
      if bytesTransmitted >= maxBytes {
        return End;
      }
      if inner == [] {
        return End;
      }
      var polled := inner[0];
      inner := inner[1..];
      if polled.Ready? && polled.frame.Data? {
        var bytes := polled.frame.bytes;
        var newTotal := (bytesTransmitted + |bytes|) % U64;
        if newTotal > maxBytes {
          var remaining := maxBytes - bytesTransmitted;
          // The slice is in range, and the code's branch for no remaining bytes is never taken.
          assert 0 < remaining <= |bytes|;
          bytesTransmitted := maxBytes;
          return Polled(Ready(Data(bytes[..remaining])));
        }
        bytesTransmitted := newTotal;
      }
      return Polled(polled);
    }

    /** `is_end_stream`, given the inner body's own answer: a promise that the next poll returns the end
        and changes nothing, and when the inner body knows its end, exactly that. */
    method IsEndStream(innerEnded: bool) returns (ended: bool)
      requires Valid()
      requires innerEnded ==> inner == []
      ensures ended ==> Poll(Value()) == (Value(), End)
      ensures (innerEnded <==> inner == []) ==> (ended <==> Poll(Value()).1.End?)
    {
      return bytesTransmitted >= maxBytes || innerEnded;
    }

    /** The upper bound of `size_hint`; the lower bound stays at zero. */
    method SizeHintUpper(innerUpper: Option<nat>) returns (upper: nat)
      requires Valid()
      ensures upper == UpperBound(Value(), innerUpper)
    {
      var remaining := maxBytes - bytesTransmitted;
      match innerUpper {
        case Some(u) => return if u <= remaining then u else remaining;
        case None => return remaining;
      }
    }
  }

  // ----- many polls

  function Bytes(x: Inner): seq<bv8> {
    if x.Ready? && x.frame.Data? then x.frame.bytes else []
  }

  /** The data of a script, in order. */
  function DataOf(script: seq<Inner>): seq<bv8>
    decreases |script|
  {
    if script == [] then []
    else DataOf(script[..|script| - 1]) + Bytes(script[|script| - 1])
  }

  /** The wrapper after `n` polls, and everything those polls returned. */
  function Polls(b: Body, n: nat): (Body, seq<Output>) {
    if n == 0 then (b, [])
    else
      var (c, outs) := Polls(b, n - 1);
      var (d, out) := Poll(c);
      (d, outs + [out])
  }

  function Emitted(outs: seq<Output>): seq<bv8>
    decreases |outs|
  {
    if outs == [] then []
    else
      Emitted(outs[..|outs| - 1]) +
      match outs[|outs| - 1]
      case Polled(x) => Bytes(x)
      case End => []
  }

  function Take<T>(s: seq<T>, n: nat): seq<T> {
    if |s| <= n then s else s[..n]
  }

  /** The counter's sum never wraps around: what has been handed on plus the next frame is below 2^64. */
  ghost predicate Fits(script: seq<Inner>, max: nat) {
    forall k :: 0 <= k < |script| ==> |Take(DataOf(script[..k]), max)| + |Bytes(script[k])| < U64
  }

  lemma DataGrows(script: seq<Inner>, k: nat)
    requires k < |script|
    ensures DataOf(script[..k + 1]) == DataOf(script[..k]) + Bytes(script[k])
  {
    assert script[..k + 1][..k] == script[..k];
  }

  lemma {:induction false} DataOfPrefix(script: seq<Inner>, k: nat)
    requires k <= |script|
    ensures DataOf(script[..k]) <= DataOf(script)
    decreases |script| - k
  {
    if k < |script| {
      DataGrows(script, k);
      DataOfPrefix(script, k + 1);
    } else {
      assert script[..k] == script;
    }
  }

  /** So it is for every body shorter than 2^64, and for every body whose frames leave room for the limit. */
  lemma ShortBodiesFit(script: seq<Inner>, max: nat)
    ensures |DataOf(script)| < U64 ==> Fits(script, max)
    ensures (forall k :: 0 <= k < |script| ==> max + |Bytes(script[k])| < U64) ==> Fits(script, max)
  {
    forall k | 0 <= k < |script|
      ensures |DataOf(script[..k])| + |Bytes(script[k])| <= |DataOf(script)|
    {
      DataGrows(script, k);
      DataOfPrefix(script, k + 1);
    }
  }

  /** How the wrapper stands after it has consumed `k` polls of the script and emitted `sent`. */
  predicate Tracks(script: seq<Inner>, max: nat, k: nat, b: Body, sent: seq<bv8>) {
    && k <= |script| && b.inner == script[k..] && b.maxBytes == max
    && sent == Take(DataOf(script[..k]), max)
    && b.bytesTransmitted == |sent|
  }

  lemma TakeOfLongPrefix<T>(p: seq<T>, s: seq<T>, n: nat)
    requires p <= s && (|p| >= n || p == s)
    ensures Take(p, n) == Take(s, n)
  {
  }

  lemma TakeMore<T>(p: seq<T>, x: seq<T>, n: nat)
    requires |p| <= n
    ensures Take(p + x, n) == p + Take(x, n - |p|)
  {
  }

  /** What one poll of unread data hands on. */
  lemma PollOfData(b: Body)
    requires b.bytesTransmitted < b.maxBytes && b.inner != []
    requires b.bytesTransmitted + |Bytes(b.inner[0])| < U64
    ensures var (c, out) := Poll(b);
            && out.Polled? && c.inner == b.inner[1..] && c.maxBytes == b.maxBytes
            && Bytes(out.inner) == Take(Bytes(b.inner[0]), b.maxBytes - b.bytesTransmitted)
            && c.bytesTransmitted == b.bytesTransmitted + |Bytes(out.inner)|
  {
  }

  lemma EmittedMore(outs: seq<Output>, out: Output)
    ensures Emitted(outs + [out]) == Emitted(outs) + match out case Polled(x) => Bytes(x) case End => []
  {
    assert (outs + [out])[..|outs|] == outs;
  }

  predicate Finished(b: Body) {
    b.bytesTransmitted >= b.maxBytes || b.inner == []
  }

  lemma FinishedTracks(script: seq<Inner>, max: nat, k: nat, b: Body, sent: seq<bv8>)
    requires Tracks(script, max, k, b, sent) && Finished(b)
    ensures Poll(b) == (b, End)
    ensures Take(DataOf(script[..k]), max) == Take(DataOf(script), max)
  {
    DataOfPrefix(script, k);
    assert b.inner == [] ==> script[..k] == script;
    TakeOfLongPrefix(DataOf(script[..k]), DataOf(script), max);
  }

  lemma UnfinishedTracks(script: seq<Inner>, max: nat, k: nat, b: Body, sent: seq<bv8>)
    requires Fits(script, max) && Tracks(script, max, k, b, sent) && !Finished(b)
    ensures var (c, out) := Poll(b);
            out.Polled? && Tracks(script, max, k + 1, c, sent + Bytes(out.inner))
  {
    DataGrows(script, k);
    DataOfPrefix(script, k + 1);
    assert b.inner[0] == script[k] && b.inner[1..] == script[k + 1..];
    PollOfData(b);
    TakeMore(DataOf(script[..k]), Bytes(script[k]), max);
  }

  lemma PollTracks(script: seq<Inner>, max: nat, k: nat, b: Body, outs: seq<Output>)
    requires Fits(script, max) && Tracks(script, max, k, b, Emitted(outs))
    ensures var (c, out) := Poll(b);
            && Tracks(script, max, if out.End? then k else k + 1, c, Emitted(outs + [out]))
            && (out.End? <==> Finished(b))
            && (out.End? ==> Take(DataOf(script[..k]), max) == Take(DataOf(script), max))
  {
    EmittedMore(outs, Poll(b).1);
    if Finished(b) {
      FinishedTracks(script, max, k, b, Emitted(outs));
      assert Emitted(outs) + [] == Emitted(outs);
    } else {
      UnfinishedTracks(script, max, k, b, Emitted(outs));
    }
  }

  /** The same, with the polls' outputs, and complete once one of them was the end. */
  predicate Stands(script: seq<Inner>, max: nat, k: nat, b: Body, outs: seq<Output>) {
    && Tracks(script, max, k, b, Emitted(outs))
    && (End in outs ==> Finished(b) && Emitted(outs) == Take(DataOf(script), max))
  }

  lemma StartStands(script: seq<Inner>, max: nat)
    ensures Stands(script, max, 0, Body(script, 0, max), [])
  {
    assert script[..0] == [];
  }

  lemma PollStands(script: seq<Inner>, max: nat, k: nat, b: Body, outs: seq<Output>) returns (j: nat)
    requires Fits(script, max) && Stands(script, max, k, b, outs)
    ensures Stands(script, max, j, Poll(b).0, outs + [Poll(b).1])
  {
    PollTracks(script, max, k, b, outs);
    if Finished(b) {
      FinishedTracks(script, max, k, b, Emitted(outs));
    }
    j := if Poll(b).1.End? then k else k + 1;
  }

  lemma {:induction false} PollsCounted(start: Body, n: nat)
    ensures |Polls(start, n).1| == n
  {
    if n > 0 {
      PollsCounted(start, n - 1);
    }
  }

  /** Truncation refines `take`: after any number of polls, the bytes handed on are the first
      `max` of the bytes consumed, none is lost or reordered, and the counter is their number; at an
      end they are the first `max` of the whole body. */
  lemma {:induction false} PollsTrack(script: seq<Inner>, max: nat, n: nat) returns (k: nat)
    requires Fits(script, max)
    ensures var (b, outs) := Polls(Body(script, 0, max), n);
            |outs| == n && Stands(script, max, k, b, outs)
  {
    PollsCounted(Body(script, 0, max), n);
    if n == 0 {
      StartStands(script, max);
      k := 0;
    } else {
      k := PollsTrack(script, max, n - 1);
      var (b, outs) := Polls(Body(script, 0, max), n - 1);
      k := PollStands(script, max, k, b, outs);
    }
  }

  function Ends(n: nat): seq<Output> {
    if n == 0 then [] else Ends(n - 1) + [End]
  }

  lemma {:induction false} StaysAtEnd(start: Body, n: nat, more: nat)
    requires Poll(Polls(start, n).0) == (Polls(start, n).0, End)
    ensures Polls(start, n + more) == (Polls(start, n).0, Polls(start, n).1 + Ends(more))
    decreases more
  {
    var (b, outs) := Polls(start, n);
    if more > 0 {
      StaysAtEnd(start, n, more - 1);
      assert outs + Ends(more - 1) + [End] == outs + Ends(more);
    } else {
      assert outs + Ends(0) == outs;
    }
  }

  /** A poll returns the end only when the wrapper is finished, and then changes nothing. */
  lemma EndMeansFinished(b: Body)
    ensures Poll(b).1.End? <==> Finished(b)
    ensures Finished(b) ==> Poll(b) == (b, End)
  {
  }

  lemma {:induction false} FinishedAfterEnd(start: Body, n: nat)
    requires End in Polls(start, n).1
    ensures Finished(Polls(start, n).0)
  {
    var (b, outs) := Polls(start, n - 1);
    EndMeansFinished(b);
    if End in outs {
      FinishedAfterEnd(start, n - 1);
    }
  }

  /** Once a poll has returned the end, every later one does, and nothing changes any more. */
  lemma EndIsFinal(start: Body, n: nat, more: nat)
    requires End in Polls(start, n).1
    ensures Polls(start, n + more) == (Polls(start, n).0, Polls(start, n).1 + Ends(more))
  {
    FinishedAfterEnd(start, n);
    EndMeansFinished(Polls(start, n).0);
    StaysAtEnd(start, n, more);
  }

  lemma PollBelowLimit(b: Body)
    requires b.inner != [] && b.bytesTransmitted < b.maxBytes < U64
    requires b.bytesTransmitted + |Bytes(b.inner[0])| <= b.maxBytes
    ensures Poll(b) == (Body(b.inner[1..], b.bytesTransmitted + |Bytes(b.inner[0])|, b.maxBytes), Polled(b.inner[0]))
  {
  }

  /** Below the limit the wrapper is invisible: frames, trailers, errors and waits come through as they are. */
  lemma {:induction false} BelowLimitNothingChanges(script: seq<Inner>, max: nat, n: nat)
    requires n <= |script| && |DataOf(script[..n])| < max < U64
    ensures var (b, outs) := Polls(Body(script, 0, max), n);
            && b == Body(script[n..], |DataOf(script[..n])|, max)
            && |outs| == n && forall k :: 0 <= k < n ==> outs[k] == Polled(script[k])
  {
    if n > 0 {
      DataGrows(script, n - 1);
      BelowLimitNothingChanges(script, max, n - 1);
      PollBelowLimit(Body(script[n - 1..], |DataOf(script[..n - 1])|, max));
      assert script[n - 1..][1..] == script[n..];
    } else {
      assert script[..0] == [];
    }
  }

  /** Two moments of one body: what lies between them fits the bound advertised at the first. */
  lemma BoundBetween(script: seq<Inner>, max: nat, k: nat, b: Body, sent: seq<bv8>,
                     j: nat, c: Body, all: seq<bv8>, innerUpper: Option<nat>)
    requires Tracks(script, max, k, b, sent) && Tracks(script, max, j, c, all)
    requires innerUpper.Some? ==> |DataOf(script)| - |DataOf(script[..k])| <= innerUpper.value
    ensures |all| <= |sent| + UpperBound(b, innerUpper)
  {
    DataOfPrefix(script, k);
    DataOfPrefix(script, j);
  }

  /** What a wrapper has handed on after `n` polls. */
  function SentAfter(script: seq<Inner>, max: nat, n: nat): seq<bv8> {
    Emitted(Polls(Body(script, 0, max), n).1)
  }

  lemma TracksAfter(script: seq<Inner>, max: nat, n: nat) returns (k: nat)
    requires Fits(script, max)
    ensures Tracks(script, max, k, Polls(Body(script, 0, max), n).0, SentAfter(script, max, n))
    ensures End in Polls(Body(script, 0, max), n).1 ==> SentAfter(script, max, n) == Take(DataOf(script), max)
  {
    k := PollsTrack(script, max, n);
  }

  /** The advertised upper bound is never exceeded by what is still to come, if the inner bound is
      at least the data the inner body still holds. */
  lemma UpperBoundIsSound(script: seq<Inner>, max: nat, n: nat, more: nat, innerUpper: Option<nat>) returns (k: nat)
    requires Fits(script, max)
    ensures k <= |script| && Polls(Body(script, 0, max), n).0.inner == script[k..]
    ensures (innerUpper.Some? ==> |DataOf(script)| - |DataOf(script[..k])| <= innerUpper.value) ==>
              |SentAfter(script, max, n + more)| <=
              |SentAfter(script, max, n)| + UpperBound(Polls(Body(script, 0, max), n).0, innerUpper)
  {
    k := TracksAfter(script, max, n);
    var j := TracksAfter(script, max, n + more);
    if innerUpper.Some? ==> |DataOf(script)| - |DataOf(script[..k])| <= innerUpper.value {
      BoundBetween(script, max, k, Polls(Body(script, 0, max), n).0, SentAfter(script, max, n),
        j, Polls(Body(script, 0, max), n + more).0, SentAfter(script, max, n + more), innerUpper);
    }
  }

  /** The inner bound is what the inner body still holds, or there is none and the body fills its limit. */
  predicate IsExact(script: seq<Inner>, max: nat, k: nat, innerUpper: Option<nat>)
    requires k <= |script|
  {
    match innerUpper
    case Some(u) => u == |DataOf(script)| - |DataOf(script[..k])|
    case None => |DataOf(script)| >= max
  }

  lemma ExactlyBetween(script: seq<Inner>, max: nat, k: nat, b: Body, sent: seq<bv8>, all: seq<bv8>,
                       innerUpper: Option<nat>)
    requires Tracks(script, max, k, b, sent) && all == Take(DataOf(script), max)
    requires IsExact(script, max, k, innerUpper)
    ensures |all| == |sent| + UpperBound(b, innerUpper)
  {
    DataOfPrefix(script, k);
  }

  /** And it is tight: with an exact inner bound, what comes until the end is exactly what is advertised. */
  lemma UpperBoundIsTight(script: seq<Inner>, max: nat, n: nat, more: nat, innerUpper: Option<nat>) returns (k: nat)
    requires Fits(script, max) && End in Polls(Body(script, 0, max), n + more).1
    ensures k <= |script| && Polls(Body(script, 0, max), n).0.inner == script[k..]
    ensures IsExact(script, max, k, innerUpper) ==>
              |SentAfter(script, max, n + more)| ==
              |SentAfter(script, max, n)| + UpperBound(Polls(Body(script, 0, max), n).0, innerUpper)
  {
    k := TracksAfter(script, max, n);
    var j := TracksAfter(script, max, n + more);
    if IsExact(script, max, k, innerUpper) {
      ExactlyBetween(script, max, k, Polls(Body(script, 0, max), n).0, SentAfter(script, max, n),
        SentAfter(script, max, n + more), innerUpper);
    }
  }
}
