/**
 `apply_request_byte_limit` of src/proxy.rs composed with the limited body: what reaches upstream,
 headers included.  Header names and values are byte strings, one character a byte.
 */
module ByteLimit {
  import opened Wrappers
  import opened Headers
  import opened LimitedBody
  import Decimal
  import JsonGrammar
  import LoopPrevention
  import ProcEngine
  import RR = RuleResponse

  datatype Request = Request(method_: string, path: Option<string>, headers: seq<Header>, body: seq<Inner>)

  datatype Outcome =
    | WithinLimit(headerSize: nat, body: Body)
    | ExceedsLimit(contentLength: nat, maxBytes: nat)

  const CONTENT_LENGTH := "content-length"

  // ----- sizes

  /** "name: value\r\n". */
  function LineSize(h: Header): nat {
    |h.name| + 2 + |h.value| + 2
  }

  function HeadersSize(hs: seq<Header>): nat
    decreases |hs|
  {
    if hs == [] then 0 else HeadersSize(hs[..|hs| - 1]) + LineSize(hs[|hs| - 1])
  }

  /** The request line, the headers and the empty line, as the code counts them. */
  function HeaderSize(r: Request): nat {
    |r.method_ + " " + r.path.GetOr("/") + " HTTP/1.1\r\n"| + HeadersSize(r.headers) + 2
  }

  function LinesText(hs: seq<Header>): string
    decreases |hs|
  {
    if hs == [] then [] else LinesText(hs[..|hs| - 1]) + (hs[|hs| - 1].name + ": " + hs[|hs| - 1].value + "\r\n")
  }

  /** The bytes themselves. */
  function HeadText(r: Request): string {
    r.method_ + " " + r.path.GetOr("/") + " HTTP/1.1\r\n" + LinesText(r.headers) + "\r\n"
  }

  lemma {:induction false} LinesTextSize(hs: seq<Header>)
    ensures |LinesText(hs)| == HeadersSize(hs)
  {
    if hs != [] {
      LinesTextSize(hs[..|hs| - 1]);
    }
  }

  /** The count is the length of the head of the request in HTTP/1.1 form. */
  lemma HeaderSizeIsHeadLength(r: Request)
    ensures HeaderSize(r) == |HeadText(r)|
  {
    LinesTextSize(r.headers);
  }

  /** The head of a small request, letter by letter. */
  lemma SmallHead()
    ensures var r := Request("GET", None, [Header("host", "a")], []);
            HeadText(r) == "GET / HTTP/1.1\r\nhost: a\r\n\r\n" && HeaderSize(r) == 27
  {
    var hs := [Header("host", "a")];
    assert hs[..0] == [];
    assert LinesText(hs) == "host: a\r\n";
    assert HeadersSize(hs) == 9;
  }

  // ----- Content-Length

  /** `str::parse::<u64>`. */
  function ParseU64(s: string): Option<nat> {
    var digits := if s != [] && s[0] == '+' then s[1..] else s;
    if digits != [] && Decimal.AllDigits(digits) && Decimal.Read(digits) < U64
    then Some(Decimal.Read(digits)) else None
  }

  function ContentLength(hs: seq<Header>): Option<nat> {
    match First(hs, CONTENT_LENGTH)
    case Some(v) => if LoopPrevention.Printable(v) then ParseU64(v) else None
    case None => None
  }

  /** A length written in decimal is read back. */
  lemma DecimalLengthIsRead(hs: seq<Header>, n: nat)
    requires n < U64 && First(hs, CONTENT_LENGTH) == Some(Decimal.Show(n))
    ensures ContentLength(hs) == Some(n)
  {
    Decimal.ReadShow(n);
  }

  predicate IsLength(hs: seq<Header>, n: nat, v: string, digits: string) {
    && First(hs, CONTENT_LENGTH) == Some(v) && (v == digits || v == "+" + digits)
    && digits != [] && Decimal.AllDigits(digits) && n == Decimal.Read(digits) < U64
  }

  /** Exactly which headers give a length: the first Content-Length is a numeral below 2^64, perhaps with
      a plus sign. */
  lemma LengthIsReadIff(hs: seq<Header>, n: nat)
    ensures ContentLength(hs) == Some(n) <==> exists v, digits :: IsLength(hs, n, v, digits)
  {
    if ContentLength(hs) == Some(n) {
      var v := First(hs, CONTENT_LENGTH).value;
      var digits := if v[0] == '+' then v[1..] else v;
      assert v[0] == '+' ==> v == "+" + digits;
      assert IsLength(hs, n, v, digits);
    }
    if v, digits :| IsLength(hs, n, v, digits) {
      assert v != digits ==> v[1..] == digits;
      assert LoopPrevention.Printable(digits);
      assert Decimal.IsDigit(digits[0]);
    }
  }

  // ----- the check

  function Apply(r: Request, maxBytes: nat): Outcome {
    var size := HeaderSize(r);
    var rest := if maxBytes >= size then maxBytes - size else 0;
    match ContentLength(r.headers)
    case Some(length) =>
      if (size + length) % U64 > maxBytes then ExceedsLimit(length, maxBytes)
      else WithinLimit(size, Body(r.body, 0, rest))
    case None => WithinLimit(size, Body(r.body, 0, rest))
  }

  /** The loop over the headers and the two checks, in place. */
  method ApplyRequestByteLimit(r: Request, maxBytes: nat) returns (outcome: Outcome)
    ensures outcome == Apply(r, maxBytes)
  {
    var headersSize := 0;
    var i := 0;
    while i < |r.headers|
      invariant 0 <= i <= |r.headers| && headersSize == HeadersSize(r.headers[..i])
    {
      assert r.headers[..i + 1][..i] == r.headers[..i];
      headersSize := headersSize + LineSize(r.headers[i]);
      i := i + 1;
    }
    assert r.headers[..i] == r.headers;
    var requestLine := r.method_ + " " + r.path.GetOr("/") + " HTTP/1.1\r\n";
    var totalHeaderSize := |requestLine| + headersSize + 2;
    var contentLength := ContentLength(r.headers);
    if contentLength.Some? && (totalHeaderSize + contentLength.value) % U64 > maxBytes {
      return ExceedsLimit(contentLength.value, maxBytes);
    }
    var bodyLimit := if maxBytes >= totalHeaderSize then maxBytes - totalHeaderSize else 0;
    return WithinLimit(totalHeaderSize, Body(r.body, 0, bodyLimit));
  }

  // ----- what reaches upstream

  function BodyLimit(r: Request, maxBytes: nat): nat {
    if maxBytes >= HeaderSize(r) then maxBytes - HeaderSize(r) else 0
  }

  /** Headers plus the body bytes that `n` polls hand on. */
  function Upstream(r: Request, maxBytes: nat, n: nat): nat
    requires Apply(r, maxBytes).WithinLimit?
  {
    HeaderSize(r) + |Emitted(Polls(Apply(r, maxBytes).body, n).1)|
  }

  predicate Ended(r: Request, maxBytes: nat, n: nat)
    requires Apply(r, maxBytes).WithinLimit?
  {
    End in Polls(Apply(r, maxBytes).body, n).1
  }

  /** Every admitted request, at every moment: headers plus body never exceed the larger of the
      limit and the headers alone, and a body that has ended was cut to exactly what the headers
      left.  This holds whatever its Content-Length says, even when the code's sum wraps around. */
  lemma UpstreamIsBounded(r: Request, maxBytes: nat, n: nat)
    requires Fits(r.body, BodyLimit(r, maxBytes)) && Apply(r, maxBytes).WithinLimit?
    ensures Upstream(r, maxBytes, n) <= (if maxBytes >= HeaderSize(r) then maxBytes else HeaderSize(r))
    ensures Ended(r, maxBytes, n) ==>
              Emitted(Polls(Apply(r, maxBytes).body, n).1) == Take(DataOf(r.body), BodyLimit(r, maxBytes))
  {
    var k := PollsTrack(r.body, BodyLimit(r, maxBytes), n);
  }

  /** For every request: it is rejected exactly when it has a readable length whose sum with the headers,
      as a machine word, exceeds the limit, and the rejection names that length and that limit. */
  lemma RejectedIff(r: Request, maxBytes: nat)
    ensures Apply(r, maxBytes).ExceedsLimit? <==>
            ContentLength(r.headers).Some? && (HeaderSize(r) + ContentLength(r.headers).value) % U64 > maxBytes
    ensures Apply(r, maxBytes).ExceedsLimit? ==>
            && Some(Apply(r, maxBytes).contentLength) == ContentLength(r.headers)
            && Apply(r, maxBytes).maxBytes == maxBytes
    ensures Apply(r, maxBytes).WithinLimit? ==>
            Apply(r, maxBytes) == WithinLimit(HeaderSize(r), Body(r.body, 0, BodyLimit(r, maxBytes)))
  {
  }

  /** When the sum does not wrap, a request with a Content-Length is rejected exactly when it is too large. */
  lemma RejectedIffTooLarge(r: Request, maxBytes: nat)
    requires ContentLength(r.headers).Some? && HeaderSize(r) + ContentLength(r.headers).value < U64
    ensures Apply(r, maxBytes).ExceedsLimit? <==> HeaderSize(r) + ContentLength(r.headers).value > maxBytes
  {
  }

  /** For every length, the exact condition of rejection, and the one family it lets through: sums
      that wrap to a small value, which only an impossibly long body could honour. */
  lemma AdmittedThoughTooLargeIff(r: Request, maxBytes: nat)
    requires ContentLength(r.headers).Some? && HeaderSize(r) < U64 && maxBytes < U64
    ensures var sum := HeaderSize(r) + ContentLength(r.headers).value;
            (Apply(r, maxBytes).WithinLimit? && sum > maxBytes) <==> (sum >= U64 && sum - U64 <= maxBytes)
  {
    var length := ContentLength(r.headers).value;
    assert length < U64;
    var sum := HeaderSize(r) + length;
    if sum >= U64 {
      assert sum % U64 == sum - U64;
    }
  }

  /** A request whose Content-Length is the length of its body is never truncated once admitted. */
  lemma AccurateLengthIsNeverTruncated(r: Request, maxBytes: nat, n: nat)
    requires ContentLength(r.headers) == Some(|DataOf(r.body)|)
    requires HeaderSize(r) + |DataOf(r.body)| < U64
    requires Apply(r, maxBytes).WithinLimit?
    ensures Ended(r, maxBytes, n) ==> Emitted(Polls(Apply(r, maxBytes).body, n).1) == DataOf(r.body)
  {
    RejectedIffTooLarge(r, maxBytes);
    assert |DataOf(r.body)| <= BodyLimit(r, maxBytes);
    ShortBodiesFit(r.body, BodyLimit(r, maxBytes));
    UpstreamIsBounded(r, maxBytes, n);
  }

  /** The documentation promises that the limit covers complete requests.  For admitted requests that
      is so exactly when the headers alone fit: they are always sent in full. */
  lemma LimitCoversWholeRequestIff(r: Request, maxBytes: nat)
    requires Apply(r, maxBytes).WithinLimit? && Fits(r.body, BodyLimit(r, maxBytes))
    ensures (forall n :: Upstream(r, maxBytes, n) <= maxBytes) <==> HeaderSize(r) <= maxBytes
  {
    if HeaderSize(r) <= maxBytes {
      forall n ensures Upstream(r, maxBytes, n) <= maxBytes {
        UpstreamIsBounded(r, maxBytes, n);
      }
    } else {
      assert Upstream(r, maxBytes, 0) >= HeaderSize(r);
    }
  }

  // ----- from a reply to the bytes upstream

  /** What becomes of a request once it has been decided. */
  datatype Sent =
    | Forbidden(reason: Option<string>)
    | TooLarge(contentLength: nat, maxBytes: nat)
    | Limited(headerSize: nat, limited: Body)
    | Whole(body: seq<Inner>)

  /** `handle_http_request` after the evaluation, and `proxy_request` up to the client. */
  function Forward(e: ProcEngine.Evaluation, r: Request): Sent {
    match e.action
    case Deny => Forbidden(e.context)
    case Allow =>
      match e.maxTxBytes
      case None => Whole(r.body)
      case Some(max) =>
        match Apply(r, max)
        case ExceedsLimit(length, limit) => TooLarge(length, limit)
        case WithinLimit(size, body) => Limited(size, body)
  }

  /** A reply that limits a request to `max` bytes does: for any spelling of the answer, the request is
      either rejected for a length that exceeds that limit, or what any number of polls sends of its
      body, together with the headers, stays within the larger of that limit and the headers. */
  lemma RepliedLimitHolds(answer: RR.RuleResponse, before: string, t: string, after: string, r: Request, n: nat)
    requires RR.Wellformed(answer) && JsonGrammar.Spells(RR.ToJson(answer), t)
    requires RR.AllWhite(before) && RR.AllWhite(after)
    requires answer.allow.Some? && answer.allow.value.Limited?
    requires Fits(r.body, BodyLimit(r, answer.allow.value.maxTxBytes))
    ensures var max := answer.allow.value.maxTxBytes;
            var sent := Forward(ProcEngine.FromReply(before + t + after), r);
            || (sent.TooLarge? && sent.maxBytes == max && ContentLength(r.headers) == Some(sent.contentLength) &&
                HeaderSize(r) + sent.contentLength > max)
            || (sent.Limited? &&
                HeaderSize(r) + |Emitted(Polls(sent.limited, n).1)| <=
                if max >= HeaderSize(r) then max else HeaderSize(r))
  {
    var max := answer.allow.value.maxTxBytes;
    ProcEngine.SpelledAnswerDecides(answer, before, t, after);
    assert ProcEngine.FromReply(before + t + after).maxTxBytes == Some(max);
    RejectedIff(r, max);
    if Apply(r, max).WithinLimit? {
      UpstreamIsBounded(r, max, n);
    }
  }

  /** A reply without a limit sends the body as it is, and a denial sends nothing. */
  lemma RepliedDecisionHolds(answer: RR.RuleResponse, before: string, t: string, after: string, r: Request)
    requires RR.Wellformed(answer) && JsonGrammar.Spells(RR.ToJson(answer), t)
    requires RR.AllWhite(before) && RR.AllWhite(after)
    requires answer.allow.None? || answer.allow.value.Bool?
    ensures Forward(ProcEngine.FromReply(before + t + after), r) ==
            if ProcEngine.Allows(answer) then Whole(r.body) else Forbidden(answer.denyMessage)
  {
    ProcEngine.SpelledAnswerDecides(answer, before, t, after);
  }
}
