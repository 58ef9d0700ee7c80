/**
 The request stream that src/rules/proc.rs writes to a line processor: one serialised RequestInfo
 (src/rules/common.rs) and one newline per request.
 */
module RequestFraming {
  import opened Wrappers
  import Json
  import JsonPrint

  datatype RequestInfo = RequestInfo(
    url: string, method_: string, scheme: string, host: string, path: string, requesterIp: string)

  function ToJson(r: RequestInfo): Json.Json {
    Json.Object(
      [("url", Json.String(r.url)), ("method", Json.String(r.method_)), ("scheme", Json.String(r.scheme)),
       ("host", Json.String(r.host)), ("path", Json.String(r.path)), ("requester_ip", Json.String(r.requesterIp))])
  }

  function ToText(r: RequestInfo): string {
    Json.Text(ToJson(r))
  }

  function Texts(rs: seq<RequestInfo>): (ts: seq<string>)
    ensures |ts| == |rs| && forall k :: 0 <= k < |rs| ==> ts[k] == ToText(rs[k])
  {
    if rs == [] then [] else Texts(rs[..|rs| - 1]) + [ToText(rs[|rs| - 1])]
  }

  /** Everything written to one child: every request line gets one newline. */
  function Stream(texts: seq<string>): string {
    if texts == [] then [] else Stream(texts[..|texts| - 1]) + (texts[|texts| - 1] + "\n")
  }

  // ----- the reader at the other end

  function Tail(s: string): (t: string) {
    if s == [] || s[|s| - 1] == '\n' then [] else Tail(s[..|s| - 1]) + [s[|s| - 1]]
  }

  /** The complete lines of a stream, without their newlines, and what follows the last newline. */
  function Lines(s: string): (lines: seq<string>) {
    if s == [] then []
    else if s[|s| - 1] == '\n' then Lines(s[..|s| - 1]) + [Tail(s[..|s| - 1])]
    else Lines(s[..|s| - 1])
  }

  /** The object a reader recovers from a line. */
  function FromJson(j: Json.Json): Option<RequestInfo> {
    match j
    case Object(ms) =>
      if |ms| == 6 && (forall k :: 0 <= k < 6 ==> ms[k].1.String?) &&
         [ms[0].0, ms[1].0, ms[2].0, ms[3].0, ms[4].0, ms[5].0] ==
         ["url", "method", "scheme", "host", "path", "requester_ip"]
      then Some(RequestInfo(ms[0].1.s, ms[1].1.s, ms[2].1.s, ms[3].1.s, ms[4].1.s, ms[5].1.s))
      else None
    case _ => None
  }

  function ReadLine(line: string): Option<RequestInfo> {
    match Json.Parse(line)
    case Some(j) => FromJson(j)
    case None => None
  }

  // ----- properties

  lemma {:induction false} LinesOfAppended(s: string, t: string)
    requires JsonPrint.NoControl(t)
    ensures Lines(s + t) == Lines(s) && Tail(s + t) == Tail(s) + t
  {
    if t == [] {
      assert s + t == s;
    } else {
      LinesOfAppended(s, t[..|t| - 1]);
      assert (s + t)[..|s + t| - 1] == s + t[..|t| - 1];
      assert Tail(s + t) == Tail(s) + t[..|t| - 1] + [t[|t| - 1]];
      assert t[..|t| - 1] + [t[|t| - 1]] == t;
    }
  }

  lemma LineAppended(s: string, text: string)
    requires JsonPrint.NoControl(text)
    ensures Lines(s + (text + "\n")) == Lines(s) + [Tail(s) + text] && Tail(s + (text + "\n")) == []
  {
    LinesOfAppended(s, text);
    assert (s + (text + "\n"))[..|s + text|] == s + text;
  }

  lemma RequestIsPrintable(r: RequestInfo)
    ensures JsonPrint.Printable(ToJson(r)) && FromJson(ToJson(r)) == Some(r)
  {
    forall m | m in ToJson(r).members ensures JsonPrint.PrintableMember(m) {
    }
  }

  /** One request is one line, from which the request can be read back. */
  lemma TextRoundTrip(r: RequestInfo)
    ensures JsonPrint.NoControl(ToText(r)) && ReadLine(ToText(r)) == Some(r)
  {
    RequestIsPrintable(r);
    JsonPrint.TextHasNoControl(ToJson(r));
    JsonPrint.RoundTrip(ToJson(r));
  }

  lemma {:induction false} StreamSplits(texts: seq<string>)
    requires forall k :: 0 <= k < |texts| ==> JsonPrint.NoControl(texts[k])
    ensures Lines(Stream(texts)) == texts && Tail(Stream(texts)) == []
  {
    if texts != [] {
      var before, text := texts[..|texts| - 1], texts[|texts| - 1];
      StreamSplits(before);
      LineAppended(Stream(before), text);
      assert [] + text == text;
      assert texts == before + [text];
    }
  }

  /** Splitting the stream on newlines and reading each line recovers exactly the sequence of
      requests, and nothing is left over. */
  lemma FramingIsUnambiguous(rs: seq<RequestInfo>)
    ensures var lines := Lines(Stream(Texts(rs)));
            && |lines| == |rs| && Tail(Stream(Texts(rs))) == []
            && forall k :: 0 <= k < |rs| ==> lines[k] == ToText(rs[k]) && ReadLine(lines[k]) == Some(rs[k])
  {
    forall k | 0 <= k < |rs| ensures JsonPrint.NoControl(ToText(rs[k])) && ReadLine(ToText(rs[k])) == Some(rs[k]) {
      TextRoundTrip(rs[k]);
    }
    StreamSplits(Texts(rs));
  }
}
