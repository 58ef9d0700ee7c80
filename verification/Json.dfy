/**
 JSON text as serde_json writes and reads it: a compact printer and a recursive-descent reader.
 */
module Json {
  import opened Wrappers
  import opened Decimal
  import opened Hex

  /** A number keeps its spelling, an object its members in order, duplicates included. */
  datatype Json =
    | Null
    | Bool(b: bool)
    | Number(raw: string)
    | String(s: string)
    | Array(items: seq<Json>)
    | Object(members: seq<(string, Json)>)

  // ----- printing

  /** Section 7: the two quoting characters and every control character are escaped. */
  function EscapeChar(c: char): string {
    if c == '\"' then "\\\""
    else if c == '\\' then "\\\\"
    else if c as int == 8 then "\\b"
    else if c as int == 9 then "\\t"
    else if c as int == 10 then "\\n"
    else if c as int == 12 then "\\f"
    else if c as int == 13 then "\\r"
    else if c < ' ' then "\\u00" + [HexDigit(c as int / 16), HexDigit(c as int % 16)]
    else [c]
  }

  function Escape(s: string): string {
    if s == [] then [] else EscapeChar(s[0]) + Escape(s[1..])
  }

  function Quote(s: string): string {
    "\"" + Escape(s) + "\""
  }

  function Text(j: Json): string
    decreases j, 0
  {
    match j
    case Null => "null"
    case Bool(b) => if b then "true" else "false"
    case Number(raw) => raw
    case String(s) => Quote(s)
    case Array(items) => "[" + (if items == [] then "]" else ItemsText(items))
    case Object(members) => "{" + (if members == [] then "}" else MembersText(members))
  }

  /** The rest of an array from an item on. */
  function ItemsText(items: seq<Json>): string
    requires items != []
    decreases items, 1
  {
    Text(items[0]) + (if |items| == 1 then "]" else "," + ItemsText(items[1..]))
  }

  /** The rest of an object from a member on. */
  function MembersText(members: seq<(string, Json)>): string
    requires members != []
    decreases members, 1
  {
    MemberText(members[0]) + (if |members| == 1 then "}" else "," + MembersText(members[1..]))
  }

  function MemberText(m: (string, Json)): string
    decreases m, 0
  {
    assert m.1 < m;
    Quote(m.0) + ":" + Text(m.1)
  }

  // ----- reading

  datatype Parsed<+T> = Fail | Done(value: T, rest: string)

  predicate IsSpace(c: char) {
    c == ' ' || c == '\t' || c == '\n' || c == '\r'
  }

  function SkipSpace(s: string): (r: string)
    ensures |r| <= |s|
  {
    if s != [] && IsSpace(s[0]) then SkipSpace(s[1..]) else s
  }

  function ParseHex4(s: string): (p: Parsed<nat>)
    ensures p.Done? ==> p.value < 0x10000 && |p.rest| < |s|
  {
    if |s| < 4 then Fail
    else
      match (HexValue(s[0]), HexValue(s[1]), HexValue(s[2]), HexValue(s[3]))
      case (Some(a), Some(b), Some(c), Some(d)) =>
        Done(a * 4096 + b * 256 + c * 16 + d, s[4..])
      case _ => Fail
  }

  /** The second half of a surrogate pair. */
  function ParsePair(hi: nat, s: string): (p: Parsed<char>)
    ensures p.Done? ==> |p.rest| < |s|
  {
    if 0xD800 <= hi < 0xDC00 && |s| >= 2 && s[..2] == "\\u" then
      match ParseHex4(s[2..])
      case Fail => Fail
      case Done(lo, rest) =>
        if 0xDC00 <= lo < 0xE000 then Done((0x10000 + (hi - 0xD800) * 0x400 + (lo - 0xDC00)) as char, rest) else Fail
    else Fail
  }

  /** What follows a backslash; a surrogate is only read as half of a pair. */
  function ParseEscape(s: string): (p: Parsed<char>)
    ensures p.Done? ==> |p.rest| < |s|
  {
    if s == [] then Fail
    else if s[0] == '\"' then Done('\"', s[1..])
    else if s[0] == '\\' then Done('\\', s[1..])
    else if s[0] == '/' then Done('/', s[1..])
    else if s[0] == 'b' then Done(8 as char, s[1..])
    else if s[0] == 'f' then Done(12 as char, s[1..])
    else if s[0] == 'n' then Done('\n', s[1..])
    else if s[0] == 'r' then Done('\r', s[1..])
    else if s[0] == 't' then Done('\t', s[1..])
    else if s[0] == 'u' then
      match ParseHex4(s[1..])
      case Fail => Fail
      case Done(hi, rest) =>
        if hi < 0xD800 || 0xE000 <= hi then Done(hi as char, rest) else ParsePair(hi, rest)
    else Fail
  }

  /** The rest of a string after its opening quote. */
  function ParseString(s: string): (p: Parsed<string>)
    ensures p.Done? ==> |p.rest| < |s|
    decreases |s|
  {
    if s == [] then Fail
    else if s[0] == '\"' then Done([], s[1..])
    else if s[0] == '\\' then
      match ParseEscape(s[1..])
      case Fail => Fail
      case Done(c, rest) =>
        (match ParseString(rest)
         case Fail => Fail
         case Done(cs, rest') => Done([c] + cs, rest'))
    else if s[0] < ' ' then Fail
    else
      match ParseString(s[1..])
      case Fail => Fail
      case Done(cs, rest) => Done([s[0]] + cs, rest)
  }

  /** The longest run of digits at the start. */
  function Digits(s: string): (ds: string)
    ensures |ds| <= |s| && ds == s[..|ds|] && AllDigits(ds)
    ensures |ds| < |s| ==> !IsDigit(s[|ds|])
  {
    if s != [] && IsDigit(s[0]) then [s[0]] + Digits(s[1..]) else []
  }

  function ParseSign(s: string): (p: Parsed<string>)
    ensures p.Done? && |p.rest| <= |s|
  {
    if s != [] && s[0] == '-' then Done("-", s[1..]) else Done([], s)
  }

  function ParseWhole(s: string): (p: Parsed<string>)
    ensures p.Done? ==> |p.rest| < |s|
  {
    var ds := Digits(s);
    if ds == [] || (|ds| > 1 && ds[0] == '0') then Fail else Done(ds, s[|ds|..])
  }

  function ParseFraction(s: string): (p: Parsed<string>)
    ensures p.Done? ==> |p.rest| <= |s|
  {
    if s == [] || s[0] != '.' then Done([], s)
    else
      var ds := Digits(s[1..]);
      if ds == [] then Fail else Done("." + ds, s[1..][|ds|..])
  }

  function ParseExponent(s: string): (p: Parsed<string>)
    ensures p.Done? ==> |p.rest| <= |s|
  {
    if s == [] || (s[0] != 'e' && s[0] != 'E') then Done([], s)
    else
      var sign := if |s| >= 2 && (s[1] == '+' || s[1] == '-') then 1 else 0;
      var ds := Digits(s[1 + sign..]);
      if ds == [] then Fail else Done(s[..1 + sign] + ds, s[1 + sign..][|ds|..])
  }

  /** Section 6: no superfluous leading zero, digits on both sides of a point. */
  function ParseNumber(s: string): (p: Parsed<string>)
    ensures p.Done? ==> |p.rest| < |s|
  {
    var sign := ParseSign(s);
    match ParseWhole(sign.rest)
    case Fail => Fail
    case Done(whole, r1) =>
      match ParseFraction(r1)
      case Fail => Fail
      case Done(frac, r2) =>
        match ParseExponent(r2)
        case Fail => Fail
        case Done(exp, r3) => Done(sign.value + whole + frac + exp, r3)
  }

  function ParseLiteral(s: string, word: string, j: Json): (p: Parsed<Json>)
    requires word != []
    ensures p.Done? ==> |p.rest| < |s|
  {
    if word <= s then Done(j, s[|word|..]) else Fail
  }

  function ParseValue(s: string): (p: Parsed<Json>)
    ensures p.Done? ==> |p.rest| < |s|
    decreases |s|, 1
  {
    ParseToken(SkipSpace(s))
  }

  function ParseScalar(t: string): (p: Parsed<Json>)
    requires t != []
    ensures p.Done? ==> |p.rest| < |t|
  {
    if t[0] == 'n' then ParseLiteral(t, "null", Null)
    else if t[0] == 't' then ParseLiteral(t, "true", Bool(true))
    else if t[0] == 'f' then ParseLiteral(t, "false", Bool(false))
    else if t[0] == '\"' then
      match ParseString(t[1..])
      case Fail => Fail
      case Done(cs, rest) => Done(String(cs), rest)
    else
      match ParseNumber(t)
      case Fail => Fail
      case Done(raw, rest) => Done(Number(raw), rest)
  }

  /** A value that starts at once; its first character decides its kind. */
  function ParseToken(t: string): (p: Parsed<Json>)
    ensures p.Done? ==> |p.rest| < |t|
    decreases |t|, 0
  {
    if t == [] then Fail
    else if t[0] == '{' then ParseObject(t[1..])
    else if t[0] == '[' then ParseArray(t[1..])
    else ParseScalar(t)
  }

  /** The rest of an array after its bracket. */
  function ParseArray(s: string): (p: Parsed<Json>)
    ensures p.Done? ==> |p.rest| < |s|
    decreases |s|, 3
  {
    var u := SkipSpace(s);
    if u != [] && u[0] == ']' then Done(Array([]), u[1..])
    else
      match ParseItems(s)
      case Fail => Fail
      case Done(items, rest) => Done(Array(items), rest)
  }

  /** The rest of an object after its brace. */
  function ParseObject(s: string): (p: Parsed<Json>)
    ensures p.Done? ==> |p.rest| < |s|
    decreases |s|, 3
  {
    var u := SkipSpace(s);
    if u != [] && u[0] == '}' then Done(Object([]), u[1..])
    else
      match ParseMembers(s)
      case Fail => Fail
      case Done(members, rest) => Done(Object(members), rest)
  }

  function ParseItems(s: string): (p: Parsed<seq<Json>>)
    ensures p.Done? ==> |p.rest| < |s|
    decreases |s|, 2
  {
    match ParseValue(s)
    case Fail => Fail
    case Done(j, rest) =>
      var t := SkipSpace(rest);
      if t == [] then Fail
      else if t[0] == ']' then Done([j], t[1..])
      else if t[0] == ',' then
        match ParseItems(t[1..])
        case Fail => Fail
        case Done(js, rest') => Done([j] + js, rest')
      else Fail
  }

  function ParseMembers(s: string): (p: Parsed<seq<(string, Json)>>)
    ensures p.Done? ==> |p.rest| < |s|
    decreases |s|, 2
  {
    match ParseMember(s)
    case Fail => Fail
    case Done(m, rest) =>
      var t := SkipSpace(rest);
      if t == [] then Fail
      else if t[0] == '}' then Done([m], t[1..])
      else if t[0] == ',' then
        match ParseMembers(t[1..])
        case Fail => Fail
        case Done(ms, rest') => Done([m] + ms, rest')
      else Fail
  }

  function ParseMember(s: string): (p: Parsed<(string, Json)>)
    ensures p.Done? ==> |p.rest| < |s|
    decreases |s|, 0
  {
    var t := SkipSpace(s);
    if t == [] || t[0] != '\"' then Fail
    else
      match ParseString(t[1..])
      case Fail => Fail
      case Done(name, rest) =>
        var u := SkipSpace(rest);
        if u == [] || u[0] != ':' then Fail
        else
          match ParseValue(u[1..])
          case Fail => Fail
          case Done(j, rest') => Done((name, j), rest')
  }

  /** A whole document: one value with nothing but white space around it. */
  function Parse(s: string): Option<Json> {
    match ParseValue(s)
    case Done(j, rest) => if SkipSpace(rest) == [] then Some(j) else None
    case Fail => None
  }
}
