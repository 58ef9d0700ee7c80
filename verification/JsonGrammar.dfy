/**
 The grammar of JSON text (RFC 8259, sections 2 to 7) as a relation between values and texts, and the
 proof that the reader accepts exactly that grammar.
 */
module JsonGrammar {
  import opened Wrappers
  import opened Decimal
  import opened Hex
  import opened Json

  // ----- the grammar

  /** Section 2: white space. */
  predicate Space(s: string) {
    forall k :: 0 <= k < |s| ==> s[k] in {' ', '\t', '\n', '\r'}
  }

  /** Section 7: a character below U+10000 as four hexadecimal digits. */
  predicate IsHex4(s: string, n: nat) {
    && |s| == 4 && (forall k :: 0 <= k < 4 ==> HexValue(s[k]).Some?)
    && n == ((HexValue(s[0]).value * 16 + HexValue(s[1]).value) * 16 + HexValue(s[2]).value) * 16 + HexValue(s[3]).value
  }

  /** Section 7: the character stands for itself, or is escaped in one of the ways there are. */
  predicate SpellsChar(c: char, e: string) {
    var n := c as int;
    || (e == [c] && c >= ' ' && c != '\"' && c != '\\')
    || (|e| == 2 && e[0] == '\\' &&
        (n, e[1]) in {(0x22, '\"'), (0x5C, '\\'), (0x2F, '/'), (8, 'b'), (12, 'f'), (10, 'n'), (13, 'r'), (9, 't')})
    || (|e| == 6 && e[..2] == "\\u" && IsHex4(e[2..], n))
    || (|e| == 12 && e[..2] == "\\u" && e[6..8] == "\\u" && n >= 0x10000 &&
        IsHex4(e[2..6], 0xD800 + (n - 0x10000) / 0x400) && IsHex4(e[8..], 0xDC00 + (n - 0x10000) % 0x400))
  }

  ghost predicate SpellsChars(cs: string, s: string)
    decreases cs, 1
  {
    if cs == [] then s == [] else exists e, more :: FirstChar(cs, s, e, more)
  }

  ghost predicate FirstChar(cs: string, s: string, e: string, more: string)
    requires cs != []
    decreases cs, 0
  {
    s == e + more && SpellsChar(cs[0], e) && SpellsChars(cs[1..], more)
  }

  ghost predicate SpellsString(cs: string, s: string) {
    exists body :: SpellsChars(cs, body) && s == "\"" + body + "\""
  }

  /** Section 6: no superfluous leading zero, digits on both sides of a point and after an exponent. */
  predicate NumberParts(raw: string, sign: string, whole: string, frac: string, exp: string) {
    && raw == sign + whole + frac + exp && (sign == "" || sign == "-")
    && whole != [] && AllDigits(whole) && (|whole| > 1 ==> whole[0] != '0')
    && (frac == [] || (|frac| >= 2 && frac[0] == '.' && AllDigits(frac[1..])))
    && IsExponent(exp)
  }

  predicate IsExponent(exp: string) {
    exp == [] ||
    (|exp| >= 2 && exp[0] in {'e', 'E'} &&
     if exp[1] in {'+', '-'} then |exp| >= 3 && AllDigits(exp[2..]) else AllDigits(exp[1..]))
  }

  ghost predicate IsNumber(raw: string) {
    exists sign, whole, frac, exp :: NumberParts(raw, sign, whole, frac, exp)
  }

  /** Sections 3 to 5. */
  ghost predicate Spells(j: Json, s: string)
    decreases j, 0
  {
    match j
    case Null => s == "null"
    case Bool(b) => s == if b then "true" else "false"
    case Number(raw) => s == raw && IsNumber(raw)
    case String(cs) => SpellsString(cs, s)
    case Array(items) =>
      if items == [] then exists gap :: Space(gap) && s == "[" + gap + "]"
      else exists inner :: SpellsItems(items, inner) && s == "[" + inner
    case Object(members) =>
      if members == [] then exists gap :: Space(gap) && s == "{" + gap + "}"
      else exists inner :: SpellsMembers(members, inner) && s == "{" + inner
  }

  /** The rest of an array, from an item on. */
  ghost predicate SpellsItems(items: seq<Json>, s: string)
    requires items != []
    decreases items, 2
  {
    exists lead, v, gap, more :: FirstItem(items, s, lead, v, gap, more)
  }

  ghost predicate FirstItem(items: seq<Json>, s: string, lead: string, v: string, gap: string, more: string)
    requires items != []
    decreases items, 1
  {
    && Space(lead) && Space(gap) && Spells(items[0], v)
    && if |items| == 1 then s == lead + v + gap + "]"
       else s == lead + v + gap + "," + more && SpellsItems(items[1..], more)
  }

  /** The rest of an object, from a member on. */
  ghost predicate SpellsMembers(members: seq<(string, Json)>, s: string)
    requires members != []
    decreases members, 2
  {
    exists m, gap, more :: FirstMember(members, s, m, gap, more)
  }

  ghost predicate FirstMember(members: seq<(string, Json)>, s: string, m: string, gap: string, more: string)
    requires members != []
    decreases members, 1
  {
    && Space(gap) && SpellsMember(members[0], m)
    && if |members| == 1 then s == m + gap + "}"
       else s == m + gap + "," + more && SpellsMembers(members[1..], more)
  }

  ghost predicate SpellsMember(m: (string, Json), s: string)
    decreases m, 1
  {
    exists lead, name, gap, lead', v :: MemberParts(m, s, lead, name, gap, lead', v)
  }

  ghost predicate MemberParts(m: (string, Json), s: string, lead: string, name: string, gap: string,
                              lead': string, v: string)
    decreases m, 0
  {
    assert m.1 < m;
    && Space(lead) && Space(gap) && Space(lead') && SpellsString(m.0, name) && Spells(m.1, v)
    && s == lead + name + gap + ":" + lead' + v
  }

  ghost predicate DocumentParts(j: Json, s: string, lead: string, v: string, trail: string) {
    Space(lead) && Space(trail) && Spells(j, v) && s == lead + v + trail
  }

  /** A text is a document for a value. */
  ghost predicate SpellsDocument(j: Json, s: string) {
    exists lead, v, trail :: DocumentParts(j, s, lead, v, trail)
  }

  /** What may follow a value: nothing that would continue a number. */
  predicate Ends(rest: string) {
    rest != [] ==> !IsDigit(rest[0]) && rest[0] != '.' && rest[0] != 'e' && rest[0] != 'E'
  }

  // ----- every text of the grammar is read: characters and numbers

  lemma Regroup(a: string, b: string, c: string)
    ensures a + b + c == a + (b + c)
  {
  }

  lemma RegroupNumber(a: string, b: string, c: string, d: string, e: string)
    ensures a + b + c + d + e == a + (b + (c + (d + e)))
  {
    Regroup(a + b + c, d, e);
    Regroup(a + b, c, d + e);
    Regroup(a, b, c + (d + e));
  }

  lemma {:induction false} SkipsSpace(lead: string, s: string)
    requires Space(lead) && (s != [] ==> !IsSpace(s[0]))
    ensures SkipSpace(lead + s) == s
  {
    if lead == [] {
      assert lead + s == s;
    } else {
      assert (lead + s)[1..] == lead[1..] + s;
      assert lead[0] in {' ', '\t', '\n', '\r'};
      SkipsSpace(lead[1..], s);
    }
  }

  lemma Hex4IsRead(s: string, n: nat, more: string)
    requires IsHex4(s, n)
    ensures ParseHex4(s + more) == Done(n, more)
  {
    assert (s + more)[4..] == more;
  }

  lemma PairParts(e: string, more: string)
    requires |e| == 12 && e[..2] == "\\u" && e[6..8] == "\\u"
    ensures (e[1..] + more)[1..] == e[2..6] + ("\\u" + (e[8..] + more))
    ensures ("\\u" + (e[8..] + more))[..2] == "\\u" && ("\\u" + (e[8..] + more))[2..] == e[8..] + more
  {
    assert e == e[..2] + e[2..6] + e[6..8] + e[8..];
  }

  lemma PairIsRead(c: char, e: string, more: string)
    requires |e| == 12 && SpellsChar(c, e)
    ensures ParseEscape(e[1..] + more) == Done(c, more)
  {
    var n := c as int;
    PairParts(e, more);
    Hex4IsRead(e[2..6], 0xD800 + (n - 0x10000) / 0x400, "\\u" + (e[8..] + more));
    Hex4IsRead(e[8..], 0xDC00 + (n - 0x10000) % 0x400, more);
    assert (e[1..] + more)[0] == 'u';
  }

  lemma EscapeIsRead(c: char, e: string, more: string)
    requires SpellsChar(c, e) && e[0] == '\\'
    ensures ParseEscape(e[1..] + more) == Done(c, more)
  {
    var t := e[1..] + more;
    if |e| == 2 {
      assert t == [e[1]] + more && t[1..] == more;
    } else if |e| == 6 {
      assert t[1..] == e[2..] + more;
      Hex4IsRead(e[2..], c as int, more);
    } else {
      PairIsRead(c, e, more);
    }
  }

  lemma CharThenRest(c: char, e: string, tail: string, cs: string, rest: string)
    requires SpellsChar(c, e) && ParseString(tail) == Done(cs, rest)
    ensures ParseString(e + tail) == Done([c] + cs, rest)
  {
    assert (e + tail)[1..] == e[1..] + tail;
    if e[0] == '\\' {
      EscapeIsRead(c, e, tail);
    } else {
      assert e[1..] + tail == tail;
    }
  }

  lemma {:induction false} CharsAreRead(cs: string, s: string, rest: string)
    requires SpellsChars(cs, s)
    ensures ParseString(s + "\"" + rest) == Done(cs, rest)
    decreases cs
  {
    if cs == [] {
      assert s + "\"" + rest == "\"" + rest;
    } else {
      var e, more :| FirstChar(cs, s, e, more);
      CharsAreRead(cs[1..], more, rest);
      CharThenRest(cs[0], e, more + "\"" + rest, cs[1..], rest);
      Regroup(e, more, "\"");
      Regroup(e, more + "\"", rest);
      assert [cs[0]] + cs[1..] == cs;
    }
  }

  lemma {:induction false} DigitsAreRead(ds: string, rest: string)
    requires AllDigits(ds) && (rest != [] ==> !IsDigit(rest[0]))
    ensures Digits(ds + rest) == ds
  {
    if ds == [] {
      assert ds + rest == rest;
    } else {
      DigitsAreRead(ds[1..], rest);
      assert (ds + rest)[1..] == ds[1..] + rest;
      assert [ds[0]] + ds[1..] == ds;
    }
  }

  lemma ExponentIsRead(exp: string, rest: string)
    requires IsExponent(exp) && Ends(rest)
    ensures ParseExponent(exp + rest) == Done(exp, rest)
  {
    var t := exp + rest;
    if exp == [] {
      assert t == rest;
    } else {
      var n := if exp[1] in {'+', '-'} then 2 else 1;
      var head, ds := exp[..n], exp[n..];
      assert n == 1 ==> IsDigit(exp[1..][0]);
      assert exp == head + ds;
      Regroup(head, ds, rest);
      assert t[..n] == head && t[n..] == ds + rest;
      DigitsAreRead(ds, rest);
      assert (ds + rest)[|ds|..] == rest;
    }
  }

  lemma FractionIsRead(frac: string, rest: string)
    requires frac == [] || (|frac| >= 2 && frac[0] == '.' && AllDigits(frac[1..]))
    requires rest != [] ==> !IsDigit(rest[0]) && rest[0] != '.'
    ensures ParseFraction(frac + rest) == Done(frac, rest)
  {
    var t := frac + rest;
    if frac == [] {
      assert t == rest;
    } else {
      assert t[1..] == frac[1..] + rest;
      DigitsAreRead(frac[1..], rest);
      assert "." + frac[1..] == frac && t[1..][|frac[1..]|..] == rest;
    }
  }

  lemma WholeIsRead(whole: string, rest: string)
    requires whole != [] && AllDigits(whole) && (|whole| > 1 ==> whole[0] != '0')
    requires rest != [] ==> !IsDigit(rest[0])
    ensures ParseWhole(whole + rest) == Done(whole, rest)
  {
    DigitsAreRead(whole, rest);
    assert (whole + rest)[|whole|..] == rest;
  }

  lemma SignIsRead(sign: string, rest: string)
    requires (sign == "" || sign == "-") && (rest != [] ==> rest[0] != '-')
    ensures ParseSign(sign + rest) == Done(sign, rest)
  {
    assert sign == "" ==> sign + rest == rest;
    assert sign == "-" ==> (sign + rest)[1..] == rest;
  }

  /** The start of a number's fraction or exponent, or of what follows it, is no digit. */
  lemma PartsEnd(frac: string, exp: string, rest: string)
    requires frac == [] || frac[0] == '.'
    requires IsExponent(exp) && Ends(rest)
    ensures var r2 := exp + rest; r2 != [] ==> !IsDigit(r2[0]) && r2[0] != '.'
    ensures var r1 := frac + (exp + rest); r1 != [] ==> !IsDigit(r1[0])
  {
  }

  lemma PartsAreRead(sign: string, whole: string, frac: string, exp: string, rest: string)
    requires NumberParts(sign + whole + frac + exp, sign, whole, frac, exp) && Ends(rest)
    ensures ParseNumber(sign + (whole + (frac + (exp + rest)))) == Done(sign + whole + frac + exp, rest)
  {
    PartsEnd(frac, exp, rest);
    ExponentIsRead(exp, rest);
    FractionIsRead(frac, exp + rest);
    WholeIsRead(whole, frac + (exp + rest));
    assert (whole + (frac + (exp + rest)))[0] == whole[0];
    SignIsRead(sign, whole + (frac + (exp + rest)));
  }

  lemma NumberIsRead(raw: string, rest: string)
    requires IsNumber(raw) && Ends(rest)
    ensures ParseNumber(raw + rest) == Done(raw, rest)
  {
    var sign, whole, frac, exp :| NumberParts(raw, sign, whole, frac, exp);
    PartsAreRead(sign, whole, frac, exp, rest);
    RegroupNumber(sign, whole, frac, exp, rest);
  }

  lemma NumberStarts(raw: string)
    requires IsNumber(raw)
    ensures raw != [] && (raw[0] == '-' || IsDigit(raw[0]))
  {
    var sign, whole, frac, exp :| NumberParts(raw, sign, whole, frac, exp);
    assert sign == "" ==> raw[0] == whole[0];
  }

  // ----- every text of the grammar is read: values

  lemma RegroupTail(a: string, b: string, c: string, d: string, e: string)
    ensures a + b + c + e == a + (b + c + e)
    ensures a + b + c + d + e == a + (b + c + (d + e))
  {
    Regroup(a, b, c);
    Regroup(a, b + c, e);
    Regroup(a + b + c, d, e);
    Regroup(a, b + c, d + e);
  }

  /** The first character of a value is no white space and closes nothing. */
  lemma ValueStarts(j: Json, s: string)
    requires Spells(j, s)
    ensures s != [] && !IsSpace(s[0]) && s[0] != ']' && s[0] != '}'
    ensures j.Array? <==> s[0] == '['
    ensures j.Object? <==> s[0] == '{'
  {
    match j
    case Number(raw) => NumberStarts(raw);
    case _ =>
  }

  lemma WordIsRead(word: string, j: Json, rest: string)
    requires word != []
    ensures ParseLiteral(word + rest, word, j) == Done(j, rest)
  {
    assert word <= word + rest && (word + rest)[|word|..] == rest;
  }

  lemma StringIsRead(cs: string, s: string, rest: string)
    requires SpellsString(cs, s)
    ensures s[0] == '\"' && ParseString((s + rest)[1..]) == Done(cs, rest)
  {
    var body :| SpellsChars(cs, body) && s == "\"" + body + "\"";
    CharsAreRead(cs, body, rest);
    assert (s + rest)[1..] == body + "\"" + rest;
  }

  lemma NumberTokenIsRead(raw: string, rest: string)
    requires IsNumber(raw) && Ends(rest)
    ensures ParseToken(raw + rest) == Done(Number(raw), rest)
  {
    NumberStarts(raw);
    NumberIsRead(raw, rest);
    assert (raw + rest)[0] == raw[0];
    assert raw[0] !in {'{', '[', 'n', 't', 'f', '\"'};
  }

  lemma StringTokenIsRead(cs: string, s: string, rest: string)
    requires SpellsString(cs, s)
    ensures ParseToken(s + rest) == Done(String(cs), rest)
  {
    StringIsRead(cs, s, rest);
    assert (s + rest)[0] == s[0];
  }

  lemma ScalarIsRead(j: Json, s: string, rest: string)
    requires Spells(j, s) && Ends(rest) && !j.Array? && !j.Object?
    ensures ParseToken(s + rest) == Done(j, rest)
  {
    match j
    case Null => WordIsRead("null", j, rest);
    case Bool(b) => WordIsRead(s, j, rest);
    case Number(raw) => NumberTokenIsRead(raw, rest);
    case String(cs) => StringTokenIsRead(cs, s, rest);
  }

  /** A value behind white space. */
  lemma ValueIsRead(j: Json, lead: string, s: string, rest: string)
    requires Space(lead) && Spells(j, s) && ParseToken(s + rest) == Done(j, rest)
    ensures ParseValue(lead + s + rest) == Done(j, rest)
    ensures SkipSpace(lead + s + rest) == s + rest && (s + rest)[0] == s[0]
  {
    ValueStarts(j, s);
    Regroup(lead, s, rest);
    SkipsSpace(lead, s + rest);
  }

  lemma {:induction false} TokenIsRead(j: Json, s: string, rest: string)
    requires Spells(j, s) && Ends(rest)
    ensures ParseToken(s + rest) == Done(j, rest)
    decreases j, 0
  {
    match j
    case Array(items) =>
      if items == [] {
        var gap :| Space(gap) && s == "[" + gap + "]";
        assert (s + rest)[1..] == gap + ("]" + rest);
        SkipsSpace(gap, "]" + rest);
      } else {
        var inner :| SpellsItems(items, inner) && s == "[" + inner;
        assert (s + rest)[1..] == inner + rest;
        ItemsAreRead(items, inner, rest);
        ItemsStart(items, inner, rest);
      }
    case Object(members) =>
      if members == [] {
        var gap :| Space(gap) && s == "{" + gap + "}";
        assert (s + rest)[1..] == gap + ("}" + rest);
        SkipsSpace(gap, "}" + rest);
      } else {
        var inner :| SpellsMembers(members, inner) && s == "{" + inner;
        assert (s + rest)[1..] == inner + rest;
        MembersAreRead(members, inner, rest);
        MembersStart(members, inner, rest);
      }
    case _ => ScalarIsRead(j, s, rest);
  }

  /** What follows an item or a member: white space, and then a comma or a bracket. */
  lemma GapEnds(gap: string, c: char, more: string)
    requires Space(gap) && c in {',', ']', '}'}
    ensures Ends(gap + [c] + more) && SkipSpace(gap + [c] + more) == [c] + more
    ensures ([c] + more)[1..] == more
  {
    assert gap + [c] + more == gap + ([c] + more);
    SkipsSpace(gap, [c] + more);
    assert gap != [] ==> gap[0] in {' ', '\t', '\n', '\r'};
  }

  lemma ItemThenRest(s: string, j: Json, gap: string, c: char, tail: string, js: seq<Json>, rest: string)
    requires Space(gap) && ParseValue(s) == Done(j, gap + [c] + tail)
    requires if js == [] then c == ']' && tail == rest else c == ',' && ParseItems(tail) == Done(js, rest)
    ensures ParseItems(s) == Done([j] + js, rest)
  {
    GapEnds(gap, c, tail);
    assert js == [] ==> [j] + js == [j];
  }

  /** How an item's text goes on behind its value. */
  function ItemTail(gap: string, last: bool, close: char, more: string, rest: string): string {
    gap + [if last then close else ','] + if last then rest else more + rest
  }

  lemma ItemSplits(items: seq<Json>, s: string, lead: string, v: string, gap: string, more: string, rest: string)
    requires items != [] && FirstItem(items, s, lead, v, gap, more)
    ensures s + rest == lead + v + ItemTail(gap, |items| == 1, ']', more, rest)
    ensures Ends(ItemTail(gap, |items| == 1, ']', more, rest))
  {
    GapEnds(gap, if |items| == 1 then ']' else ',', if |items| == 1 then rest else more + rest);
    RegroupTail(lead + v, gap, if |items| == 1 then "]" else ",", more, rest);
  }

  lemma ItemsStart(items: seq<Json>, s: string, rest: string)
    requires items != [] && SpellsItems(items, s)
    ensures SkipSpace(s + rest) != [] && SkipSpace(s + rest)[0] != ']'
  {
    var lead, v, gap, more :| FirstItem(items, s, lead, v, gap, more);
    var tail := ItemTail(gap, |items| == 1, ']', more, rest);
    ItemSplits(items, s, lead, v, gap, more, rest);
    ValueStarts(items[0], v);
    Regroup(lead, v, tail);
    SkipsSpace(lead, v + tail);
  }

  lemma {:induction false} ItemsAreRead(items: seq<Json>, s: string, rest: string)
    requires items != [] && SpellsItems(items, s)
    ensures ParseItems(s + rest) == Done(items, rest)
    decreases items, 1
  {
    var lead, v, gap, more :| FirstItem(items, s, lead, v, gap, more);
    var c, tail := if |items| == 1 then ']' else ',', if |items| == 1 then rest else more + rest;
    ItemSplits(items, s, lead, v, gap, more, rest);
    TokenIsRead(items[0], v, gap + [c] + tail);
    ValueIsRead(items[0], lead, v, gap + [c] + tail);
    if |items| > 1 {
      ItemsAreRead(items[1..], more, rest);
    }
    ItemThenRest(s + rest, items[0], gap, c, tail, items[1..], rest);
    assert [items[0]] + items[1..] == items;
  }

  lemma MemberThenRest(s: string, m: (string, Json), gap: string, c: char, tail: string,
                       ms: seq<(string, Json)>, rest: string)
    requires Space(gap) && ParseMember(s) == Done(m, gap + [c] + tail)
    requires if ms == [] then c == '}' && tail == rest else c == ',' && ParseMembers(tail) == Done(ms, rest)
    ensures ParseMembers(s) == Done([m] + ms, rest)
  {
    GapEnds(gap, c, tail);
    assert ms == [] ==> [m] + ms == [m];
  }

  lemma MembersStart(members: seq<(string, Json)>, s: string, rest: string)
    requires members != [] && SpellsMembers(members, s)
    ensures SkipSpace(s + rest) != [] && SkipSpace(s + rest)[0] == '\"'
  {
    var m, gap, more :| FirstMember(members, s, m, gap, more);
    var tail := if |members| == 1 then gap + "}" + rest else gap + "," + more + rest;
    MemberStarts(members[0], m, tail);
    assert s + rest == m + tail;
  }

  lemma MemberStarts(m: (string, Json), s: string, rest: string)
    requires SpellsMember(m, s)
    ensures SkipSpace(s + rest) != [] && SkipSpace(s + rest)[0] == '\"'
  {
    var lead, name, gap, lead', v :| MemberParts(m, s, lead, name, gap, lead', v);
    var tail := gap + ":" + lead' + v + rest;
    assert s + rest == lead + name + tail;
    NameIsRead(m.0, lead, name, tail);
  }

  lemma MemberSplits(members: seq<(string, Json)>, s: string, m: string, gap: string, more: string, rest: string)
    requires members != [] && FirstMember(members, s, m, gap, more)
    ensures s + rest == m + ItemTail(gap, |members| == 1, '}', more, rest)
    ensures Ends(ItemTail(gap, |members| == 1, '}', more, rest))
  {
    GapEnds(gap, if |members| == 1 then '}' else ',', if |members| == 1 then rest else more + rest);
    RegroupTail(m, gap, if |members| == 1 then "}" else ",", more, rest);
  }

  lemma {:induction false} MembersAreRead(members: seq<(string, Json)>, s: string, rest: string)
    requires members != [] && SpellsMembers(members, s)
    ensures ParseMembers(s + rest) == Done(members, rest)
    decreases members, 1
  {
    var m, gap, more :| FirstMember(members, s, m, gap, more);
    var c, tail := if |members| == 1 then '}' else ',', if |members| == 1 then rest else more + rest;
    MemberSplits(members, s, m, gap, more, rest);
    MemberIsRead(members[0], m, gap + [c] + tail);
    if |members| > 1 {
      MembersAreRead(members[1..], more, rest);
    }
    MemberThenRest(s + rest, members[0], gap, c, tail, members[1..], rest);
    assert [members[0]] + members[1..] == members;
  }

  lemma NameIsRead(cs: string, lead: string, name: string, rest: string)
    requires Space(lead) && SpellsString(cs, name)
    ensures var t := SkipSpace(lead + name + rest);
            t != [] && t[0] == '\"' && ParseString(t[1..]) == Done(cs, rest)
  {
    var body :| SpellsChars(cs, body) && name == "\"" + body + "\"";
    assert lead + name + rest == lead + (name + rest);
    SkipsSpace(lead, name + rest);
    CharsAreRead(cs, body, rest);
    assert (name + rest)[1..] == body + "\"" + rest;
  }

  lemma {:induction false} MemberIsRead(m: (string, Json), s: string, rest: string)
    requires SpellsMember(m, s) && Ends(rest)
    ensures ParseMember(s + rest) == Done(m, rest)
    decreases m, 0
  {
    assert m.1 < m;
    var lead, name, gap, lead', v :| MemberParts(m, s, lead, name, gap, lead', v);
    var value := lead' + v + rest;
    var after := gap + ([':'] + value);
    assert s + rest == lead + name + after;
    NameIsRead(m.0, lead, name, after);
    SkipsSpace(gap, [':'] + value);
    assert ([':'] + value)[1..] == value;
    TokenIsRead(m.1, v, rest);
    ValueIsRead(m.1, lead', v, rest);
  }

  // ----- everything that is read is of the grammar

  lemma {:induction false} SkippedIsSpace(s: string) returns (lead: string)
    ensures Space(lead) && s == lead + SkipSpace(s)
    ensures SkipSpace(s) != [] ==> !IsSpace(SkipSpace(s)[0])
  {
    if s != [] && IsSpace(s[0]) {
      var more := SkippedIsSpace(s[1..]);
      lead := [s[0]] + more;
      assert s == [s[0]] + s[1..];
      Regroup([s[0]], more, SkipSpace(s));
      assert s[0] in {' ', '\t', '\n', '\r'};
    } else {
      lead := [];
    }
  }

  lemma Hex4IsSpelled(s: string)
    requires ParseHex4(s).Done?
    ensures |s| >= 4 && s[4..] == ParseHex4(s).rest && IsHex4(s[..4], ParseHex4(s).value)
  {
  }

  lemma PairText(h: string, l: string)
    requires |h| == 4 && |l| == 4
    ensures var e := "\\u" + h + "\\u" + l;
            |e| == 12 && e[..2] == "\\u" && e[2..6] == h && e[6..8] == "\\u" && e[8..] == l
  {
  }

  lemma PairValue(hi: nat, lo: nat)
    requires 0xD800 <= hi < 0xDC00 <= lo < 0xE000
    ensures var n := 0x10000 + (hi - 0xD800) * 0x400 + (lo - 0xDC00);
            0xD800 + (n - 0x10000) / 0x400 == hi && 0xDC00 + (n - 0x10000) % 0x400 == lo
  {
  }

  lemma SecondHalfIsSpelled(hi: nat, s: string) returns (l: string, lo: nat)
    requires ParsePair(hi, s).Done?
    ensures |l| == 4 && s == "\\u" + l + ParsePair(hi, s).rest && IsHex4(l, lo)
    ensures 0xD800 <= hi < 0xDC00 <= lo < 0xE000
    ensures ParsePair(hi, s).value as int == 0x10000 + (hi - 0xD800) * 0x400 + (lo - 0xDC00)
  {
    Hex4IsSpelled(s[2..]);
    l, lo := s[2..][..4], ParseHex4(s[2..]).value;
    assert s == s[..2] + (s[2..][..4] + s[2..][4..]);
  }

  lemma PairIsSpelled(c: char, h: string, hi: nat, l: string, lo: nat)
    requires IsHex4(h, hi) && IsHex4(l, lo) && 0xD800 <= hi < 0xDC00 <= lo < 0xE000
    requires c as int == 0x10000 + (hi - 0xD800) * 0x400 + (lo - 0xDC00)
    ensures SpellsChar(c, "\\u" + h + "\\u" + l)
  {
    PairText(h, l);
    PairValue(hi, lo);
  }

  lemma SingleIsSpelled(c: char, h: string)
    requires IsHex4(h, c as int)
    ensures SpellsChar(c, "\\u" + h)
  {
    assert ("\\u" + h)[2..] == h;
  }

  lemma EscapeText(h: string, l: string, rest: string)
    ensures "\\" + ("u" + h + rest) == "\\u" + h + rest
    ensures "\\u" + h + ("\\u" + l + rest) == "\\u" + h + "\\u" + l + rest
  {
  }

  lemma UnicodeIsSpelled(s: string) returns (e: string)
    requires s != [] && s[0] == 'u' && ParseEscape(s).Done?
    ensures "\\" + s == e + ParseEscape(s).rest && SpellsChar(ParseEscape(s).value, e)
  {
    Hex4IsSpelled(s[1..]);
    var h, hi, rest := s[1..][..4], ParseHex4(s[1..]).value, s[1..][4..];
    assert s == "u" + h + rest;
    EscapeText(h, [], rest);
    if hi < 0xD800 || 0xE000 <= hi {
      SingleIsSpelled(ParseEscape(s).value, h);
      e := "\\u" + h;
    } else {
      var l, lo := SecondHalfIsSpelled(hi, rest);
      PairIsSpelled(ParseEscape(s).value, h, hi, l, lo);
      EscapeText(h, l, ParseEscape(s).rest);
      e := "\\u" + h + "\\u" + l;
    }
  }

  lemma EscapeIsSpelled(s: string) returns (e: string)
    requires ParseEscape(s).Done?
    ensures "\\" + s == e + ParseEscape(s).rest && SpellsChar(ParseEscape(s).value, e)
  {
    if s[0] == 'u' {
      e := UnicodeIsSpelled(s);
    } else {
      e := "\\" + [s[0]];
      assert s == [s[0]] + s[1..];
    }
  }

  lemma CharSpelledThenRest(c: char, e: string, cs: string, more: string, rest: string)
    requires SpellsChar(c, e) && SpellsChars(cs, more)
    ensures SpellsChars([c] + cs, e + more)
    ensures e + (more + "\"" + rest) == e + more + "\"" + rest
  {
    assert ([c] + cs)[0] == c && ([c] + cs)[1..] == cs;
    assert FirstChar([c] + cs, e + more, e, more);
  }

  lemma {:induction false} StringIsSpelled(s: string) returns (body: string)
    requires ParseString(s).Done?
    ensures s == body + "\"" + ParseString(s).rest && SpellsChars(ParseString(s).value, body)
    decreases |s|
  {
    if s[0] == '\"' {
      body := [];
      assert s == [s[0]] + s[1..];
    } else {
      var c, e, tail := s[0], [s[0]], s[1..];
      assert s == [s[0]] + s[1..];
      if s[0] == '\\' {
        e := EscapeIsSpelled(s[1..]);
        c, tail := ParseEscape(s[1..]).value, ParseEscape(s[1..]).rest;
      }
      var more := StringIsSpelled(tail);
      CharSpelledThenRest(c, e, ParseString(tail).value, more, ParseString(tail).rest);
      body := e + more;
    }
  }

  lemma QuotedIsSpelled(s: string) returns (name: string)
    requires s != [] && s[0] == '\"' && ParseString(s[1..]).Done?
    ensures s == name + ParseString(s[1..]).rest && SpellsString(ParseString(s[1..]).value, name)
  {
    var body := StringIsSpelled(s[1..]);
    name := "\"" + body + "\"";
    assert s == "\"" + s[1..];
    RegroupTail("\"", body, "\"", [], ParseString(s[1..]).rest);
  }

  lemma DigitsSplit(s: string)
    ensures s == Digits(s) + s[|Digits(s)|..]
  {
  }

  lemma ExponentShape(head: string, ds: string)
    requires |head| == 1 || (|head| == 2 && head[1] in {'+', '-'})
    requires head[0] in {'e', 'E'} && ds != [] && AllDigits(ds)
    ensures IsExponent(head + ds)
  {
    assert (head + ds)[|head|..] == ds;
    assert |head| == 1 ==> (head + ds)[1] == ds[0];
  }

  lemma ExponentIsSpelled(s: string)
    requires ParseExponent(s).Done?
    ensures s == ParseExponent(s).value + ParseExponent(s).rest && IsExponent(ParseExponent(s).value)
  {
    if s != [] && (s[0] == 'e' || s[0] == 'E') {
      var n := if |s| >= 2 && (s[1] == '+' || s[1] == '-') then 2 else 1;
      var head, tail := s[..n], s[n..];
      var ds := Digits(tail);
      DigitsSplit(tail);
      Regroup(head, ds, tail[|ds|..]);
      ExponentShape(head, ds);
      assert ParseExponent(s) == Done(head + ds, tail[|ds|..]);
    }
  }

  lemma FractionIsSpelled(s: string)
    requires ParseFraction(s).Done?
    ensures s == ParseFraction(s).value + ParseFraction(s).rest
    ensures var frac := ParseFraction(s).value; frac == [] || (|frac| >= 2 && frac[0] == '.' && AllDigits(frac[1..]))
  {
    if s != [] && s[0] == '.' {
      DigitsSplit(s[1..]);
      assert s == "." + s[1..];
      assert ("." + Digits(s[1..]))[1..] == Digits(s[1..]);
    }
  }

  lemma NumberIsSpelled(s: string)
    requires ParseNumber(s).Done?
    ensures s == ParseNumber(s).value + ParseNumber(s).rest && IsNumber(ParseNumber(s).value)
  {
    var sign, r0 := ParseSign(s).value, ParseSign(s).rest;
    assert s == sign + r0;
    var whole, r1 := ParseWhole(r0).value, ParseWhole(r0).rest;
    DigitsSplit(r0);
    var frac, r2 := ParseFraction(r1).value, ParseFraction(r1).rest;
    FractionIsSpelled(r1);
    var exp, r3 := ParseExponent(r2).value, ParseExponent(r2).rest;
    ExponentIsSpelled(r2);
    RegroupNumber(sign, whole, frac, exp, r3);
    assert NumberParts(sign + whole + frac + exp, sign, whole, frac, exp);
  }

  lemma WordIsSpelled(s: string, word: string, j: Json)
    requires word != [] && ParseLiteral(s, word, j).Done?
    ensures s == word + ParseLiteral(s, word, j).rest && ParseLiteral(s, word, j).value == j
  {
  }

  lemma ScalarIsSpelled(s: string) returns (v: string)
    requires s != [] && ParseScalar(s).Done? && s[0] != '{' && s[0] != '['
    ensures s == v + ParseScalar(s).rest && Spells(ParseScalar(s).value, v)
  {
    if s[0] == 'n' {
      v := "null";
      WordIsSpelled(s, v, Null);
    } else if s[0] == 't' {
      v := "true";
      WordIsSpelled(s, v, Bool(true));
    } else if s[0] == 'f' {
      v := "false";
      WordIsSpelled(s, v, Bool(false));
    } else if s[0] == '\"' {
      v := QuotedIsSpelled(s);
    } else {
      NumberIsSpelled(s);
      v := ParseNumber(s).value;
    }
  }

  lemma {:induction false} TokenIsSpelled(s: string) returns (v: string)
    requires ParseToken(s).Done?
    ensures s == v + ParseToken(s).rest && Spells(ParseToken(s).value, v)
    decreases |s|, 0
  {
    if s[0] == '[' {
      v := ArrayIsSpelled(s[1..]);
      assert s == "[" + s[1..];
    } else if s[0] == '{' {
      v := ObjectIsSpelled(s[1..]);
      assert s == "{" + s[1..];
    } else {
      v := ScalarIsSpelled(s);
    }
  }

  lemma {:induction false} ValueIsSpelled(s: string) returns (lead: string, v: string)
    requires ParseValue(s).Done?
    ensures s == lead + v + ParseValue(s).rest && Space(lead) && Spells(ParseValue(s).value, v)
    decreases |s|, 1
  {
    lead := SkippedIsSpace(s);
    v := TokenIsSpelled(SkipSpace(s));
  }

  lemma EmptyIsSpelled(open: string, gap: string, close: string, u: string)
    requires u != [] && [u[0]] == close
    ensures open + (gap + u) == open + gap + close + u[1..]
  {
    assert u == close + u[1..];
  }

  lemma {:induction false} ArrayIsSpelled(s: string) returns (v: string)
    requires ParseArray(s).Done?
    ensures "[" + s == v + ParseArray(s).rest && Spells(ParseArray(s).value, v)
    decreases |s|, 3
  {
    var gap := SkippedIsSpace(s);
    var u := SkipSpace(s);
    if u != [] && u[0] == ']' {
      v := "[" + gap + "]";
      EmptyIsSpelled("[", gap, "]", u);
    } else {
      var inner := ItemsAreSpelled(s);
      v := "[" + inner;
    }
  }

  lemma {:induction false} ObjectIsSpelled(s: string) returns (v: string)
    requires ParseObject(s).Done?
    ensures "{" + s == v + ParseObject(s).rest && Spells(ParseObject(s).value, v)
    decreases |s|, 3
  {
    var gap := SkippedIsSpace(s);
    var u := SkipSpace(s);
    if u != [] && u[0] == '}' {
      v := "{" + gap + "}";
      EmptyIsSpelled("{", gap, "}", u);
    } else {
      var inner := MembersAreSpelled(s);
      v := "{" + inner;
    }
  }

  lemma ItemSpelledThenRest(j: Json, lead: string, v: string, gap: string, c: char, js: seq<Json>, more: string,
                            rest: string) returns (s: string)
    requires Space(lead) && Space(gap) && Spells(j, v)
    requires if js == [] then c == ']' && more == [] else c == ',' && SpellsItems(js, more)
    ensures SpellsItems([j] + js, s) && s + rest == lead + v + (gap + ([c] + (more + rest)))
  {
    s := lead + v + gap + [c] + more;
    assert ([j] + js)[0] == j && ([j] + js)[1..] == js;
    assert js == [] ==> s == lead + v + gap + "]";
    assert FirstItem([j] + js, s, lead, v, gap, more);
  }

  lemma {:induction false} ItemsAreSpelled(s: string) returns (v: string)
    requires ParseItems(s).Done?
    ensures ParseItems(s).value != [] && s == v + ParseItems(s).rest && SpellsItems(ParseItems(s).value, v)
    decreases |s|, 2
  {
    var lead, first := ValueIsSpelled(s);
    var j, after := ParseValue(s).value, ParseValue(s).rest;
    var gap := SkippedIsSpace(after);
    var t := SkipSpace(after);
    assert after == gap + ([t[0]] + t[1..]);
    if t[0] == ']' {
      v := ItemSpelledThenRest(j, lead, first, gap, ']', [], [], t[1..]);
      assert [j] + [] == [j] && [] + t[1..] == t[1..];
    } else {
      var more := ItemsAreSpelled(t[1..]);
      v := ItemSpelledThenRest(j, lead, first, gap, ',', ParseItems(t[1..]).value, more, ParseItems(t[1..]).rest);
    }
  }

  lemma MemberSpelledThenRest(m: (string, Json), first: string, gap: string, c: char, ms: seq<(string, Json)>,
                              more: string, rest: string) returns (s: string)
    requires Space(gap) && SpellsMember(m, first)
    requires if ms == [] then c == '}' && more == [] else c == ',' && SpellsMembers(ms, more)
    ensures SpellsMembers([m] + ms, s) && s + rest == first + (gap + ([c] + (more + rest)))
  {
    s := first + gap + [c] + more;
    assert ([m] + ms)[0] == m && ([m] + ms)[1..] == ms;
    assert ms == [] ==> s == first + gap + "}";
    assert FirstMember([m] + ms, s, first, gap, more);
  }

  lemma {:induction false} MembersAreSpelled(s: string) returns (v: string)
    requires ParseMembers(s).Done?
    ensures ParseMembers(s).value != [] && s == v + ParseMembers(s).rest && SpellsMembers(ParseMembers(s).value, v)
    decreases |s|, 2
  {
    var first := MemberIsSpelled(s);
    var m, after := ParseMember(s).value, ParseMember(s).rest;
    var gap := SkippedIsSpace(after);
    var t := SkipSpace(after);
    assert after == gap + ([t[0]] + t[1..]);
    if t[0] == '}' {
      v := MemberSpelledThenRest(m, first, gap, '}', [], [], t[1..]);
      assert [m] + [] == [m] && [] + t[1..] == t[1..];
    } else {
      var more := MembersAreSpelled(t[1..]);
      v := MemberSpelledThenRest(m, first, gap, ',', ParseMembers(t[1..]).value, more, ParseMembers(t[1..]).rest);
    }
  }

  lemma MemberSpelledBy(m: (string, Json), lead: string, name: string, gap: string, lead': string, v: string,
                        rest: string) returns (s: string)
    requires Space(lead) && Space(gap) && Space(lead') && SpellsString(m.0, name) && Spells(m.1, v)
    ensures SpellsMember(m, s) && s + rest == lead + (name + (gap + (":" + (lead' + v + rest))))
  {
    s := lead + name + gap + ":" + lead' + v;
    assert MemberParts(m, s, lead, name, gap, lead', v);
  }

  lemma {:induction false} MemberIsSpelled(s: string) returns (v: string)
    requires ParseMember(s).Done?
    ensures s == v + ParseMember(s).rest && SpellsMember(ParseMember(s).value, v)
    decreases |s|, 0
  {
    var lead := SkippedIsSpace(s);
    var t := SkipSpace(s);
    var name := QuotedIsSpelled(t);
    var after := ParseString(t[1..]).rest;
    var gap := SkippedIsSpace(after);
    var u := SkipSpace(after);
    assert u == ":" + u[1..];
    var lead', value := ValueIsSpelled(u[1..]);
    v := MemberSpelledBy(ParseMember(s).value, lead, name, gap, lead', value, ParseValue(u[1..]).rest);
  }

  // ----- documents

  lemma SpaceFirst(lead: string, rest: string)
    requires Space(lead)
    ensures lead == [] || (lead + rest)[0] in {' ', '\t', '\n', '\r'}
  {
  }

  lemma SpaceEnds(trail: string)
    requires Space(trail)
    ensures Ends(trail) && SkipSpace(trail) == []
  {
    SkipsSpace(trail, []);
    assert trail + [] == trail;
    assert trail != [] ==> trail[0] in {' ', '\t', '\n', '\r'};
  }

  /** The reader accepts exactly the texts of the grammar, and gives each its one value. */
  lemma ReadsExactlyTheGrammar(s: string, j: Json)
    ensures Parse(s) == Some(j) <==> SpellsDocument(j, s)
  {
    if Parse(s) == Some(j) {
      var lead, v := ValueIsSpelled(s);
      var trail := SkippedIsSpace(ParseValue(s).rest);
      assert trail == ParseValue(s).rest;
      assert DocumentParts(j, s, lead, v, trail);
    }
    if SpellsDocument(j, s) {
      var lead, v, trail :| DocumentParts(j, s, lead, v, trail);
      SpaceEnds(trail);
      TokenIsRead(j, v, trail);
      ValueIsRead(j, lead, v, trail);
    }
  }
}
