/** What the printer writes is of the grammar, so the reader gives back what was printed. */
module JsonPrint {
  import opened Wrappers
  import opened Decimal
  import opened Hex
  import opened Json
  import opened JsonGrammar

  /** Every number in the value is spelled as one. */
  ghost predicate Printable(j: Json)
    decreases j
  {
    match j
    case Number(raw) => IsNumber(raw)
    case Array(items) => forall x :: x in items ==> Printable(x)
    case Object(members) => forall m :: m in members ==> PrintableMember(m)
    case _ => true
  }

  ghost predicate PrintableMember(m: (string, Json))
    decreases m
  {
    assert m.1 < m;
    Printable(m.1)
  }

  lemma ShowIsNumber(n: nat)
    ensures IsNumber(Show(n))
  {
    assert NumberParts([] + Show(n) + [] + [], [], Show(n), [], []);
    assert [] + Show(n) + [] + [] == Show(n);
  }

  // ----- strings

  lemma ControlIsEscaped(c: char)
    requires c < ' '
    ensures IsHex4("00" + [HexDigit(c as int / 16), HexDigit(c as int % 16)], c as int)
  {
    assert HexValue('0') == Some(0);
  }

  lemma EscapeSpellsChar(c: char)
    ensures SpellsChar(c, EscapeChar(c))
  {
    if c < ' ' && |EscapeChar(c)| == 6 {
      ControlIsEscaped(c);
      assert EscapeChar(c)[2..] == "00" + [HexDigit(c as int / 16), HexDigit(c as int % 16)];
    }
  }

  lemma {:induction false} EscapeSpells(cs: string)
    ensures SpellsChars(cs, Escape(cs))
  {
    if cs != [] {
      EscapeSpells(cs[1..]);
      EscapeSpellsChar(cs[0]);
      assert FirstChar(cs, Escape(cs), EscapeChar(cs[0]), Escape(cs[1..]));
    }
  }

  lemma QuoteSpells(cs: string)
    ensures SpellsString(cs, Quote(cs))
  {
    EscapeSpells(cs);
  }

  /** Any quoted text is undone by the reader. */
  lemma StringRoundTrip(cs: string, rest: string)
    ensures ParseString(Escape(cs) + "\"" + rest) == Done(cs, rest)
  {
    EscapeSpells(cs);
    CharsAreRead(cs, Escape(cs), rest);
  }

  // ----- values

  lemma {:induction false} PrintedIsSpelled(j: Json)
    requires Printable(j)
    ensures Spells(j, Text(j))
    decreases j, 0
  {
    match j
    case String(cs) => QuoteSpells(cs);
    case Array(items) =>
      if items == [] {
        assert Space([]) && Text(j) == "[" + [] + "]";
      } else {
        ItemsAreSpelledOut(items);
      }
    case Object(members) =>
      if members == [] {
        assert Space([]) && Text(j) == "{" + [] + "}";
      } else {
        MembersAreSpelledOut(members);
      }
    case _ =>
  }

  lemma {:induction false} ItemsAreSpelledOut(items: seq<Json>)
    requires items != [] && forall x :: x in items ==> Printable(x)
    ensures SpellsItems(items, ItemsText(items))
    decreases items, 1
  {
    var v, more := Text(items[0]), if |items| == 1 then [] else ItemsText(items[1..]);
    PrintedIsSpelled(items[0]);
    if |items| > 1 {
      ItemsAreSpelledOut(items[1..]);
    }
    assert [] + v + [] == v;
    assert FirstItem(items, ItemsText(items), [], v, [], more);
  }

  lemma {:induction false} MembersAreSpelledOut(members: seq<(string, Json)>)
    requires members != [] && forall m :: m in members ==> PrintableMember(m)
    ensures SpellsMembers(members, MembersText(members))
    decreases members, 1
  {
    var m, more := MemberText(members[0]), if |members| == 1 then [] else MembersText(members[1..]);
    MemberIsSpelledOut(members[0]);
    if |members| > 1 {
      MembersAreSpelledOut(members[1..]);
    }
    assert m + [] == m;
    assert FirstMember(members, MembersText(members), m, [], more);
  }

  lemma {:induction false} MemberIsSpelledOut(m: (string, Json))
    requires PrintableMember(m)
    ensures SpellsMember(m, MemberText(m))
    decreases m, 0
  {
    assert m.1 < m;
    PrintedIsSpelled(m.1);
    QuoteSpells(m.0);
    assert [] + Quote(m.0) + [] + ":" + [] + Text(m.1) == MemberText(m);
    assert MemberParts(m, MemberText(m), [], Quote(m.0), [], [], Text(m.1));
  }

  /** Printing any value and reading it back gives the value. */
  lemma RoundTrip(j: Json)
    requires Printable(j)
    ensures Parse(Text(j)) == Some(j)
  {
    PrintedIsSpelled(j);
    assert [] + Text(j) + [] == Text(j);
    assert DocumentParts(j, Text(j), [], Text(j), []);
    ReadsExactlyTheGrammar(Text(j), j);
  }

  // ----- printed text is one line

  predicate NoControl(s: string) {
    forall k :: 0 <= k < |s| ==> s[k] >= ' '
  }

  lemma NumberHasNoControl(raw: string)
    requires IsNumber(raw)
    ensures NoControl(raw)
  {
    var sign, whole, frac, exp :| NumberParts(raw, sign, whole, frac, exp);
    assert NoControl(sign) && NoControl(whole);
    assert frac != [] ==> frac == [frac[0]] + frac[1..];
    assert NoControl(frac);
    ExponentHasNoControl(exp);
  }

  lemma ExponentHasNoControl(exp: string)
    requires IsExponent(exp)
    ensures NoControl(exp)
  {
    if exp != [] {
      assert exp == [exp[0]] + exp[1..];
      assert exp[1] in {'+', '-'} ==> exp == [exp[0], exp[1]] + exp[2..];
    }
  }

  lemma {:induction false} QuoteHasNoControl(s: string)
    ensures NoControl(Escape(s)) && NoControl(Quote(s))
  {
    if s != [] {
      QuoteHasNoControl(s[1..]);
      assert NoControl(EscapeChar(s[0]));
    }
  }

  /** Every control character, the newline among them, is escaped in printed text. */
  lemma {:induction false} TextHasNoControl(j: Json)
    requires Printable(j)
    ensures NoControl(Text(j))
    decreases j, 0
  {
    match j
    case Number(raw) => NumberHasNoControl(raw);
    case String(s) => QuoteHasNoControl(s);
    case Array(items) => if items != [] { ItemsHaveNoControl(items); }
    case Object(members) => if members != [] { MembersHaveNoControl(members); }
    case _ =>
  }

  lemma {:induction false} ItemsHaveNoControl(items: seq<Json>)
    requires items != [] && forall x :: x in items ==> Printable(x)
    ensures NoControl(ItemsText(items))
    decreases items, 1
  {
    TextHasNoControl(items[0]);
    if |items| > 1 {
      ItemsHaveNoControl(items[1..]);
    }
  }

  lemma {:induction false} MembersHaveNoControl(members: seq<(string, Json)>)
    requires members != [] && forall m :: m in members ==> PrintableMember(m)
    ensures NoControl(MembersText(members))
    decreases members, 1
  {
    MemberHasNoControl(members[0]);
    if |members| > 1 {
      MembersHaveNoControl(members[1..]);
    }
  }

  lemma {:induction false} MemberHasNoControl(m: (string, Json))
    requires PrintableMember(m)
    ensures NoControl(MemberText(m))
    decreases m, 0
  {
    assert m.1 < m;
    QuoteHasNoControl(m.0);
    TextHasNoControl(m.1);
  }
}
