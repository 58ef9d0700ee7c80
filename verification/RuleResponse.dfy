/** The rule answers of src/rules/common.rs: reading a reply, writing one, and what it decides. */
module RuleResponse {
  import opened Wrappers
  import Decimal
  import Json
  import JsonGrammar
  import JsonPrint

  datatype AllowPolicy = Bool(b: bool) | Limited(maxTxBytes: nat)

  datatype RuleResponse = RuleResponse(allow: Option<AllowPolicy>, denyMessage: Option<string>)

  datatype Decision = Decision(allowed: bool, context: Option<string>, maxTxBytes: Option<nat>)

  /** `to_evaluation_result`. */
  function ToDecision(r: RuleResponse): Decision {
    match r.allow
    case Some(Bool(true)) => Decision(true, None, None)
    case Some(Bool(false)) => Decision(false, r.denyMessage, None)
    case Some(Limited(n)) => Decision(true, None, Some(n))
    case None => if r.denyMessage.None? then Decision(true, None, None) else Decision(false, r.denyMessage, None)
  }

  // ----- writing

  function PolicyJson(p: AllowPolicy): Json.Json {
    match p
    case Bool(b) => Json.Bool(b)
    case Limited(n) => Json.Object([("max_tx_bytes", Json.Number(Decimal.Show(n)))])
  }

  /** The derived serialiser: absent fields are skipped. */
  function ToJson(r: RuleResponse): Json.Json {
    Json.Object(
      (if r.allow.Some? then [("allow", PolicyJson(r.allow.value))] else []) +
      (if r.denyMessage.Some? then [("deny_message", Json.String(r.denyMessage.value))] else []))
  }

  function ToString(r: RuleResponse): string {
    Json.Text(ToJson(r))
  }

  // ----- reading

  /** `Value::as_u64`: a natural number without point, exponent or sign that fits. */
  function AsU64(raw: string): Option<nat> {
    if raw != [] && Decimal.AllDigits(raw) && Decimal.Read(raw) < U64 then Some(Decimal.Read(raw)) else None
  }

  /** The last member of that name, as in a map filled from left to right. */
  function Last(members: seq<(string, Json.Json)>, name: string): Option<Json.Json> {
    if members == [] then None
    else if members[|members| - 1].0 == name then Some(members[|members| - 1].1)
    else Last(members[..|members| - 1], name)
  }

  function PolicyFrom(j: Json.Json): Option<AllowPolicy> {
    match j
    case Bool(b) => Some(Bool(b))
    case Object(members) =>
      (match Last(members, "max_tx_bytes")
       case Some(Number(raw)) => (match AsU64(raw) case Some(n) => Some(Limited(n)) case None => None)
       case _ => None)
    case _ => None
  }

  /** An optional field: null is the absent value, anything else must be readable. */
  function AllowField(j: Json.Json): Result<Option<AllowPolicy>, ()> {
    if j.Null? then Ok(None)
    else match PolicyFrom(j) case Some(p) => Ok(Some(p)) case None => Err(())
  }

  function MessageField(j: Json.Json): Result<Option<string>, ()> {
    match j
    case Null => Ok(None)
    case String(s) => Ok(Some(s))
    case _ => Err(())
  }

  /** The two fields met so far, each with the value it was given. */
  datatype Fields = Fields(allow: Option<Option<AllowPolicy>>, message: Option<Option<string>>)

  /** The derived visitor over an object: a repeated field is an error, unknown ones are ignored. */
  function Visit(members: seq<(string, Json.Json)>): Result<Fields, ()> {
    if members == [] then Ok(Fields(None, None))
    else
      match Visit(members[..|members| - 1])
      case Err(_) => Err(())
      case Ok(f) =>
        var (name, j) := members[|members| - 1];
        if name == "allow" then
          match AllowField(j)
          case Ok(a) => if f.allow.Some? then Err(()) else Ok(f.(allow := Some(a)))
          case Err(_) => Err(())
        else if name == "deny_message" then
          match MessageField(j)
          case Ok(m) => if f.message.Some? then Err(()) else Ok(f.(message := Some(m)))
          case Err(_) => Err(())
        else Ok(f)
  }

  function OrAbsent<T>(x: Option<Option<T>>): Option<T> {
    if x.Some? then x.value else None
  }

  /** The derived deserialiser; a struct is also accepted as the array of its fields. */
  function FromJson(j: Json.Json): Option<RuleResponse> {
    match j
    case Object(members) =>
      (match Visit(members)
       case Ok(f) => Some(RuleResponse(OrAbsent(f.allow), OrAbsent(f.message)))
       case Err(_) => None)
    case Array(items) =>
      if |items| != 2 then None
      else
        (match (AllowField(items[0]), MessageField(items[1]))
         case (Ok(a), Ok(m)) => Some(RuleResponse(a, m))
         case _ => None)
    case _ => None
  }

  /** Unicode White_Space. */
  predicate IsWhite(c: char) {
    var n := c as int;
    9 <= n <= 13 || n == 0x20 || n == 0x85 || n == 0xA0 || n == 0x1680 || 0x2000 <= n <= 0x200A ||
    n == 0x2028 || n == 0x2029 || n == 0x202F || n == 0x205F || n == 0x3000
  }

  function TrimStart(s: string): string {
    if s != [] && IsWhite(s[0]) then TrimStart(s[1..]) else s
  }

  function TrimEnd(s: string): string {
    if s != [] && IsWhite(s[|s| - 1]) then TrimEnd(s[..|s| - 1]) else s
  }

  function Trim(s: string): string {
    TrimEnd(TrimStart(s))
  }

  function FromString(s: string): RuleResponse {
    var t := Trim(s);
    if t == "true" then RuleResponse(Some(Bool(true)), None)
    else if t == "false" then RuleResponse(Some(Bool(false)), None)
    else
      match Json.Parse(t)
      case Some(j) =>
        (match FromJson(j)
         case Some(r) => r
         case None => RuleResponse(Some(Bool(false)), Some(t)))
      case None => RuleResponse(Some(Bool(false)), Some(t))
  }

  // ----- what an answer is, field by field

  /** The policy that a value stands for: a boolean, or an object whose last limit is a 64-bit natural. */
  ghost predicate IsPolicy(j: Json.Json, p: AllowPolicy) {
    match p
    case Bool(b) => j == Json.Bool(b)
    case Limited(n) => j.Object? && exists k :: IsLimit(j.members, k, n)
  }

  predicate IsLimit(members: seq<(string, Json.Json)>, k: int, n: nat) {
    && 0 <= k < |members| && members[k].0 == "max_tx_bytes"
    && (forall l :: k < l < |members| ==> members[l].0 != "max_tx_bytes")
    && members[k].1.Number? && members[k].1.raw != [] && Decimal.AllDigits(members[k].1.raw)
    && n == Decimal.Read(members[k].1.raw) < U64
  }

  /** Null is the absent value. */
  ghost predicate IsAllow(j: Json.Json, a: Option<AllowPolicy>) {
    if a.None? then j.Null? else IsPolicy(j, a.value)
  }

  predicate IsMessage(j: Json.Json, m: Option<string>) {
    if m.None? then j.Null? else j == Json.String(m.value)
  }

  /** The members have no field of that name, or exactly the one at `k`. */
  predicate OnlyField(members: seq<(string, Json.Json)>, name: string, k: int) {
    && (forall l :: 0 <= l < |members| && members[l].0 == name ==> l == k)
    && (0 <= k < |members| ==> members[k].0 == name)
  }

  /** The answer that a value stands for: an object in which each of the two fields stands at most once
      and others are ignored, or an array of the two fields. */
  ghost predicate IsAnswer(j: Json.Json, r: RuleResponse) {
    match j
    case Object(members) =>
      && (exists k :: OnlyField(members, "allow", k) &&
            if 0 <= k < |members| then IsAllow(members[k].1, r.allow) else r.allow.None?)
      && (exists k :: OnlyField(members, "deny_message", k) &&
            if 0 <= k < |members| then IsMessage(members[k].1, r.denyMessage) else r.denyMessage.None?)
    case Array(items) => |items| == 2 && IsAllow(items[0], r.allow) && IsMessage(items[1], r.denyMessage)
    case _ => false
  }

  lemma {:induction false} LastIs(members: seq<(string, Json.Json)>, name: string) returns (k: int)
    ensures Last(members, name).None? ==> k == -1 && forall l :: 0 <= l < |members| ==> members[l].0 != name
    ensures Last(members, name).Some? ==>
              && 0 <= k < |members| && members[k].0 == name && Last(members, name).value == members[k].1
              && forall l :: k < l < |members| ==> members[l].0 != name
  {
    if members == [] {
      k := -1;
    } else if members[|members| - 1].0 == name {
      k := |members| - 1;
    } else {
      k := LastIs(members[..|members| - 1], name);
    }
  }

  lemma PolicyIff(j: Json.Json, p: AllowPolicy)
    ensures PolicyFrom(j) == Some(p) <==> IsPolicy(j, p)
  {
    if j.Object? {
      var k := LastIs(j.members, "max_tx_bytes");
      if PolicyFrom(j).Some? {
        assert IsLimit(j.members, k, PolicyFrom(j).value.maxTxBytes);
      }
      if p.Limited? && IsPolicy(j, p) {
        var l :| IsLimit(j.members, l, p.maxTxBytes);
        assert l == k;
      }
    }
  }

  lemma AllowFieldIff(j: Json.Json, a: Option<AllowPolicy>)
    ensures AllowField(j) == Ok(a) <==> IsAllow(j, a)
  {
    if a.Some? {
      PolicyIff(j, a.value);
    }
    if AllowField(j).Ok? && AllowField(j).value.Some? {
      PolicyIff(j, AllowField(j).value.value);
    }
  }

  /** What the visitor has met of one field. */
  ghost predicate Met<T>(members: seq<(string, Json.Json)>, name: string, seen: Option<T>,
                         read: Json.Json -> Result<T, ()>)
  {
    exists k :: OnlyField(members, name, k) &&
      if 0 <= k < |members| then seen.Some? && read(members[k].1) == Ok(seen.value) else seen.None?
  }

  lemma MetMore<T>(members: seq<(string, Json.Json)>, m: (string, Json.Json), name: string, seen: Option<T>,
                   read: Json.Json -> Result<T, ()>)
    requires Met(members, name, seen, read)
    ensures m.0 != name ==> Met(members + [m], name, seen, read)
    ensures m.0 == name && seen.None? && read(m.1).Ok? ==> Met(members + [m], name, Some(read(m.1).value), read)
  {
    var k :| OnlyField(members, name, k) &&
      if 0 <= k < |members| then seen.Some? && read(members[k].1) == Ok(seen.value) else seen.None?;
    if m.0 != name {
      assert OnlyField(members + [m], name, if 0 <= k < |members| then k else -1);
    } else if seen.None? {
      assert OnlyField(members + [m], name, |members|);
    }
  }

  lemma {:induction false} VisitMeets(members: seq<(string, Json.Json)>)
    requires Visit(members).Ok?
    ensures Met(members, "allow", Visit(members).value.allow, AllowField)
    ensures Met(members, "deny_message", Visit(members).value.message, MessageField)
    decreases |members|
  {
    if members == [] {
      assert OnlyField(members, "allow", -1) && OnlyField(members, "deny_message", -1);
    } else {
      var before, m := members[..|members| - 1], members[|members| - 1];
      VisitMeets(before);
      assert members == before + [m];
      MetMore(before, m, "allow", Visit(before).value.allow, AllowField);
      MetMore(before, m, "deny_message", Visit(before).value.message, MessageField);
    }
  }

  /** Each of the two fields stands at most once and can be read. */
  predicate Readable(members: seq<(string, Json.Json)>) {
    && (forall k :: 0 <= k < |members| && members[k].0 == "allow" ==> AllowField(members[k].1).Ok?)
    && (forall k :: 0 <= k < |members| && members[k].0 == "deny_message" ==> MessageField(members[k].1).Ok?)
    && (forall k, l :: 0 <= k < l < |members| && members[k].0 in {"allow", "deny_message"} ==>
          members[k].0 != members[l].0)
  }

  lemma {:induction false} VisitSucceeds(members: seq<(string, Json.Json)>)
    requires Readable(members)
    ensures Visit(members).Ok?
    decreases |members|
  {
    if members != [] {
      var before, m := members[..|members| - 1], members[|members| - 1];
      VisitSucceeds(before);
      VisitMeets(before);
      assert forall k :: 0 <= k < |before| ==> before[k] == members[k];
    }
  }

  lemma AnswerIsReadable(members: seq<(string, Json.Json)>, r: RuleResponse)
    requires IsAnswer(Json.Object(members), r)
    ensures Readable(members)
  {
    var k :| OnlyField(members, "allow", k) &&
      if 0 <= k < |members| then IsAllow(members[k].1, r.allow) else r.allow.None?;
    if 0 <= k < |members| {
      AllowFieldIff(members[k].1, r.allow);
    }
  }

  lemma AllowMet(members: seq<(string, Json.Json)>, seen: Option<Option<AllowPolicy>>, a: Option<AllowPolicy>)
    requires Met(members, "allow", seen, AllowField)
    ensures OrAbsent(seen) == a <==>
            exists k :: OnlyField(members, "allow", k) &&
              if 0 <= k < |members| then IsAllow(members[k].1, a) else a.None?
  {
    var k :| OnlyField(members, "allow", k) &&
      if 0 <= k < |members| then seen.Some? && AllowField(members[k].1) == Ok(seen.value) else seen.None?;
    if 0 <= k < |members| {
      AllowFieldIff(members[k].1, a);
    }
  }

  lemma MessageMet(members: seq<(string, Json.Json)>, seen: Option<Option<string>>, m: Option<string>)
    requires Met(members, "deny_message", seen, MessageField)
    ensures OrAbsent(seen) == m <==>
            exists k :: OnlyField(members, "deny_message", k) &&
              if 0 <= k < |members| then IsMessage(members[k].1, m) else m.None?
  {
    var k :| OnlyField(members, "deny_message", k) &&
      if 0 <= k < |members| then seen.Some? && MessageField(members[k].1) == Ok(seen.value) else seen.None?;
  }

  /** The derived deserialiser reads exactly the answers. */
  lemma AnswerIff(j: Json.Json, r: RuleResponse)
    ensures FromJson(j) == Some(r) <==> IsAnswer(j, r)
  {
    match j
    case Object(members) =>
      if IsAnswer(j, r) {
        AnswerIsReadable(members, r);
        VisitSucceeds(members);
      }
      if Visit(members).Ok? {
        VisitMeets(members);
        AllowMet(members, Visit(members).value.allow, r.allow);
        MessageMet(members, Visit(members).value.message, r.denyMessage);
      }
    case Array(items) =>
      if |items| == 2 {
        AllowFieldIff(items[0], r.allow);
      }
    case _ =>
  }

  // ----- properties

  predicate Wellformed(r: RuleResponse) {
    r.allow.Some? && r.allow.value.Limited? ==> r.allow.value.maxTxBytes < U64
  }

  lemma PolicyRoundTrip(p: AllowPolicy)
    requires p.Limited? ==> p.maxTxBytes < U64
    ensures PolicyFrom(PolicyJson(p)) == Some(p)
    ensures JsonPrint.Printable(PolicyJson(p))
  {
    if p.Limited? {
      Decimal.ReadShow(p.maxTxBytes);
      JsonPrint.ShowIsNumber(p.maxTxBytes);
      var m := ("max_tx_bytes", Json.Number(Decimal.Show(p.maxTxBytes)));
      assert [m][0] == m;
      assert JsonPrint.PrintableMember(m);
    }
  }

  lemma WrittenIsAnswer(r: RuleResponse)
    requires Wellformed(r)
    ensures IsAnswer(ToJson(r), r) && JsonPrint.Printable(ToJson(r))
  {
    var members := ToJson(r).members;
    if r.allow.Some? {
      PolicyRoundTrip(r.allow.value);
      PolicyIff(PolicyJson(r.allow.value), r.allow.value);
      assert members[0] == ("allow", PolicyJson(r.allow.value));
      assert JsonPrint.PrintableMember(members[0]);
      assert OnlyField(members, "allow", 0);
    } else {
      assert OnlyField(members, "allow", -1);
    }
    if r.denyMessage.Some? {
      var k := |members| - 1;
      assert members[k] == ("deny_message", Json.String(r.denyMessage.value));
      assert JsonPrint.PrintableMember(members[k]);
      assert OnlyField(members, "deny_message", k);
    } else {
      assert OnlyField(members, "deny_message", -1);
    }
  }

  predicate AllWhite(s: string) {
    forall k :: 0 <= k < |s| ==> IsWhite(s[k])
  }

  lemma {:induction false} TrimStartSkips(before: string, s: string)
    requires AllWhite(before) && (s != [] ==> !IsWhite(s[0]))
    ensures TrimStart(before + s) == s
    decreases |before|
  {
    if before == [] {
      assert before + s == s;
    } else {
      assert (before + s)[1..] == before[1..] + s;
      TrimStartSkips(before[1..], s);
    }
  }

  lemma {:induction false} TrimEndSkips(s: string, after: string)
    requires AllWhite(after) && (s != [] ==> !IsWhite(s[|s| - 1]))
    ensures TrimEnd(s + after) == s
    decreases |after|
  {
    if after == [] {
      assert s + after == s;
    } else {
      assert (s + after)[..|s + after| - 1] == s + after[..|after| - 1];
      TrimEndSkips(s, after[..|after| - 1]);
    }
  }

  /** White space around a text, such as the newline that ends a reply, is no part of it. */
  lemma TrimPadded(before: string, s: string, after: string)
    requires AllWhite(before) && AllWhite(after)
    requires s != [] && !IsWhite(s[0]) && !IsWhite(s[|s| - 1])
    ensures Trim(before + s + after) == s
  {
    assert before + s + after == before + (s + after);
    TrimStartSkips(before, s + after);
    TrimEndSkips(s, after);
  }

  lemma {:induction false} TrimStartShape(s: string)
    ensures TrimStart(s) != [] ==> !IsWhite(TrimStart(s)[0])
  {
    if s != [] && IsWhite(s[0]) {
      TrimStartShape(s[1..]);
    }
  }

  lemma {:induction false} TrimEndShape(s: string)
    ensures TrimEnd(s) <= s
    ensures TrimEnd(s) != [] ==> !IsWhite(TrimEnd(s)[|TrimEnd(s)| - 1])
  {
    if s != [] && IsWhite(s[|s| - 1]) {
      TrimEndShape(s[..|s| - 1]);
    }
  }

  lemma TrimTwice(s: string)
    ensures Trim(Trim(s)) == Trim(s)
  {
    TrimStartShape(s);
    TrimEndShape(TrimStart(s));
    if Trim(s) != [] {
      TrimPadded([], Trim(s), []);
      assert [] + Trim(s) + [] == Trim(s);
    }
  }

  lemma TrimEmptyIff(s: string)
    ensures Trim(s) == [] <==> AllWhite(s)
  {
    if AllWhite(s) {
      assert s + [] == s;
      TrimStartSkips(s, []);
    } else {
      NotAllTrimmed(s);
    }
  }

  lemma {:induction false} NotAllTrimmed(s: string)
    requires !AllWhite(s)
    ensures Trim(s) != []
  {
    if IsWhite(s[0]) {
      assert !AllWhite(s[1..]);
      NotAllTrimmed(s[1..]);
    } else {
      FirstIsKept(s);
    }
  }

  lemma {:induction false} FirstIsKept(s: string)
    requires s != [] && !IsWhite(s[0])
    ensures TrimEnd(s) != []
  {
    if IsWhite(s[|s| - 1]) {
      FirstIsKept(s[..|s| - 1]);
    }
  }

  /** Blanks and line ends are white space, wide and no-break spaces are, characters that show are not. */
  lemma WhiteIs(c: char)
    ensures c in {' ', '\t', '\n', '\r'} ==> IsWhite(c)
    ensures c as int in {0x0B, 0x0C, 0x85, 0xA0, 0x1680, 0x2028, 0x2029, 0x202F, 0x205F, 0x3000} ==> IsWhite(c)
    ensures 0x2000 <= c as int <= 0x200A ==> IsWhite(c)
    ensures '!' <= c <= '~' || 0xA1 <= c as int <= 0x167F || 0x3001 <= c as int ==> !IsWhite(c)
  {
  }

  // ----- what a reply line says

  lemma {:induction false} MembersEndWithBrace(members: seq<(string, Json.Json)>, s: string)
    requires members != [] && JsonGrammar.SpellsMembers(members, s)
    ensures s != [] && s[|s| - 1] == '}'
    decreases |members|
  {
    var m, gap, more :| JsonGrammar.FirstMember(members, s, m, gap, more);
    if |members| > 1 {
      MembersEndWithBrace(members[1..], more);
    }
  }

  lemma {:induction false} ItemsEndWithBracket(items: seq<Json.Json>, s: string)
    requires items != [] && JsonGrammar.SpellsItems(items, s)
    ensures s != [] && s[|s| - 1] == ']'
    decreases |items|
  {
    var lead, v, gap, more :| JsonGrammar.FirstItem(items, s, lead, v, gap, more);
    if |items| > 1 {
      ItemsEndWithBracket(items[1..], more);
    }
  }

  lemma AnswerIsBracketed(j: Json.Json, t: string)
    requires (j.Object? || j.Array?) && JsonGrammar.Spells(j, t)
    ensures t != [] && t[0] in {'{', '['} && t[|t| - 1] in {'}', ']'}
  {
    match j
    case Object(members) =>
      if members != [] {
        var inner :| JsonGrammar.SpellsMembers(members, inner) && t == "{" + inner;
        MembersEndWithBrace(members, inner);
      }
    case Array(items) =>
      if items != [] {
        var inner :| JsonGrammar.SpellsItems(items, inner) && t == "[" + inner;
        ItemsEndWithBracket(items, inner);
      }
  }

  lemma SpelledIsDocument(j: Json.Json, t: string)
    requires JsonGrammar.Spells(j, t)
    ensures Json.Parse(t) == Some(j)
  {
    assert [] + t + [] == t;
    assert JsonGrammar.DocumentParts(j, t, [], t, []);
    JsonGrammar.ReadsExactlyTheGrammar(t, j);
  }

  /** A reply that spells an answer, in any of the ways JSON has, means that answer, whatever white space
      the line puts around it. */
  lemma SpelledAnswerIsRead(j: Json.Json, r: RuleResponse, before: string, t: string, after: string)
    requires IsAnswer(j, r) && JsonGrammar.Spells(j, t) && AllWhite(before) && AllWhite(after)
    ensures FromString(before + t + after) == r
    ensures Trim(before + t + after) == t
  {
    AnswerIsBracketed(j, t);
    TrimPadded(before, t, after);
    SpelledIsDocument(j, t);
    AnswerIff(j, r);
    assert t[0] != "true"[0] && t[0] != "false"[0];
  }

  /** Any answer, written in any of the ways JSON has, is read back: any message text, any 64-bit limit,
      absent fields included. */
  lemma ResponseRoundTrip(r: RuleResponse, before: string, t: string, after: string)
    requires Wellformed(r) && JsonGrammar.Spells(ToJson(r), t) && AllWhite(before) && AllWhite(after)
    ensures FromString(before + t + after) == r
    ensures Trim(before + t + after) == t
  {
    WrittenIsAnswer(r);
    SpelledAnswerIsRead(ToJson(r), r, before, t, after);
  }

  /** The serialiser's own text is one of those ways. */
  lemma WrittenIsSpelled(r: RuleResponse)
    requires Wellformed(r)
    ensures JsonGrammar.Spells(ToJson(r), ToString(r))
  {
    WrittenIsAnswer(r);
    JsonPrint.PrintedIsSpelled(ToJson(r));
  }

  /** The two words. */
  lemma WordIsRead(b: bool, before: string, after: string)
    requires AllWhite(before) && AllWhite(after)
    ensures FromString(before + (if b then "true" else "false") + after) == RuleResponse(Some(Bool(b)), None)
  {
    WhiteIs('t');
    WhiteIs('f');
    WhiteIs('e');
    TrimPadded(before, if b then "true" else "false", after);
  }

  /** Any other text that shows is a denial with that text as its message: it is neither of the words,
      and spells no answer. */
  lemma OtherTextIsDenial(before: string, t: string, after: string)
    requires AllWhite(before) && AllWhite(after)
    requires t != [] && '!' <= t[0] <= '~' && '!' <= t[|t| - 1] <= '~' && t != "true" && t != "false"
    requires forall j, r :: JsonGrammar.SpellsDocument(j, t) ==> !IsAnswer(j, r)
    ensures FromString(before + t + after) == RuleResponse(Some(Bool(false)), Some(t))
  {
    WhiteIs(t[0]);
    WhiteIs(t[|t| - 1]);
    TrimPadded(before, t, after);
    if Json.Parse(t).Some? && FromJson(Json.Parse(t).value).Some? {
      var j := Json.Parse(t).value;
      JsonGrammar.ReadsExactlyTheGrammar(t, j);
      AnswerIff(j, FromJson(j).value);
    }
  }

  /** In particular every text that is no JSON object or array, such as a plain sentence. */
  lemma PlainTextIsDenial(before: string, t: string, after: string)
    requires AllWhite(before) && AllWhite(after)
    requires t != [] && '!' <= t[0] <= '~' && '!' <= t[|t| - 1] <= '~' && t != "true" && t != "false"
    requires t[0] != '{' && t[0] != '['
    ensures FromString(before + t + after) == RuleResponse(Some(Bool(false)), Some(t))
  {
    forall j, r | JsonGrammar.SpellsDocument(j, t) ensures !IsAnswer(j, r) {
      var lead, v, trail :| JsonGrammar.DocumentParts(j, t, lead, v, trail);
      JsonGrammar.SpaceFirst(lead, v + trail);
      assert t == lead + (v + trail);
      JsonGrammar.ValueStarts(j, v);
      assert v[0] == t[0];
    }
    OtherTextIsDenial(before, t, after);
  }

  /** The texts that allow: the word true, or a JSON answer whose policy is not false and which
      either has a policy or has no message. */
  predicate AllowsText(t: string) {
    || t == "true"
    || (t != "false" && Json.Parse(t).Some? && FromJson(Json.Parse(t).value).Some? &&
        var r := FromJson(Json.Parse(t).value).value;
        r.allow != Some(Bool(false)) && (r.allow.None? ==> r.denyMessage.None?))
  }

  lemma AllowsIff(s: string)
    ensures ToDecision(FromString(s)).allowed <==> AllowsText(Trim(s))
  {
  }
}
