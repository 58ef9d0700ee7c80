/**
 The line-processor engine of src/rules/proc.rs: one child process that is restarted when anything
 goes wrong, one request line and one reply line per exchange, at most two exchanges per evaluation.
 */
module ProcEngine {
  import opened Wrappers
  import RR = RuleResponse
  import JsonGrammar

  /** A running child: every request text written to it, and how many lines were read from it. */
  datatype Child = Child(id: nat, written: seq<string>, linesRead: nat)

  /** A reply line that decided an evaluation: what had been written to the child that gave it. */
  datatype Entry = Entry(request: string, child: nat, stream: seq<string>, line: string)

  /** The engine: the guarded child, how many children were started and killed, and every reply used. */
  datatype State = State(process: Option<Child>, spawned: nat, killed: nat, log: seq<Entry>)

  const IDLE := State(None, 0, 0, [])

  // What the operating system and the child do in one exchange.
  datatype PollOutcome = Alive | Exited | PollError
  datatype SpawnOutcome = Spawned | SpawnFailed | NoHandles
  datatype ReadOutcome = Line(text: string) | Eof | ReadError | Timeout
  datatype Env = Env(poll: PollOutcome, spawn: SpawnOutcome, writeOk: bool, flushOk: bool, read: ReadOutcome)

  datatype Action = Allow | Deny

  datatype Evaluation = Evaluation(action: Action, context: Option<string>, maxTxBytes: Option<nat>)

  const FAILED := Evaluation(Deny, Some("Program evaluation failed"), None)

  function FromReply(line: string): Evaluation {
    var d := RR.ToDecision(RR.FromString(RR.Trim(line)));
    if d.allowed then Evaluation(Allow, d.context, d.maxTxBytes) else Evaluation(Deny, d.context, None)
  }

  // ----- what one exchange does to the state

  /** The state in which the request is written, and whether there is a child to write to. */
  function Ready(s: State, env: Env): (State, bool) {
    if s.process.Some? && env.poll.Alive? then (s, true)
    else
      var t := if s.process.Some? then s.(process := None, killed := s.killed + 1) else s;
      match env.spawn
      case Spawned => (t.(process := Some(Child(t.spawned, [], 0)), spawned := t.spawned + 1), true)
      case SpawnFailed => (t, false)
      case NoHandles => (t.(spawned := t.spawned + 1, killed := t.killed + 1), false)
  }

  function KillGuarded(s: State): State
    requires s.process.Some?
  {
    s.(process := None, killed := s.killed + 1)
  }

  predicate IsReply(read: ReadOutcome) {
    read.Line? && RR.Trim(read.text) != []
  }

  predicate Replies(s: State, env: Env) {
    Ready(s, env).1 && env.writeOk && env.flushOk && IsReply(env.read)
  }

  /** The child the exchange talks to, with the request written to it. */
  function Asked(s: State, request: string, env: Env): Child
    requires Ready(s, env).1
    requires Ready(s, env).0.process.Some?
  {
    var c := Ready(s, env).0.process.value;
    c.(written := c.written + [request])
  }

  lemma ReadyHasChild(s: State, env: Env)
    ensures Ready(s, env).1 <==> Ready(s, env).0.process.Some?
  {
  }

  function Exchange(s: State, request: string, env: Env): State {
    var (t, ready) := Ready(s, env);
    if !ready then t
    else
      assert t.process.Some?;
      if Replies(s, env) then
        var c := Asked(s, request, env);
        t.(process := Some(c.(linesRead := c.linesRead + 1)),
           log := t.log + [Entry(request, c.id, c.written, env.read.text)])
      else KillGuarded(t)
  }

  /** One evaluation: the request text, or the error of an unusable URL, and the two environments. */
  datatype Call = Call(request: Result<string, string>, first: Env, second: Env)

  function After(s: State, call: Call): State {
    match call.request
    case Err(_) => s
    case Ok(text) =>
      var t := Exchange(s, text, call.first);
      if Replies(s, call.first) then t else Exchange(t, text, call.second)
  }

  function Run(s: State, calls: seq<Call>): State
    decreases |calls|
  {
    if calls == [] then s else After(Run(s, calls[..|calls| - 1]), calls[|calls| - 1])
  }

  // ----- the simple specification

  /** The reply of an exchange: the line, when a live or fresh child took the request and answered. */
  function ReplyOf(running: bool, env: Env): Option<string> {
    if ((running && env.poll.Alive?) || env.spawn.Spawned?) && env.writeOk && env.flushOk && IsReply(env.read)
    then Some(env.read.text) else None
  }

  /** The decision of the first reply among at most two exchanges, else Deny. */
  function FirstReply(running: bool, call: Call): Evaluation {
    match call.request
    case Err(e) => Evaluation(Deny, Some(e), None)
    case Ok(_) =>
      if ReplyOf(running, call.first).Some? then FromReply(ReplyOf(running, call.first).value)
      else if ReplyOf(false, call.second).Some? then FromReply(ReplyOf(false, call.second).value)
      else FAILED
  }

  predicate Balanced(s: State) {
    s.spawned == s.killed + (if s.process.Some? then 1 else 0)
  }

  // ----- the engine object

  class ProcRuleEngine {
    var process: Option<Child>
    var spawned: nat
    var killed: nat
    var log: seq<Entry>

    ghost function Now(): State
      reads this
    {
      State(process, spawned, killed, log)
    }

    constructor ()
      ensures Now() == IDLE
    {
      process, spawned, killed, log := None, 0, 0, [];
    }

    method KillProcess()
      requires process.Some?
      modifies this
      ensures Now() == KillGuarded(old(Now()))
      ensures process.None? && (Balanced(old(Now())) ==> killed == spawned)
    {
      process, killed := None, killed + 1;
    }

    method EnsureProcessRunning(env: Env) returns (ok: bool)
      modifies this
      ensures (Now(), ok) == Ready(old(Now()), env)
    {
      if process.Some? {
        if env.poll.Alive? {
          return true;
        }
        KillProcess();
      }
      match env.spawn {
        case Spawned =>
          process, spawned := Some(Child(spawned, [], 0)), spawned + 1;
          ok := true;
        case SpawnFailed =>
          ok := false;
        case NoHandles =>
          spawned, killed := spawned + 1, killed + 1;
          ok := false;
      }
    }

    method SendRequestToProcess(request: string, env: Env) returns (reply: Option<string>)
      modifies this
      ensures Now() == Exchange(old(Now()), request, env)
      ensures reply == ReplyOf(old(process).Some?, env)
    {
      var ready := EnsureProcessRunning(env);
      if !ready {
        return None;
      }
      var child := process.value.(written := process.value.written + [request]);
      if !env.writeOk || !env.flushOk {
        KillProcess();
        return None;
      }
      match env.read {
        case Line(text) =>
          if RR.Trim(text) == [] {
            KillProcess();
            return None;
          }
          process := Some(child.(linesRead := child.linesRead + 1));
          log := log + [Entry(request, child.id, child.written, text)];
          return Some(text);
        case _ =>
          KillProcess();
          return None;
      }
    }

    /** The retry loop refines the simple specification. */
    method ExecuteProgram(call: Call) returns (result: Evaluation)
      modifies this
      ensures result == FirstReply(old(process).Some?, call)
      ensures Now() == After(old(Now()), call)
    {
      match call.request {
        case Err(e) =>
          return Evaluation(Deny, Some(e), None);
        case Ok(text) =>
          var attempt := 0;
          while attempt < 2
            invariant 0 <= attempt <= 2
            invariant attempt == 0 ==> Now() == old(Now())
            invariant attempt >= 1 ==> !Replies(old(Now()), call.first) && ReplyOf(old(process).Some?, call.first).None?
            invariant attempt == 1 ==> Now() == Exchange(old(Now()), text, call.first) && process.None?
            invariant attempt == 2 ==> Now() == After(old(Now()), call) && ReplyOf(false, call.second).None?
          {
            var reply := SendRequestToProcess(text, if attempt == 0 then call.first else call.second);
            if reply.Some? {
              return FromReply(reply.value);
            }
            attempt := attempt + 1;
          }
          return FAILED;
      }
    }

    /** `Drop`: no child outlives the engine. */
    method Drop()
      requires Balanced(Now())
      modifies this
      ensures process.None? && spawned == old(spawned) == killed && log == old(log)
    {
      if process.Some? {
        KillProcess();
      }
    }
  }

  // ----- properties of whole runs

  predicate Synchronised(s: State) {
    s.process.Some? ==> s.process.value.linesRead == |s.process.value.written| && s.process.value.id < s.spawned
  }

  lemma ExchangeKeepsSync(s: State, request: string, env: Env)
    requires Balanced(s) && Synchronised(s)
    ensures var t := Exchange(s, request, env);
            && Balanced(t) && Synchronised(t)
            && t.spawned ==
               s.spawned + (if (s.process.Some? && env.poll.Alive?) || env.spawn.SpawnFailed? then 0 else 1)
            && (t.process.Some? <==> Replies(s, env))
            && (Replies(s, env) <==> ReplyOf(s.process.Some?, env).Some?)
            && (if Replies(s, env) then |t.log| == |s.log| + 1 && t.log[..|s.log|] == s.log else t.log == s.log)
  {
  }

  /** Between evaluations, in every run, a guarded child has had as many lines read from it as
      requests written to it, every child but the guarded one has been killed, and an evaluation
      starts at most two. */
  lemma {:induction false} RunKeepsSync(calls: seq<Call>)
    ensures Balanced(Run(IDLE, calls)) && Synchronised(Run(IDLE, calls))
    ensures calls != [] ==> Run(IDLE, calls).spawned <= Run(IDLE, calls[..|calls| - 1]).spawned + 2
    decreases |calls|
  {
    if calls != [] {
      var call := calls[|calls| - 1];
      var s := Run(IDLE, calls[..|calls| - 1]);
      RunKeepsSync(calls[..|calls| - 1]);
      if call.request.Ok? {
        ExchangeKeepsSync(s, call.request.value, call.first);
        ExchangeKeepsSync(Exchange(s, call.request.value, call.first), call.request.value, call.second);
      }
    }
  }

  /** The child as a function: the line it prints after that stream of requests. */
  type Program = (nat, seq<string>) -> string

  /** A pipe is first-in first-out and the child prints one line per request, at any speed: the next
      line read answers the oldest request whose line has not been read. */
  predicate Honest(program: Program, s: State, request: string, env: Env) {
    ReadyHasChild(s, env);
    Ready(s, env).1 && env.read.Line? ==>
      var c := Asked(s, request, env);
      c.linesRead < |c.written| ==> env.read.text == program(c.id, c.written[..c.linesRead + 1])
  }

  predicate HonestCall(program: Program, s: State, call: Call) {
    match call.request
    case Err(_) => true
    case Ok(text) =>
      Honest(program, s, text, call.first) && Honest(program, Exchange(s, text, call.first), text, call.second)
  }

  predicate HonestRun(program: Program, calls: seq<Call>)
    decreases |calls|
  {
    calls != [] ==>
      HonestRun(program, calls[..|calls| - 1]) &&
      HonestCall(program, Run(IDLE, calls[..|calls| - 1]), calls[|calls| - 1])
  }

  predicate AnswersItsRequest(program: Program, e: Entry) {
    e.stream != [] && e.stream[|e.stream| - 1] == e.request && e.line == program(e.child, e.stream)
  }

  ghost predicate AllAnswer(program: Program, log: seq<Entry>) {
    forall k :: 0 <= k < |log| ==> AnswersItsRequest(program, log[k])
  }

  lemma ExchangeAnswers(program: Program, s: State, request: string, env: Env)
    requires Balanced(s) && Synchronised(s) && AllAnswer(program, s.log) && Honest(program, s, request, env)
    ensures AllAnswer(program, Exchange(s, request, env).log)
  {
    if Replies(s, env) {
      ReadyHasChild(s, env);
      var c := Asked(s, request, env);
      assert c.written[..c.linesRead + 1] == c.written;
    }
  }

  /** Every reply that decides an evaluation, in every run against a one-line-per-request child, is
      the child's answer to exactly that evaluation's request; a reply that came too late, after a
      timeout or an error, is never taken for the answer to a later request. */
  lemma {:induction false} EveryReplyAnswersItsOwnRequest(program: Program, calls: seq<Call>)
    requires HonestRun(program, calls)
    ensures AllAnswer(program, Run(IDLE, calls).log)
    decreases |calls|
  {
    if calls != [] {
      var before, call := calls[..|calls| - 1], calls[|calls| - 1];
      var s := Run(IDLE, before);
      EveryReplyAnswersItsOwnRequest(program, before);
      RunKeepsSync(before);
      if call.request.Ok? {
        var text := call.request.value;
        ExchangeAnswers(program, s, text, call.first);
        ExchangeKeepsSync(s, text, call.first);
        ExchangeAnswers(program, Exchange(s, text, call.first), text, call.second);
      }
    }
  }

  /** An evaluation is allowed exactly by an allowing reply that was read in that same evaluation, to
      that same request; that reply is then the last entry of the log. */
  lemma AllowedOnlyByOwnReply(calls: seq<Call>, call: Call)
    ensures var s := Run(IDLE, calls);
            var t := After(s, call);
            var result := FirstReply(s.process.Some?, call);
            && |s.log| <= |t.log| <= |s.log| + 1
            && (result.action.Allow? <==>
                  |t.log| == |s.log| + 1 && RR.AllowsText(RR.Trim(t.log[|s.log|].line)))
            && (|t.log| == |s.log| + 1 ==>
                  var e := t.log[|s.log|];
                  call.request == Ok(e.request) && result == FromReply(e.line) &&
                  (Line(e.line) == call.first.read || Line(e.line) == call.second.read))
  {
    var s := Run(IDLE, calls);
    RunKeepsSync(calls);
    if call.request.Ok? {
      var text := call.request.value;
      ExchangeKeepsSync(s, text, call.first);
      ExchangeKeepsSync(Exchange(s, text, call.first), text, call.second);
      var t := After(s, call);
      if |t.log| == |s.log| + 1 {
        RR.AllowsIff(RR.Trim(t.log[|s.log|].line));
        RR.TrimTwice(t.log[|s.log|].line);
      }
    }
  }

  // ----- what replies are, and what they decide

  /** An exchange has a reply exactly when there is a child, it has taken the request, and it has printed
      a line that is not blank. */
  lemma ReplyOfIff(running: bool, env: Env)
    ensures ReplyOf(running, env).Some? <==>
            && ((running && env.poll.Alive?) || env.spawn.Spawned?)
            && env.writeOk && env.flushOk && env.read.Line? && !RR.AllWhite(env.read.text)
    ensures ReplyOf(running, env).Some? ==> Line(ReplyOf(running, env).value) == env.read
  {
    if env.read.Line? {
      RR.TrimEmptyIff(env.read.text);
    }
  }

  /** A blank line is no decision: the evaluation goes on to its second exchange, with a new child. */
  lemma BlankLineIsRetried(running: bool, call: Call)
    requires call.request.Ok? && call.first.read.Line? && RR.AllWhite(call.first.read.text)
    ensures FirstReply(running, call) ==
            if ReplyOf(false, call.second).Some? then FromReply(ReplyOf(false, call.second).value)
            else Evaluation(Deny, Some("Program evaluation failed"), None)
  {
    ReplyOfIff(running, call.first);
  }

  /** An evaluation without a reply denies; an unusable URL denies with its own reason and asks nobody. */
  lemma UnansweredIsDenied(running: bool, call: Call)
    ensures call.request.Err? ==> FirstReply(running, call) == Evaluation(Deny, Some(call.request.error), None)
    ensures call.request.Ok? && ReplyOf(running, call.first).None? && ReplyOf(false, call.second).None? ==>
              FirstReply(running, call) == Evaluation(Deny, Some("Program evaluation failed"), None)
  {
  }

  /** The answer allows: by its policy, or by saying nothing at all. */
  predicate Allows(r: RR.RuleResponse) {
    match r.allow
    case Some(Bool(b)) => b
    case Some(Limited(_)) => true
    case None => r.denyMessage.None?
  }

  /** From a reply line to the decision: for every answer, in any spelling and with any white space around
      it, the limit is exactly the answer's, and a message is handed on exactly with a denial. */
  lemma SpelledAnswerDecides(r: RR.RuleResponse, before: string, t: string, after: string)
    requires RR.Wellformed(r) && JsonGrammar.Spells(RR.ToJson(r), t) && RR.AllWhite(before) && RR.AllWhite(after)
    ensures var e := FromReply(before + t + after);
            && (e.action.Allow? <==> Allows(r))
            && (forall n: nat :: e.maxTxBytes == Some(n) <==> r.allow == Some(RR.Limited(n)))
            && e.context == if Allows(r) then None else r.denyMessage
  {
    RR.ResponseRoundTrip(r, before, t, after);
    assert [] + t + [] == t;
    RR.ResponseRoundTrip(r, [], t, []);
  }

  lemma WordDecides(b: bool, end: string)
    requires RR.AllWhite(end)
    ensures FromReply((if b then "true" else "false") + end) == Evaluation(if b then Allow else Deny, None, None)
  {
    var word := if b then "true" else "false";
    RR.WhiteIs(word[0]);
    RR.WhiteIs(word[|word| - 1]);
    assert [] + word + end == word + end && [] + word + [] == word;
    RR.TrimPadded([], word, end);
    RR.WordIsRead(b, [], []);
  }

  /** The two words, on lines of their own. */
  lemma WordsDecide()
    ensures FromReply("true" + "\n") == FromReply("true" + "\r\n") == Evaluation(Allow, None, None)
    ensures FromReply("false" + "\n") == FromReply("false" + "\r\n") == Evaluation(Deny, None, None)
  {
    RR.WhiteIs('\n');
    RR.WhiteIs('\r');
    WordDecides(true, "\n");
    WordDecides(true, "\r\n");
    WordDecides(false, "\n");
    WordDecides(false, "\r\n");
  }

  /** A plain sentence denies, and is the reason. */
  lemma SentenceDenies(t: string, after: string)
    requires RR.AllWhite(after)
    requires t != [] && '!' <= t[0] <= '~' && '!' <= t[|t| - 1] <= '~' && t != "true" && t != "false"
    requires t[0] != '{' && t[0] != '['
    ensures FromReply(t + after) == Evaluation(Deny, Some(t), None)
  {
    RR.WhiteIs(t[0]);
    RR.WhiteIs(t[|t| - 1]);
    assert [] + t + after == t + after && [] + t + [] == t;
    RR.TrimPadded([], t, after);
    RR.PlainTextIsDenial([], t, []);
  }

  // ----- killed children

  /** Children that were started at `born` or later, or that are `kept`. */
  predicate Since(id: nat, born: nat, kept: Option<Child>) {
    id >= born || (kept.Some? && id == kept.value.id)
  }

  /** Neither the guarded child nor any reply from entry `n` on is of another child. */
  ghost predicate OnlySince(t: State, n: nat, born: nat, kept: Option<Child>) {
    && t.spawned >= born
    && (t.process.Some? ==> Since(t.process.value.id, born, kept))
    && n <= |t.log|
    && forall k :: n <= k < |t.log| ==> Since(t.log[k].child, born, kept)
  }

  lemma ExchangeKeepsSince(t: State, request: string, env: Env, n: nat, born: nat, kept: Option<Child>)
    requires OnlySince(t, n, born, kept)
    ensures OnlySince(Exchange(t, request, env), n, born, kept)
  {
  }

  lemma AfterKeepsSince(t: State, call: Call, n: nat, born: nat, kept: Option<Child>)
    requires OnlySince(t, n, born, kept)
    ensures OnlySince(After(t, call), n, born, kept)
  {
    if call.request.Ok? {
      ExchangeKeepsSince(t, call.request.value, call.first, n, born, kept);
      ExchangeKeepsSince(Exchange(t, call.request.value, call.first), call.request.value, call.second, n, born, kept);
    }
  }

  /** A child that has been killed never decides anything again: every reply after `calls` comes from
      the child that was then guarded, or from one started since. */
  lemma {:induction false} KilledChildNeverAnswers(calls: seq<Call>, more: seq<Call>)
    ensures var s := Run(IDLE, calls);
            OnlySince(Run(IDLE, calls + more), |s.log|, s.spawned, s.process)
    decreases |more|
  {
    var s := Run(IDLE, calls);
    if more == [] {
      assert calls + more == calls;
    } else {
      var before := more[..|more| - 1];
      KilledChildNeverAnswers(calls, before);
      assert (calls + more)[..|calls + more| - 1] == calls + before;
      AfterKeepsSince(Run(IDLE, calls + before), more[|more| - 1], |s.log|, s.spawned, s.process);
    }
  }

  /** Without an honest pipe nothing is lost either: after any exchange that fails, the child that
      failed is gone, so whatever it prints later is never read. */
  lemma FailedExchangeForgetsChild(s: State, request: string, env: Env)
    requires Balanced(s) && Synchronised(s) && !Replies(s, env)
    ensures Exchange(s, request, env).process.None?
    ensures Exchange(s, request, env).killed == Exchange(s, request, env).spawned
  {
    ExchangeKeepsSync(s, request, env);
  }
}
