/**
 The ruleset that src/jail/linux/nftables.rs installs inside a jail's namespace, as data, together
 with the part of netfilter that interprets it for packets leaving the namespace: connection
 tracking (priority -200), the nat output chain (-100), the filter output chain (0).
 */
module Egress {
  import opened Wrappers

  datatype Proto = Tcp | Udp | Icmp | OtherProto(number: nat)

  /** An IPv4 packet as conntrack sees it, hence also the key of the flow it starts. */
  datatype Packet = Packet(proto: Proto, src: nat, sport: nat, dst: nat, dport: nat)

  datatype CtState = New | Established | Related

  // ----- rulesets

  datatype Match =
    | DAddr(ip: nat)
    | DPort(proto: Proto, ports: set<nat>)   // `tcp dport`, `udp dport`
    | IpProtocol(proto: Proto)
    | Ct(states: set<CtState>)

  datatype Verdict = Accept | Drop | Dnat(ip: nat, port: nat)

  datatype Rule = Rule(matches: seq<Match>, verdict: Verdict)

  datatype Chain = Chain(rules: seq<Rule>, policy: Verdict)

  predicate Holds(m: Match, p: Packet, ct: CtState) {
    match m
    case DAddr(ip) => p.dst == ip
    case DPort(proto, ports) => p.proto == proto && p.dport in ports
    case IpProtocol(proto) => p.proto == proto
    case Ct(states) => ct in states
  }

  predicate Matches(ms: seq<Match>, p: Packet, ct: CtState) {
    ms == [] || (Holds(ms[0], p, ct) && Matches(ms[1..], p, ct))
  }

  /** The verdict of the first matching rule, else the policy. */
  function Eval(c: Chain, p: Packet, ct: CtState): Verdict
    decreases |c.rules|
  {
    if c.rules == [] then c.policy
    else if Matches(c.rules[0].matches, p, ct) then c.rules[0].verdict
    else Eval(c.(rules := c.rules[1..]), p, ct)
  }

  /** The proxy as the jail sees it. */
  datatype Proxy = Proxy(host: nat, http: nat, https: nat)

  function NatOutput(x: Proxy): Chain {
    Chain([Rule([DPort(Tcp, {80})], Dnat(x.host, x.http)),
           Rule([DPort(Tcp, {443})], Dnat(x.host, x.https))], Accept)
  }

  function FilterOutput(x: Proxy): Chain {
    Chain([Rule([Ct({Established, Related})], Accept),
           Rule([DAddr(x.host), DPort(Udp, {53})], Accept),
           Rule([DAddr(x.host), DPort(Tcp, {x.http, x.https})], Accept),
           Rule([IpProtocol(Udp)], Drop),
           Rule([IpProtocol(Tcp)], Drop)], Drop)
  }

  // ----- connection tracking

  /** A confirmed flow: where its packets are sent, and whether a reply has been seen. */
  datatype Flow = Flow(dst: nat, dport: nat, replied: bool)

  type Table = map<Packet, Flow>

  /** What leaves a local socket: a packet of a flow, or an ICMP error about some flow. */
  datatype Out = Data(p: Packet) | IcmpError(p: Packet, about: Packet)

  datatype Event =
    | Send(out: Out)
    | ReplyArrives(flow: Packet)
    | Expire(flow: Packet)      // timeout or eviction of the entry

  function Translate(p: Packet, v: Verdict): Packet {
    match v
    case Dnat(ip, port) => p.(dst := ip, dport := port)
    case _ => p
  }

  /** The packet as it meets the filter chain.  Only the first packet of a flow consults the nat chain. */
  function PostNat(x: Proxy, t: Table, p: Packet): Packet {
    if p in t then p.(dst := t[p].dst, dport := t[p].dport)
    else Translate(p, Eval(NatOutput(x), p, New))
  }

  function StateOf(t: Table, o: Out): CtState {
    match o
    case Data(p) => if p in t && t[p].replied then Established else New
    case IcmpError(_, about) => if about in t then Related else New
  }

  /** What is put on the wire, None when the packet is dropped. */
  function Emitted(x: Proxy, t: Table, o: Out): Option<Packet> {
    var q := if o.Data? then PostNat(x, t, o.p) else o.p;
    if Eval(FilterOutput(x), q, StateOf(t, o)).Accept? then Some(q) else None
  }

  /** The table afterwards: a flow is confirmed only once its first packet has been accepted. */
  function After(x: Proxy, t: Table, e: Event): Table {
    match e
    case Send(Data(p)) =>
      if p !in t && Emitted(x, t, Data(p)).Some?
      then t[p := Flow(PostNat(x, t, p).dst, PostNat(x, t, p).dport, false)] else t
    case Send(IcmpError(_, _)) => t
    case ReplyArrives(f) => if f in t then t[f := t[f].(replied := true)] else t
    case Expire(f) => t - {f}
  }

  function Run(x: Proxy, events: seq<Event>): Table
    decreases |events|
  {
    if events == [] then map[] else After(x, Run(x, events[..|events| - 1]), events[|events| - 1])
  }

  // ----- what the chains decide

  /** The only destinations a jail may reach. */
  predicate Permitted(x: Proxy, q: Packet) {
    && q.dst == x.host
    && ((q.proto.Udp? && q.dport == 53) || (q.proto.Tcp? && (q.dport == x.http || q.dport == x.https)))
  }

  function Drop1(c: Chain): Chain
    requires c.rules != []
  {
    c.(rules := c.rules[1..])
  }

  lemma EvalStep(c: Chain, p: Packet, ct: CtState)
    requires c.rules != []
    ensures Eval(c, p, ct) == if Matches(c.rules[0].matches, p, ct) then c.rules[0].verdict else Eval(Drop1(c), p, ct)
    ensures |c.rules| == 1 ==> Eval(Drop1(c), p, ct) == c.policy
  {
  }

  lemma MatchesOne(m: Match, p: Packet, ct: CtState)
    ensures Matches([m], p, ct) == Holds(m, p, ct)
  {
    assert [m][1..] == [];
  }

  lemma MatchesTwo(m: Match, n: Match, p: Packet, ct: CtState)
    ensures Matches([m, n], p, ct) == (Holds(m, p, ct) && Holds(n, p, ct))
  {
    MatchesOne(n, p, ct);
    assert [m, n][1..] == [n];
  }

  lemma NatVerdict(x: Proxy, p: Packet, ct: CtState)
    ensures Eval(NatOutput(x), p, ct) ==
            if p.proto.Tcp? && p.dport == 80 then Dnat(x.host, x.http)
            else if p.proto.Tcp? && p.dport == 443 then Dnat(x.host, x.https)
            else Accept
  {
    var c := NatOutput(x);
    MatchesOne(DPort(Tcp, {80}), p, ct);
    MatchesOne(DPort(Tcp, {443}), p, ct);
    EvalStep(c, p, ct);
    EvalStep(Drop1(c), p, ct);
  }

  /** The filter chain as one condition: tracked traffic, or a permitted destination. */
  lemma FilterVerdict(x: Proxy, q: Packet, ct: CtState)
    ensures Eval(FilterOutput(x), q, ct).Accept? <==> (ct != New || Permitted(x, q))
  {
    var c0 := FilterOutput(x);
    var c1 := Drop1(c0);
    var c2 := Drop1(c1);
    var c3 := Drop1(c2);
    var c4 := Drop1(c3);
    MatchesOne(Ct({Established, Related}), q, ct);
    MatchesTwo(DAddr(x.host), DPort(Udp, {53}), q, ct);
    MatchesTwo(DAddr(x.host), DPort(Tcp, {x.http, x.https}), q, ct);
    EvalStep(c0, q, ct);
    EvalStep(c1, q, ct);
    EvalStep(c2, q, ct);
    EvalStep(c3, q, ct);
    EvalStep(c4, q, ct);
  }

  // ----- confinement

  ghost predicate Confined(x: Proxy, t: Table) {
    forall p :: p in t ==> Permitted(x, p.(dst := t[p].dst, dport := t[p].dport))
  }

  lemma AfterKeepsConfined(x: Proxy, t: Table, e: Event)
    requires Confined(x, t)
    ensures Confined(x, After(x, t, e))
  {
    if e.Send? && e.out.Data? {
      var p := e.out.p;
      FilterVerdict(x, PostNat(x, t, p), StateOf(t, e.out));
    }
  }

  lemma {:induction false} RunKeepsConfined(x: Proxy, events: seq<Event>)
    ensures Confined(x, Run(x, events))
    decreases |events|
  {
    if events != [] {
      RunKeepsConfined(x, events[..|events| - 1]);
      AfterKeepsConfined(x, Run(x, events[..|events| - 1]), events[|events| - 1]);
    }
  }

  /** After any history of packets, replies and expirations, every packet that leaves the namespace
      is for the host's DNS port or for one of the proxy's ports, or is an ICMP error about a
      tracked flow, itself confined. */
  lemma EgressIsConfined(x: Proxy, events: seq<Event>, o: Out)
    requires Emitted(x, Run(x, events), o).Some?
    ensures var t := Run(x, events);
            || Permitted(x, Emitted(x, t, o).value)
            || (o.IcmpError? && o.about in t &&
                Permitted(x, o.about.(dst := t[o.about].dst, dport := t[o.about].dport)))
  {
    RunKeepsConfined(x, events);
    var t := Run(x, events);
    FilterVerdict(x, if o.Data? then PostNat(x, t, o.p) else o.p, StateOf(t, o));
  }

  /** `established` is not a loophole: a tracked flow has an earlier packet, sent while the flow was
      unknown, that the filter chain admitted as new. */
  lemma {:induction false} TrackedFlowWasAdmitted(x: Proxy, events: seq<Event>, p: Packet) returns (k: nat)
    requires p in Run(x, events)
    ensures k < |events| && events[k] == Send(Data(p)) && p !in Run(x, events[..k])
    ensures Emitted(x, Run(x, events[..k]), Data(p)).Some? && StateOf(Run(x, events[..k]), Data(p)) == New
    decreases |events|
  {
    var before := events[..|events| - 1];
    if p in Run(x, before) {
      k := TrackedFlowWasAdmitted(x, before, p);
      assert before[..k] == events[..k];
    } else {
      k := |events| - 1;
    }
  }

  /** What happens to the first packet of a flow: admitted exactly for web ports of any address, and
      for the host's own DNS and proxy ports; web traffic is rewritten to the proxy. */
  lemma NewFlowAdmittedIff(x: Proxy, events: seq<Event>, p: Packet)
    requires p !in Run(x, events)
    ensures var out := Emitted(x, Run(x, events), Data(p));
            && (out.Some? <==>
                  || (p.proto.Tcp? && (p.dport == 80 || p.dport == 443))
                  || (p.dst == x.host && p.proto.Udp? && p.dport == 53)
                  || (p.dst == x.host && p.proto.Tcp? && (p.dport == x.http || p.dport == x.https)))
            && (p.proto.Tcp? && p.dport == 80 ==> out == Some(p.(dst := x.host, dport := x.http)))
            && (p.proto.Tcp? && p.dport == 443 ==> out == Some(p.(dst := x.host, dport := x.https)))
            && (out.Some? && !(p.proto.Tcp? && (p.dport == 80 || p.dport == 443)) ==> out == Some(p))
  {
    NatVerdict(x, p, New);
    FilterVerdict(x, PostNat(x, Run(x, events), p), New);
  }

  /** An ICMP error leaves, as it is, exactly when it is about a flow that is tracked, replied to or not;
      without one it would have to be for a permitted port itself. */
  lemma IcmpErrorAdmittedIff(x: Proxy, events: seq<Event>, p: Packet, about: Packet)
    ensures var t := Run(x, events);
            && (Emitted(x, t, IcmpError(p, about)).Some? <==> about in t || Permitted(x, p))
            && (Emitted(x, t, IcmpError(p, about)).Some? ==> Emitted(x, t, IcmpError(p, about)) == Some(p))
  {
    var t := Run(x, events);
    FilterVerdict(x, p, StateOf(t, IcmpError(p, about)));
  }

  /** The life of an admitted flow: new until a reply has been seen, established from then on, and unknown
      again, so that its next packet is judged afresh, once its entry has expired. */
  lemma FlowLifeCycle(x: Proxy, events: seq<Event>, p: Packet)
    requires p !in Run(x, events) && Emitted(x, Run(x, events), Data(p)).Some?
    ensures var first := events + [Send(Data(p))];
            var replied := first + [ReplyArrives(p)];
            var expired := replied + [Expire(p)];
            && StateOf(Run(x, events), Data(p)) == New && StateOf(Run(x, first), Data(p)) == New
            && p in Run(x, first) && !Run(x, first)[p].replied
            && StateOf(Run(x, replied), Data(p)) == Established
            && p !in Run(x, expired)
            && Emitted(x, Run(x, expired), Data(p)) == Emitted(x, Run(x, events), Data(p))
  {
    var first := events + [Send(Data(p))];
    var replied := first + [ReplyArrives(p)];
    var expired := replied + [Expire(p)];
    assert first[..|events|] == events;
    assert replied[..|first|] == first;
    assert expired[..|replied|] == replied;
  }

  /** As long as its entry lives, every later packet of an admitted flow is admitted too and goes to
      the same place, whether or not a reply has been seen and whatever else the jail sends. */
  lemma {:induction false} FlowKeepsItsDestination(x: Proxy, events: seq<Event>, later: seq<Event>, p: Packet)
    requires Emitted(x, Run(x, events), Data(p)).Some?
    requires Expire(p) !in later
    ensures Emitted(x, Run(x, events + [Send(Data(p))] + later), Data(p)) == Emitted(x, Run(x, events), Data(p))
    ensures p in Run(x, events + [Send(Data(p))] + later)
    decreases |later|
  {
    var first := events + [Send(Data(p))];
    RunKeepsConfined(x, events);
    FilterVerdict(x, PostNat(x, Run(x, events), p), StateOf(Run(x, events), Data(p)));
    if later == [] {
      assert first + later == first && first[..|first| - 1] == events;
      FilterVerdict(x, PostNat(x, Run(x, first), p), StateOf(Run(x, first), Data(p)));
    } else {
      var before, e := later[..|later| - 1], later[|later| - 1];
      assert (first + later)[..|first + later| - 1] == first + before;
      FlowKeepsItsDestination(x, events, before, p);
      assert e in later;
      var t, u := Run(x, first + before), Run(x, first + later);
      FilterVerdict(x, PostNat(x, t, p), StateOf(t, Data(p)));
      FilterVerdict(x, PostNat(x, u, p), StateOf(u, Data(p)));
    }
  }
}
