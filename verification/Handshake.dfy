/** Switch, front-end and agent together: opening a back-end connection, and the one stream a client
    sees while its flow moves between back-ends. */
module Handshake {
  import opened Words
  import opened Packets
  import opened FrontEnd
  import opened Publication
  import opened Splice
  import opened SwitchPipeline
  import opened SwitchService

  /** The front-end after opening, the agent's maps, and the SYN and request as the back-end receives them. */
  datatype Opened = Opened(table: Table, maps: Splices, syn: Header, request: Header)

  /** The switch when the SYN-ACK passes it: the back-ends it knows, the clients it bypasses. */
  datatype Switch = Switch(dips: set<Endpoint>, offload: SwitchTable)

  function Bare(h: Header): Packet {
    Packet(true, true, h, 5, 40, [])
  }

  /** A packet that the switch only forwards to its destination. */
  predicate ForwardedOn(p: Packet, dips: set<Endpoint>) {
    DirectionOf(p, dips) == Elsewhere
  }

  /** The back-end's answer to a SYN that has passed its agent, after it has passed the agent itself. */
  function AnswerTo(m: Splices, syn: Header, y: u32): Packet {
    var m1 := IngressSplices(m, syn);
    Bare(EgressHeader(m1, Header(syn.dst, syn.src, y, Add32(IngressHeader(m, syn).seqNo, 1), SYN_ACK)))
  }

  function MapsAfterAnswer(m: Splices, syn: Header, y: u32): Splices {
    EgressSplices(IngressSplices(m, syn), Header(syn.dst, syn.src, y, Add32(IngressHeader(m, syn).seqNo, 1), SYN_ACK))
  }

  /** The client's packet `req` makes the front-end send a SYN; it passes the switch and the agent of its
      back-end, which answers with initial sequence number `y`; the answer passes the agent and, if the switch
      hands it to the front-end, makes the front-end send the cached request, which passes switch and agent. */
  function OpenBackend(env: Env, t: Table, sw: Switch, m: Splices, req: Packet, y: u32): Option<Opened> {
    match Step(env, t, req)
    case Next(t1, outs, _) =>
      if outs == [] || !outs[|outs| - 1].Syn? || !ForwardedOn(outs[|outs| - 1].pkt, sw.dips) then None
      else
        var syn := outs[|outs| - 1].pkt.h;
        var answer, m2 := AnswerTo(m, syn, y), MapsAfterAnswer(m, syn, y);
        if !ToFrontEnd(answer, sw.dips, sw.offload) then None
        else
          (match Step(env, t1, answer)
           case Next(t2, outs2, _) =>
             if |outs2| == 1 && outs2[0].Cached? && ForwardedOn(outs2[0].pkt, sw.dips) then
               Some(Opened(t2, m2, IngressHeader(m, syn), IngressHeader(m2, outs2[0].pkt.h)))
             else None
           case _ => None)
    case _ => None
  }

  /** The switch knows back-end `b`, and tells it from the client and from its own two services. */
  predicate Wired(dips: set<Endpoint>, k: Endpoint, b: Endpoint) {
    b in dips && k !in dips && b != VIRTUAL && b != SWITCH
  }

  /** A client without a flow, or with an established flow that its request moves to another back-end. */
  predicate Starts(env: Env, t: Table, req: Packet, d: Data) {
    && req.isIpv4 && req.isTcp && HasPayload(req) && TokenFits(req.payload)
    && RuleFor(env, req.payload) == Some(d) && d.dIndex in env.backends
    && env.backends[d.dIndex] !in t && env.backends[d.dIndex] != req.h.src
    && if req.h.src in t then
         && t[req.h.src].Live? && t[req.h.src].flow.state in {Complete, Offload}
         && !req.h.flags.rst && !req.h.flags.fin
         && t[req.h.src].flow.data.dIndex != d.dIndex && t[req.h.src].flow.data.dIndex in env.backends
       else req.h.dst !in t
  }

  lemma StartedStep(env: Env, t: Table, req: Packet, d: Data)
    requires Starts(env, t, req, d)
    ensures var r := Step(env, t, req);
            && r.Next? && r.outs != [] && r.outs[|r.outs| - 1] == Syn(SynFor(req, env.backends[d.dIndex]))
            && r.table == t[req.h.src := Live(Flow(BackendSyn, d, req))]
  {
  }

  lemma AnsweredStep(env: Env, t: Table, req: Packet, d: Data, p: Packet)
    requires req.h.src in t && t[req.h.src] == Live(Flow(BackendSyn, d, req)) && d.dIndex in env.backends
    requires p.isIpv4 && p.isTcp && p.h.src !in t && p.h.dst == req.h.src && p.h.flags == SYN_ACK
    ensures var r := Step(env, t, p);
            && r.Next? && r.outs == [Cached(ToBackend(req, env.backends[d.dIndex]))]
            && r.table == t[req.h.src := Live(Flow(if d.offloadFlag == 1 then Offload else Complete, d, req))]
  {
  }

  /** An answer reaches the front-end exactly when the switch does not bypass its client. */
  lemma AnswerRouted(p: Packet, sw: Switch)
    requires p.isTcp && p.h.flags == SYN_ACK
    ensures ToFrontEnd(p, sw.dips, sw.offload) <==> p.h.src in sw.dips && p.h.dst !in sw.offload
    ensures p.h.src in sw.dips ==> (BypassesOut(p, sw.dips, sw.offload) <==> p.h.dst in sw.offload)
  {
  }

  /** What a packet to a wired back-end passes. */
  lemma SynRouted(p: Packet, k: Endpoint, b: Endpoint, dips: set<Endpoint>)
    requires p.isTcp && p.h.src == k && p.h.dst == b
    ensures ForwardedOn(p, dips) <==> k !in dips && b != VIRTUAL && b != SWITCH
  {
  }

  lemma AnswerShape(m: Splices, syn: Header, y: u32)
    ensures AnswerTo(m, syn, y).isIpv4 && AnswerTo(m, syn, y).isTcp && AnswerTo(m, syn, y).h.flags == SYN_ACK
    ensures AnswerTo(m, syn, y).h.src == syn.dst && AnswerTo(m, syn, y).h.dst == syn.src
  {
  }

  /** A started request opens its back-end exactly when the switch is wired for it and does not hold
      the client in its table when the SYN-ACK returns. */
  lemma OpensExactly(env: Env, t: Table, sw: Switch, m: Splices, req: Packet, d: Data, y: u32)
    requires Starts(env, t, req, d)
    ensures OpenBackend(env, t, sw, m, req, y).Some?
      <==> Wired(sw.dips, req.h.src, env.backends[d.dIndex]) && req.h.src !in sw.offload
  {
    hide Step, ToFrontEnd, ForwardedOn, AnswerTo, MapsAfterAnswer;
    var k, b := req.h.src, env.backends[d.dIndex];
    StartedStep(env, t, req, d);
    var syn := SynFor(req, b);
    SynRouted(syn, k, b, sw.dips);
    AnswerShape(m, syn.h, y);
    AnswerRouted(AnswerTo(m, syn.h, y), sw);
    AnsweredStep(env, Step(env, t, req).table, req, d, AnswerTo(m, syn.h, y));
    SynRouted(ToBackend(req, b), k, b, sw.dips);
  }

  /** The agent's difference for the client is, or will be, the distance between the back-end's stream
      and the client's: the agent holds no splice for the client, or one that happens to fit. */
  predicate Bridges(m: Splices, req: Header, y: u32) {
    req.src !in m.diffs || m.diffs[req.src] == Sub32(y, Sub32(req.ackNo, 1))
  }

  /** The difference a client's segments meet once its back-end has been opened. */
  function DiffAfter(m: Splices, req: Header, y: u32): u32 {
    if req.src in m.diffs then m.diffs[req.src] else Sub32(y, Sub32(req.ackNo, 1))
  }

  lemma Undo(a: u32)
    ensures Add32(Sub32(a, 1), 1) == a
  {
  }

  lemma MapsOpened(m: Splices, req: Packet, b: Endpoint, y: u32)
    ensures var k, m2 := req.h.src, MapsAfterAnswer(m, SynFor(req, b).h, y);
            k in m2.diffs && m2.diffs[k] == DiffAfter(m, req.h, y)
  {
  }

  /** What an opened back-end receives: a SYN one before the request, then the request. The front-end's
      flow is established, and the agent translates by one difference. */
  lemma OpenedAs(env: Env, t: Table, sw: Switch, m: Splices, req: Packet, d: Data, y: u32)
    requires Starts(env, t, req, d) && OpenBackend(env, t, sw, m, req, y).Some?
    ensures var k, b, o := req.h.src, env.backends[d.dIndex], OpenBackend(env, t, sw, m, req, y).value;
            && o.syn == IngressHeader(m, SynFor(req, b).h)
            && o.request == req.h.(dst := b, ackNo := Add32(req.h.ackNo, DiffAfter(m, req.h, y)))
            && o.request.seqNo == Add32(o.syn.seqNo, 1)
            && k in o.maps.diffs && o.maps.diffs[k] == DiffAfter(m, req.h, y)
            && o.table == t[k := Live(Flow(if d.offloadFlag == 1 then Offload else Complete, d, req))]
  {
    hide Step, ToFrontEnd, ForwardedOn, AnswerTo, MapsAfterAnswer, DiffAfter;
    var b := env.backends[d.dIndex];
    StartedStep(env, t, req, d);
    var syn := SynFor(req, b);
    AnswerShape(m, syn.h, y);
    AnsweredStep(env, Step(env, t, req).table, req, d, AnswerTo(m, syn.h, y));
    MapsOpened(m, req, b, y);
    Undo(req.h.seqNo);
  }

  /** The three-way handshake a back-end should see: a SYN one before the request, without
      acknowledgment; then the request, acknowledging the back-end's own SYN. */
  predicate ThreeWay(o: Opened, req: Header, b: Endpoint, y: u32) {
    && o.syn == Header(req.src, b, Sub32(req.seqNo, 1), 0, SYN_ONLY)
    && o.request == req.(dst := b, ackNo := Add32(y, 1)) && o.request.seqNo == Add32(o.syn.seqNo, 1)
  }

  /** From a started request a back-end whose agent holds no splice for the client sees a correct
      three-way handshake, and the agent records the distance between the two streams, exactly when
      the switch is wired and does not bypass the client when the SYN-ACK returns. */
  lemma BackendOpens(env: Env, t: Table, sw: Switch, m: Splices, req: Packet, d: Data, y: u32)
    requires Starts(env, t, req, d) && req.h.src !in m.diffs
    ensures var k, b, o := req.h.src, env.backends[d.dIndex], OpenBackend(env, t, sw, m, req, y);
            && (o.Some? <==> Wired(sw.dips, k, b) && k !in sw.offload)
            && (o.Some? ==>
                  && ThreeWay(o.value, req.h, b, y)
                  && k in o.value.maps.diffs && o.value.maps.diffs[k] == Sub32(y, Sub32(req.h.ackNo, 1))
                  && k in o.value.table && o.value.table[k].Live? && o.value.table[k].flow.data == d
                  && o.value.table[k].flow.state in {Complete, Offload})
  {
    hide Step, OpenBackend;
    OpensExactly(env, t, sw, m, req, d, y);
    if OpenBackend(env, t, sw, m, req, y).Some? {
      OpenedAs(env, t, sw, m, req, d, y);
      DiffExactly(req.h.ackNo, y, DiffAfter(m, req.h, y));
    }
  }

  /** Whatever the agent holds, an opened back-end has its SYN acknowledged exactly when the agent bridges. */
  lemma AcknowledgedExactly(env: Env, t: Table, sw: Switch, m: Splices, req: Packet, d: Data, y: u32)
    requires Starts(env, t, req, d) && OpenBackend(env, t, sw, m, req, y).Some?
    ensures OpenBackend(env, t, sw, m, req, y).value.request.ackNo == Add32(y, 1) <==> Bridges(m, req.h, y)
  {
    hide Step, OpenBackend;
    OpenedAs(env, t, sw, m, req, d, y);
    DiffExactly(req.h.ackNo, y, DiffAfter(m, req.h, y));
  }

  /** A client whose SYN a back-end has answered and who then resets: the agent keeps the splice. */
  function Returned(syn: Header, y: u32): Splices {
    HandleAll(Splices(map[], map[]),
              [Event.Ingress(syn)] + [Egress(Header(syn.dst, syn.src, y, Add32(syn.seqNo, 1), SYN_ACK))]
              + [Event.Ingress(syn.(flags := RST_ONLY))])
  }

  /** When that client comes back, its old splice fits exactly one initial sequence number of the back-end. */
  lemma ReturningClientExactly(syn: Header, y: u32, req: Header, y2: u32)
    requires syn.flags == SYN_ONLY && req.src == syn.src
    ensures req.src in Returned(syn, y).diffs
    ensures Bridges(Returned(syn, y), req, y2) <==> y2 == Add32(Sub32(req.ackNo, 1), Sub32(y, syn.ackNo))
  {
    var answer := Header(syn.dst, syn.src, y, Add32(syn.seqNo, 1), SYN_ACK);
    var e0, e1, e2 := Event.Ingress(syn), Egress(answer), Event.Ingress(syn.(flags := RST_ONLY));
    var m0 := Splices(map[], map[]);
    ThreeEvents(m0, e0, e1, e2);
    var m := Returned(syn, y);
    assert m.diffs == map[syn.src := Sub32(y, syn.ackNo)];
    FitsOne(Sub32(y, syn.ackNo), Sub32(req.ackNo, 1), y2);
  }

  lemma ThreeEvents(m: Splices, e0: Event, e1: Event, e2: Event)
    ensures HandleAll(m, [e0] + [e1] + [e2]) == Handle(Handle(Handle(m, e0), e1), e2)
  {
    hide Handle;
    assert ([e0] + [e1] + [e2])[1..] == [e1] + [e2] && ([e1] + [e2])[1..] == [e2] && [e2][1..] == [];
    assert HandleAll(Handle(m, e0), [e1] + [e2]) == HandleAll(Handle(Handle(m, e0), e1), [e2]);
  }

  lemma FitsOne(d: u32, a: u32, y: u32)
    ensures d == Sub32(y, a) <==> y == Add32(a, d)
  {
  }

  /** Only one difference takes the client's acknowledgment to the back-end's. */
  lemma DiffExactly(a: u32, y: u32, diff: u32)
    ensures Add32(a, diff) == Add32(y, 1) <==> diff == Sub32(y, Sub32(a, 1))
  {
    AckTranslates(a, y);
    if Add32(a, diff) == Add32(y, 1) { AddInjective(a, diff, Sub32(y, Sub32(a, 1))); }
  }

  lemma AddInjective(a: u32, x: u32, y: u32)
    requires Add32(a, x) == Add32(a, y)
    ensures x == y
  {
  }

  lemma SubInjective(a: u32, x: u32, y: u32)
    requires Sub32(a, x) == Sub32(a, y)
    ensures x == y
  {
  }

  lemma AckTranslates(a: u32, y: u32)
    ensures Add32(a, Sub32(y, Sub32(a, 1))) == Add32(y, 1)
  {
    var s: int := Sub32(a, 1);
    var q := (a - 1) / TWO_32;
    assert a - 1 == s + TWO_32 * q;
    var v: int := Sub32(y, s);
    var r := (y - s) / TWO_32;
    assert y - s == v + TWO_32 * r;
    assert a + v == y + 1 + TWO_32 * (q - r);
    ModShift(y + 1, q - r);
  }

  /** A request reaches the front-end past the switch, whomever the switch bypasses. */
  lemma RequestReachesFrontEnd(p: Packet, dips: set<Endpoint>, offload: SwitchTable)
    requires DirectionOf(p, dips) == Direction.Inbound && HasPayload(p)
    ensures ToFrontEnd(p, dips, offload) <==> !p.h.flags.syn
  {
  }

  /** The first connection of a client: the switch answers its SYN; the request, which acknowledges the answer,
      reaches the front-end; the back-end sees the client's own initial sequence number, and the agent bridges
      the switch's to the back-end's. */
  lemma FirstHandshake(env: Env, t: Table, sw: Switch, m: Splices, syn: Packet, isn: u32, req: Packet, d: Data, y: u32)
    requires Starts(env, t, req, d) && req.h.src !in m.diffs
    requires Wired(sw.dips, req.h.src, env.backends[d.dIndex]) && req.h.src !in sw.offload
    requires syn.isTcp && syn.h.flags.syn && syn.h.dst == VIRTUAL
    requires req.h.src == syn.h.src && req.h.dst == syn.h.dst && !req.h.flags.syn
    requires var reply := SynReply(syn, isn).h; req.h.seqNo == reply.ackNo && req.h.ackNo == Add32(reply.seqNo, 1)
    ensures AnsweredBySwitch(syn, sw.dips) && ToFrontEnd(req, sw.dips, sw.offload)
    ensures IsSynAck(SynReply(syn, isn), syn, isn)
    ensures var o := OpenBackend(env, t, sw, m, req, y);
            && o.Some?
            && o.value.syn.seqNo == syn.h.seqNo && o.value.syn.ackNo == 0 && o.value.syn.flags == SYN_ONLY
            && o.value.request.seqNo == Add32(syn.h.seqNo, 1) && o.value.request.ackNo == Add32(y, 1)
            && req.h.src in o.value.maps.diffs && o.value.maps.diffs[req.h.src] == Sub32(y, isn)
  {
    hide Step, OpenBackend;
    BackendOpens(env, t, sw, m, req, d, y);
    RequestReachesFrontEnd(req, sw.dips, sw.offload);
    ReplyIsSynAck(syn, isn);
    Redo(syn.h.seqNo);
    Redo(isn);
  }

  lemma Redo(a: u32)
    ensures Sub32(Add32(a, 1), 1) == a
  {
  }

  // ---- One stream over any number of back-ends ----

  /** One back-end's turn: configuration, flows, switch and agent when its request comes, its initial
      sequence number, and how many bytes it sends. */
  datatype Session = Session(env: Env, flows: Table, sw: Switch, maps: Splices, req: Packet, y: u32, n: nat)

  function Open(s: Session): Option<Opened> {
    OpenBackend(s.env, s.flows, s.sw, s.maps, s.req, s.y)
  }

  /** Where the client receives the bytes of one session, as its agent translates them. */
  function Received(o: Opened, s: Session): (r: seq<u32>)
    ensures |r| == s.n
  {
    seq(s.n, j => EgressHeader(o.maps, Header(o.syn.dst, s.req.h.src, Advance(s.y, 1 + j), 0, o.request.flags)).seqNo)
  }

  /** The sequence numbers at which the client receives the bytes of the sessions, in the order sent. */
  function StreamOf(ss: seq<Session>): Option<seq<u32>>
    decreases |ss|
  {
    if ss == [] then Some([])
    else
      match Open(ss[0])
      case None => None
      case Some(o) => match StreamOf(ss[1..]) case None => None case Some(rest) => Some(Received(o, ss[0]) + rest)
  }

  predicate Started(s: Session, k: Endpoint) {
    && s.req.h.src == k && RuleFor(s.env, s.req.payload).Some?
    && Starts(s.env, s.flows, s.req, RuleFor(s.env, s.req.payload).value)
  }

  /** The back-end to which a session's request goes. */
  function BackendOf(s: Session, k: Endpoint): Endpoint
    requires Started(s, k)
  {
    s.env.backends[RuleFor(s.env, s.req.payload).value.dIndex]
  }

  /** Each request starts a connection and acknowledges all that was received before it. */
  predicate Chained(k: Endpoint, a: u32, ss: seq<Session>)
    decreases |ss|
  {
    ss == [] || (Started(ss[0], k) && ss[0].req.h.ackNo == a && Chained(k, Advance(a, ss[0].n), ss[1..]))
  }

  /** The switch lets the SYN-ACK of the session through to the front-end. */
  predicate LetsThrough(s: Session, k: Endpoint) {
    Started(s, k) && Wired(s.sw.dips, k, BackendOf(s, k)) && k !in s.sw.offload
  }

  lemma OpensSession(s: Session, k: Endpoint)
    requires Started(s, k)
    ensures Open(s).Some? <==> LetsThrough(s, k)
  {
    hide OpenBackend, Starts;
    OpensExactly(s.env, s.flows, s.sw, s.maps, s.req, RuleFor(s.env, s.req.payload).value, s.y);
  }

  /** All sessions open exactly when the switch lets each one's SYN-ACK through. */
  lemma {:induction false} SessionsOpenExactly(k: Endpoint, a: u32, ss: seq<Session>)
    requires Chained(k, a, ss)
    ensures StreamOf(ss).Some? <==> forall i | 0 <= i < |ss| :: LetsThrough(ss[i], k)
    decreases |ss|
  {
    hide Open, LetsThrough, Started, Received;
    if ss != [] {
      OpensSession(ss[0], k);
      SessionsOpenExactly(k, Advance(a, ss[0].n), ss[1..]);
      assert forall i | 0 <= i < |ss[1..]| :: ss[1..][i] == ss[i + 1];
      assert forall i | 0 < i < |ss| :: ss[i] == ss[1..][i - 1];
    }
  }

  /** A back-end's byte `j` reaches the client at byte `j` after the request's acknowledgment exactly when
      its agent bridges the two streams. */
  lemma ByteArrivesExactly(s: Session, k: Endpoint, j: nat)
    requires Started(s, k) && Open(s).Some? && j < s.n
    ensures Received(Open(s).value, s)[j] == Advance(s.req.h.ackNo, j) <==> Bridges(s.maps, s.req.h, s.y)
  {
    hide OpenBackend, Starts, IngressHeader, DiffAfter;
    OpenedAs(s.env, s.flows, s.sw, s.maps, s.req, RuleFor(s.env, s.req.payload).value, s.y);
    var x, fit, diff := Advance(s.y, 1 + j), Sub32(s.y, Sub32(s.req.h.ackNo, 1)), DiffAfter(s.maps, s.req.h, s.y);
    var o := Open(s).value;
    assert k in o.maps.diffs && o.maps.diffs[k] == diff;
    assert EgressHeader(o.maps, Header(o.syn.dst, k, x, 0, o.request.flags)).seqNo == Sub32(x, diff);
    ByteTranslates(s.req.h.ackNo, s.y, j);
    if Sub32(x, diff) == Sub32(x, fit) { SubInjective(x, diff, fit); }
    BridgesBy(s.maps, s.req.h, s.y);
  }

  lemma BridgesBy(m: Splices, req: Header, y: u32)
    ensures Bridges(m, req, y) <==> DiffAfter(m, req, y) == Sub32(y, Sub32(req.ackNo, 1))
  {
  }

  lemma ByteTranslates(a: u32, y: u32, j: int)
    ensures Sub32(Advance(y, 1 + j), Sub32(y, Sub32(a, 1))) == Advance(a, j)
  {
    var s: int := Sub32(a, 1);
    var q := (a - 1) / TWO_32;
    assert a - 1 == s + TWO_32 * q;
    var v: int := Sub32(y, s);
    var r := (y - s) / TWO_32;
    assert y - s == v + TWO_32 * r;
    var x: int := Advance(y, 1 + j);
    var u := (y + 1 + j) / TWO_32;
    assert y + 1 + j == x + TWO_32 * u;
    assert x - v == (a + j) + TWO_32 * (r - q - u);
    ModShift(a + j, r - q - u);
  }

  lemma AdvanceTwice(a: u32, m: int, n: int)
    ensures Advance(Advance(a, m), n) == Advance(a, m + n)
  {
    var b: int := Advance(a, m);
    var q := (a + m) / TWO_32;
    assert a + m == b + TWO_32 * q;
    ModShift(b + n, q);
  }

  /** The stream from sequence number `a` on, without gap or overlap. */
  predicate Contiguous(stream: seq<u32>, a: u32) {
    forall i | 0 <= i < |stream| :: stream[i] == Advance(a, i)
  }

  lemma ContiguousParts(x: seq<u32>, y: seq<u32>, a: u32)
    ensures Contiguous(x + y, a) <==> Contiguous(x, a) && Contiguous(y, Advance(a, |x|))
  {
    hide Advance;
    forall i | 0 <= i < |y| ensures (x + y)[|x| + i] == y[i] && Advance(Advance(a, |x|), i) == Advance(a, |x| + i) {
      AdvanceTwice(a, |x|, i);
    }
    forall i | 0 <= i < |x| ensures (x + y)[i] == x[i] {
    }
    if Contiguous(x + y, a) {
      assert forall i | 0 <= i < |x| :: (x + y)[i] == x[i];
    }
  }

  lemma SessionArrivesExactly(s: Session, k: Endpoint)
    requires Started(s, k) && Open(s).Some?
    ensures Contiguous(Received(Open(s).value, s), s.req.h.ackNo) <==> s.n == 0 || Bridges(s.maps, s.req.h, s.y)
  {
    hide Open, Started, Received, Bridges, Advance;
    forall j: nat | j < s.n
      ensures Received(Open(s).value, s)[j] == Advance(s.req.h.ackNo, j) <==> Bridges(s.maps, s.req.h, s.y)
    {
      ByteArrivesExactly(s, k, j);
    }
    var r := Received(Open(s).value, s);
    if s.n > 0 && Contiguous(r, s.req.h.ackNo) {
      assert r[0] == Advance(s.req.h.ackNo, 0);
    }
  }

  /** Over any number of moves between back-ends the client receives one contiguous stream from its first
      acknowledgment on exactly when the agent of each session that sends bridges the two streams. */
  lemma {:induction false} OneStream(k: Endpoint, a: u32, ss: seq<Session>)
    requires Chained(k, a, ss) && StreamOf(ss).Some?
    ensures Contiguous(StreamOf(ss).value, a)
      <==> forall i | 0 <= i < |ss| :: ss[i].n == 0 || Bridges(ss[i].maps, ss[i].req.h, ss[i].y)
    decreases |ss|
  {
    hide Open, Started, Received, Bridges, Contiguous, Advance;
    if ss == [] {
      NothingContiguous(a);
    } else {
      var s, rest := ss[0], ss[1..];
      SessionArrivesExactly(s, k);
      OneStream(k, Advance(a, s.n), rest);
      ContiguousParts(Received(Open(s).value, s), StreamOf(rest).value, a);
      assert forall i | 0 <= i < |rest| :: rest[i] == ss[i + 1];
      assert forall i | 0 < i < |ss| :: ss[i] == rest[i - 1];
    }
  }

  lemma NothingContiguous(a: u32)
    ensures Contiguous([], a)
  {
  }
}
