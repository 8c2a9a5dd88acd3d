/** A published flow that moves to another back-end: until its removal has been delivered, the switch sends
    the new back-end's SYN-ACK to the client, past the front-end that waits for it. */
module PublishedMove {
  import opened Words
  import opened Packets
  import opened FrontEnd
  import opened Publication
  import opened Splice
  import opened SwitchPipeline
  import opened Handshake
  import opened OvertakingRun
  import opened FastPath

  /** The step of a request that moves a flow leaves the switch as it is, and queues the removal. */
  lemma MoveQueued(s: State, env: Env, req: Packet, d: Data)
    requires Starts(env, s.flows, req, d) && req.h.src in s.flows
    ensures Enabled(s, Process(env, req))
    ensures var s' := Do(s, Process(env, req));
            && s'.switchTable == s.switchTable && s'.channel == s.channel
            && (Offloaded(s.flows, req.h.src) ==> req.h.src in s'.delQ)
  {
    var k := req.h.src;
    var o := Step(env, s.flows, req);
    assert o.Next? && o.ops == DelIfOffloaded(k, s.flows[k].flow);
    if o.ops == [DelOp(k)] { QueuedRemoval(s, o.table, k); }
  }

  lemma QueuedRemoval(s: State, t: Table, k: Endpoint)
    ensures Enqueue(s, t, [DelOp(k)]) == s.(flows := t, delQ := s.delQ + multiset{k})
  {
    assert [DelOp(k)][1..] == [];
    assert Enqueue(s, t, [DelOp(k)]) == Enqueue(s.(delQ := s.delQ + multiset{k}), t, []);
  }

  /** A published flow that moves does not get its back-end opened: its removal is queued, but the SYN-ACK
      meets the entry and goes to the client. */
  lemma MoveBlocked(s: State, env: Env, req: Packet, d: Data, dips: set<Endpoint>, m: Splices, y: u32)
    requires Starts(env, s.flows, req, d) && Offloaded(s.flows, req.h.src) && req.h.src in s.switchTable
    requires env.backends[d.dIndex] in dips
    ensures Enabled(s, Process(env, req))
    ensures var k, b, s' := req.h.src, env.backends[d.dIndex], Do(s, Process(env, req));
            && k in s'.switchTable && DelPending(s', k)
            && BypassesOut(AnswerTo(m, SynFor(req, b).h, y), dips, s'.switchTable)
            && OpenBackend(env, s.flows, Switch(dips, s'.switchTable), m, req, y).None?
  {
    hide Step, Do, Enabled, OpenBackend, AnswerTo, BypassesOut, ToFrontEnd;
    MoveQueued(s, env, req, d);
    var sw, syn := Switch(dips, s.switchTable), SynFor(req, env.backends[d.dIndex]).h;
    AnswerShape(m, syn, y);
    AnswerRouted(AnswerTo(m, syn, y), sw);
    OpensExactly(env, s.flows, sw, m, req, d, y);
  }

  /** Once the removal has been sent and delivered, the SYN-ACK -- a repeated one, say -- opens the back-end. */
  lemma MoveOpensOnceDelivered(s: State, env: Env, req: Packet, d: Data, dips: set<Endpoint>, m: Splices, y: u32,
                               adds: seq<Pair>, dels: seq<Endpoint>)
    requires Starts(env, s.flows, req, d) && req.h.src in s.flows && Wired(dips, req.h.src, env.backends[d.dIndex])
    requires Enabled(s, Process(env, req)) && CanTick(Do(s, Process(env, req)), adds, dels) && req.h.src in dels
    ensures var s' := Delivered(Do(Do(s, Process(env, req)), Tick(adds, dels)));
            req.h.src !in s'.switchTable && OpenBackend(env, s.flows, Switch(dips, s'.switchTable), m, req, y).Some?
  {
    hide Step, OpenBackend, Starts, Do, CanTick, Apply, ApplyAll;
    var s1 := Do(s, Process(env, req));
    RemovalSettles(s1, adds, dels, req.h.src);
    var s2 := Do(s1, Tick(adds, dels));
    DeliveredHolds(s2);
    OpensExactly(env, s.flows, Switch(dips, Delivered(s2).switchTable), m, req, d, y);
  }

  lemma RemovalSettles(s: State, adds: seq<Pair>, dels: seq<Endpoint>, k: Endpoint)
    requires CanTick(s, adds, dels) && k in dels
    ensures k !in Settled(Do(s, Tick(adds, dels)))
  {
    SettledTick(s, adds, dels);
    DelAllAt(AddAll(Settled(s), adds), dels, k);
  }

  /** There the bypass is not the slow path: the front-end would have sent the cached request. */
  lemma MoveDiffers(s: State, env: Env, req: Packet, d: Data, dips: set<Endpoint>, m: Splices, y: u32)
    requires Starts(env, s.flows, req, d) && Offloaded(s.flows, req.h.src) && req.h.src in s.switchTable
    requires env.backends[d.dIndex] in dips && Enabled(s, Process(env, req))
    ensures var s', p := Do(s, Process(env, req)), AnswerTo(m, SynFor(req, env.backends[d.dIndex]).h, y);
            && BypassesOut(p, dips, s'.switchTable)
            && Step(env, s'.flows, p).Next?
            && Step(env, s'.flows, p).outs == [Cached(ToBackend(req, env.backends[d.dIndex]))]
            && !SlowPathSends(env, s'.flows, p, Out.Outbound(FromVirtual(p, VIRTUAL)))
  {
    hide Enabled, OpenBackend, AnswerTo, BypassesOut, ToFrontEnd;
    MoveBlocked(s, env, req, d, dips, m, y);
    MovedFlows(s, env, req, d);
    var syn := SynFor(req, env.backends[d.dIndex]).h;
    AnswerShape(m, syn, y);
    AnsweredStep(env, Do(s, Process(env, req)).flows, req, d, AnswerTo(m, syn, y));
  }

  lemma MovedFlows(s: State, env: Env, req: Packet, d: Data)
    requires Starts(env, s.flows, req, d) && Enabled(s, Process(env, req)) && req.h.src in s.flows
    ensures Do(s, Process(env, req)).flows == s.flows[req.h.src := Live(Flow(BackendSyn, d, req))]
  {
    hide Enabled;
    var o := Step(env, s.flows, req);
    assert o.ops == DelIfOffloaded(req.h.src, s.flows[req.h.src].flow);
    if o.ops == [DelOp(req.h.src)] { QueuedRemoval(s, o.table, req.h.src); }
  }

  /** Nor is it after a client has reset its published flow: its acknowledgments still go to the back-end. */
  lemma CloseDiffers(s: State, env: Env, close: Packet, ack: Packet, dips: set<Endpoint>, servers: map<u8, Endpoint>)
    requires Offloaded(s.flows, close.h.src) && close.h.src in s.switchTable && s.switchTable[close.h.src] in servers
    requires close.isIpv4 && close.isTcp && close.h.flags.rst && Agree(env, servers)
    requires s.flows[close.h.src].flow.data.dIndex in servers
    requires ack.isIpv4 && ack.h.src == close.h.src && BypassesIn(ack, dips, s.switchTable)
    ensures Enabled(s, Process(env, close))
    ensures var s' := Do(s, Process(env, close));
            && s'.switchTable == s.switchTable && DelPending(s', ack.h.src) && BypassesIn(ack, dips, s'.switchTable)
            && !SlowPathSends(env, s'.flows, ack, Out.Inbound(ToBackend(ack, servers[s'.switchTable[ack.h.src]])))
  {
    hide BypassesIn, SlowPathSends, ServedBy;
    var k := close.h.src;
    var o := Step(env, s.flows, close);
    assert o.Next? && o.ops == [DelOp(k)] && o.table == s.flows - {k};
    QueuedRemoval(s, o.table, k);
    InboundBypassExactly(env, o.table, ack, dips, s.switchTable, servers);
    NotServed(o.table, k, s.switchTable[k], servers);
  }

  lemma NotServed(t: Table, k: Endpoint, d: u8, servers: map<u8, Endpoint>)
    requires k !in t
    ensures !ServedBy(t, k, d, servers)
  {
  }

  // ---- A run that gets there ----

  function MoveRequest(): Packet {
    Packet(true, true, Header(Client(0), VIP, 42, 1, ACK_ONLY), 5, 42, ['/', 'b'])
  }

  lemma MoveRule()
    ensures RuleFor(ENV, ['/', 'b']) == Some(OTHER_DATA) && TokenFits(['/', 'b'])
  {
    var w: string := ['b'];
    TokenBetween([], w, []);
    assert [] + ['/'] + w + [] == ['/', 'b'];
    assert CString(w) == w by { assert w[1..] == []; }
  }

  function FirstState(): State {
    State(map[Client(0) := Live(Flow(Offload, DATA, Request(0)))],
          multiset{Pair(Client(0), DATA)}, multiset{}, [], map[])
  }

  lemma FirstOpen()
    ensures var trace := [Process(ENV, Request(0))] + [Process(ENV, SynAck(0))];
            Exec(trace) == Some(FirstState()) && AlwaysDrains(trace)
  {
    hide Step, Do, Enabled, AlwaysDrains;
    var s, a1, a2 := State(map[], multiset{}, multiset{}, [], map[]), Process(ENV, Request(0)), Process(ENV, SynAck(0));
    OpenOne(s.flows, 0);
    DoQuiet(s, Request(0));
    ExecSnoc([], a1);
    DoAdds(Do(s, a1), SynAck(0), Pair(Client(0), DATA));
    assert [] + [a1] == [a1];
    ExecSnoc([a1], a2);
    var none: multiset<Pair> := multiset{};
    assert none + multiset{Pair(Client(0), DATA)} == multiset{Pair(Client(0), DATA)};
    assert Do(Do(s, a1), a2) == FirstState();
    NoActionsDrain();
    DrainsSnoc([], a1);
    DrainsSnoc([a1], a2);
  }

  /** A run that drains its queues at every tick, after which a published flow is asked to move. */
  lemma PublishedMoveRun() returns (trace: seq<Action>)
    ensures Exec(trace).Some? && AlwaysDrains(trace)
    ensures var s, req := Exec(trace).value, MoveRequest();
            && Starts(ENV, s.flows, req, OTHER_DATA) && Offloaded(s.flows, req.h.src) && req.h.src in s.switchTable
            && Wired({SERVER, OTHER}, req.h.src, OTHER)
  {
    hide Step, Do, Enabled, Exec, AlwaysDrains, RuleFor, TokenFits;
    FirstOpen();
    FirstTickDelivers();
    var tick := Tick([Pair(Client(0), DATA)], []);
    trace := [Process(ENV, Request(0))] + [Process(ENV, SynAck(0))];
    DrainsSnoc(trace, tick);
    ExecSnoc(trace, tick);
    trace := trace + [tick];
    DrainsSnoc(trace, Deliver(1));
    ExecSnoc(trace, Deliver(1));
    trace := trace + [Deliver(1)];
    MoveRule();
  }

  lemma FirstTickDelivers()
    ensures var s, tick := FirstState(), Tick([Pair(Client(0), DATA)], []);
            && multiset(tick.adds) == s.addQ && multiset(tick.dels) == s.delQ
            && Enabled(s, tick) && Enabled(Do(s, tick), Deliver(1))
            && Do(Do(s, tick), Deliver(1)).flows == s.flows
            && Client(0) in Do(Do(s, tick), Deliver(1)).switchTable
  {
    hide Step;
    var s, pr := FirstState(), Pair(Client(0), DATA);
    var noKeys: seq<Endpoint> := [];
    assert multiset([pr]) == multiset{pr} && multiset(noKeys) == multiset{};
    TickTakes(s, [pr], noKeys, multiset{}, multiset{});
    var s' := Do(s, Tick([pr], noKeys));
    var msg := Msg([pr], noKeys);
    assert s'.channel == [msg] && s'.channel[..1] == [msg];
    OneMessage(msg, pr);
  }

  lemma OneMessage(msg: Msg, pr: Pair)
    requires msg == Msg([pr], [])
    ensures pr.key in ApplyAll(map[], [msg])
  {
    assert [msg][1..] == [] && ApplyAll(map[], [msg]) == Apply(map[], msg);
    AddAllAt(map[], [pr], pr.key);
    assert [pr][0].key == pr.key;
  }

  /** Without any overtaking, the back-end of that request is not opened, whatever its agent and whatever its
      initial sequence number. */
  lemma MoveCounterexample(m: Splices, y: u32) returns (trace: seq<Action>)
    ensures Exec(trace).Some? && AlwaysDrains(trace) && NoOvertaking(trace)
    ensures var s, req := Exec(trace).value, MoveRequest();
            && Starts(ENV, s.flows, req, OTHER_DATA) && Enabled(s, Process(ENV, req))
            && OpenBackend(ENV, s.flows, Switch({SERVER, OTHER}, Do(s, Process(ENV, req)).switchTable), m, req, y).None?
  {
    hide Step, Do, Enabled, Exec, AlwaysDrains, OpenBackend, Starts;
    trace := PublishedMoveRun();
    DrainingRunsNeverOvertake(trace);
    MoveBlocked(Exec(trace).value, ENV, MoveRequest(), OTHER_DATA, {SERVER, OTHER}, m, y);
  }
}
