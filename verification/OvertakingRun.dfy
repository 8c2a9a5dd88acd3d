/** Runs of the front-end in which a removal overtakes its addition: one flow more than a tick takes additions
    is offloaded, and the last of them closes before the tick takes its removals. */
module OvertakingRun {
  import opened Words
  import opened Packets
  import opened FrontEnd
  import opened Publication
  import SwitchPipeline

  const VIP: Endpoint := SwitchPipeline.VIRTUAL
  const SERVER: Endpoint := Endpoint(0, 8080)
  const OTHER: Endpoint := Endpoint(0, 8081)
  const DATA: Data := Data(1, 7)
  const OTHER_DATA: Data := Data(1, 8)
  const ENV: Env := Env(map["" := DATA, "b" := OTHER_DATA], map[7 := SERVER, 8 := OTHER], VIP)
  const ACK_ONLY: Flags := Flags(false, false, false, false, true, false, false, false)

  function Client(i: nat): Endpoint
    requires i <= BATCH
  {
    Endpoint(i + 1, 1)
  }

  function Request(i: nat): Packet
    requires i <= BATCH
  {
    Packet(true, true, Header(Client(i), VIP, 1, 1, ACK_ONLY), 5, 41, ['/'])
  }

  function SynAck(i: nat): Packet
    requires i <= BATCH
  {
    Packet(true, true, Header(SERVER, Client(i), 1, 1, SYN_ACK), 5, 40, [])
  }

  function Opening(n: nat): seq<Action>
    requires n <= BATCH + 1
  {
    if n == 0 then [] else Opening(n - 1) + [Process(ENV, Request(n - 1))] + [Process(ENV, SynAck(n - 1))]
  }

  function Pairs(n: nat): (ps: seq<Pair>)
    requires n <= BATCH + 1
    ensures |ps| == n
  {
    if n == 0 then [] else Pairs(n - 1) + [Pair(Client(n - 1), DATA)]
  }

  lemma PairsGrow(n: nat)
    requires n <= BATCH
    ensures multiset(Pairs(n + 1)) == multiset(Pairs(n)) + multiset{Pair(Client(n), DATA)}
  {
    hide Client;
    assert Pairs(n + 1) == Pairs(n) + [Pair(Client(n), DATA)];
  }

  /** A request and the SYN-ACK that answers it leave a new client OFFLOAD, with one addition. */
  lemma OpenOne(t: Table, i: nat)
    requires i <= BATCH && Client(i) !in t && SERVER !in t && VIP !in t
    ensures Step(ENV, t, Request(i)).Next? && Step(ENV, t, Request(i)).ops == []
    ensures var t1 := Step(ENV, t, Request(i)).table;
            && Step(ENV, t1, SynAck(i)).Next?
            && Step(ENV, t1, SynAck(i)).ops == [AddOp(Pair(Client(i), DATA))]
            && Step(ENV, t1, SynAck(i)).table == t[Client(i) := Live(Flow(Offload, DATA, Request(i)))]
  {
    assert Token(['/']) == [] by { assert ['/'][1..] == []; }
    var t1 := Step(ENV, t, Request(i)).table;
    assert t1 == t[Client(i) := Live(Flow(BackendSyn, DATA, Request(i)))];
  }

  /** After `n` clients have been opened, each is OFFLOAD and has one addition queued. */
  ghost predicate OpenedState(s: State, n: nat)
    requires n <= BATCH + 1
  {
    s == State(s.flows, multiset(Pairs(n)), multiset{}, [], map[]) && OpenedFlowsOf(s.flows, n)
  }

  ghost predicate OpenedFlowsOf(flows: Table, n: nat)
    requires n <= BATCH + 1
  {
    && SERVER !in flows && VIP !in flows
    && (forall i | 0 <= i < n :: OffloadedTo(flows, Client(i), 7))
    && forall i | n <= i <= BATCH :: Client(i) !in flows
  }

  lemma {:induction false} Opened(n: nat)
    requires n <= BATCH + 1
    ensures Exec(Opening(n)).Some? && OpenedState(Exec(Opening(n)).value, n)
  {
    hide Step, Do, Enabled, Exec, Opening, OpenedState;
    if n == 0 {
      NothingOpened();
    } else {
      Opened(n - 1);
      ExecOpen(n - 1);
    }
  }

  lemma NothingOpened()
    ensures Exec(Opening(0)).Some? && OpenedState(Exec(Opening(0)).value, 0)
  {
    hide Step, Do, Enabled;
  }

  lemma ExecOpen(i: nat)
    requires i <= BATCH && Exec(Opening(i)).Some? && OpenedState(Exec(Opening(i)).value, i)
    ensures Exec(Opening(i + 1)).Some? && OpenedState(Exec(Opening(i + 1)).value, i + 1)
  {
    hide Step, Do, Enabled, Exec, Opening, OpenedState, Request, SynAck;
    var s, a1, a2 := Exec(Opening(i)).value, Process(ENV, Request(i)), Process(ENV, SynAck(i));
    OpenedFlows(s, i);
    OpenOne(s.flows, i);
    DoQuiet(s, Request(i));
    ExecSnoc(Opening(i), a1);
    DoAdds(Do(s, a1), SynAck(i), Pair(Client(i), DATA));
    ExecSnoc(Opening(i) + [a1], a2);
    OpenedGrows(s, Do(Do(s, a1), a2), i);
    assert Opening(i + 1) == Opening(i) + [a1] + [a2] by { OpeningUnfolds(i); }
  }

  lemma OpeningUnfolds(i: nat)
    requires i <= BATCH
    ensures Opening(i + 1) == Opening(i) + [Process(ENV, Request(i))] + [Process(ENV, SynAck(i))]
  {
  }

  lemma OpenedFlows(s: State, i: nat)
    requires i <= BATCH && OpenedState(s, i)
    ensures Client(i) !in s.flows && SERVER !in s.flows && VIP !in s.flows
  {
  }

  lemma DoQuiet(s: State, p: Packet)
    requires Step(ENV, s.flows, p).Next? && Step(ENV, s.flows, p).ops == []
    ensures Enabled(s, Process(ENV, p)) && Do(s, Process(ENV, p)) == s.(flows := Step(ENV, s.flows, p).table)
  {
    hide Step;
  }

  lemma DoAdds(s: State, p: Packet, pr: Pair)
    requires Step(ENV, s.flows, p).Next? && Step(ENV, s.flows, p).ops == [AddOp(pr)]
    ensures Enabled(s, Process(ENV, p))
    ensures Do(s, Process(ENV, p)) == s.(addQ := s.addQ + multiset{pr}, flows := Step(ENV, s.flows, p).table)
  {
    hide Step;
    var t := Step(ENV, s.flows, p).table;
    assert [AddOp(pr)][1..] == [];
    assert Enqueue(s, t, [AddOp(pr)]) == Enqueue(s.(addQ := s.addQ + multiset{pr}), t, []);
  }

  lemma OpenedGrows(s: State, s2: State, i: nat)
    requires i <= BATCH && OpenedState(s, i)
    requires s2 == s.(addQ := s.addQ + multiset{Pair(Client(i), DATA)},
                      flows := s.flows[Client(i) := Live(Flow(Offload, DATA, Request(i)))])
    ensures OpenedState(s2, i + 1)
  {
    hide OpenedFlowsOf, Client, Request, Pairs;
    OpenedFlowsGrow(s.flows, i);
    PairsGrow(i);
  }

  lemma OpenedFlowsGrow(flows: Table, i: nat)
    requires i <= BATCH && OpenedFlowsOf(flows, i)
    ensures OpenedFlowsOf(flows[Client(i) := Live(Flow(Offload, DATA, Request(i)))], i + 1)
  {
    hide Request;
    var k, flows' := Client(i), flows[Client(i) := Live(Flow(Offload, DATA, Request(i)))];
    assert OffloadedTo(flows', k, 7);
    forall j | 0 <= j < i ensures OffloadedTo(flows', Client(j), 7) {
      assert OffloadedTo(flows, Client(j), 7) && Client(j) != k;
    }
  }

  /** With `b + 1` flows queued and the last of them removed, the first tick takes `b` additions and the removal,
      the second the addition left behind. With none taken, the flow came and went between the two dequeues. */
  function FirstTick(b: nat): Action
    requires b <= BATCH
  {
    Tick(Pairs(b), [Client(b)])
  }

  function SecondTick(b: nat): Action
    requires b <= BATCH
  {
    Tick([Pair(Client(b), DATA)], [])
  }

  function Messages(b: nat): seq<Msg>
    requires b <= BATCH
  {
    [Msg(Pairs(b), [Client(b)])] + [Msg([Pair(Client(b), DATA)], [])]
  }

  lemma CloseLast(s: State, b: nat)
    requires b <= BATCH && OpenedState(s, b + 1)
    ensures var close := Process(ENV, AsRst(Request(b)));
            && Enabled(s, close)
            && Do(s, close) == s.(flows := s.flows - {Client(b)}, delQ := multiset([Client(b)]))
  {
    var k := Client(b);
    assert OffloadedTo(s.flows, k, 7);
    assert Enqueue(s, s.flows - {k}, [DelOp(k)]) == s.(flows := s.flows - {k}, delQ := s.delQ + multiset{k}) by {
      assert [DelOp(k)][1..] == [];
    }
    assert s.delQ + multiset{k} == multiset([k]);
  }

  lemma BatchAndLast(b: nat)
    requires b <= BATCH
    ensures multiset(Pairs(b + 1)) == multiset(Pairs(b)) + multiset([Pair(Client(b), DATA)])
  {
    hide Pairs;
    PairsGrow(b);
    assert multiset([Pair(Client(b), DATA)]) == multiset{Pair(Client(b), DATA)};
  }

  lemma TwoTicks(s: State, b: nat)
    requires b <= BATCH && s == State(s.flows, multiset(Pairs(b + 1)), multiset([Client(b)]), [], map[])
    ensures Enabled(s, FirstTick(b)) && Enabled(Do(s, FirstTick(b)), SecondTick(b))
    ensures Do(Do(s, FirstTick(b)), SecondTick(b)) == State(s.flows, multiset{}, multiset{}, Messages(b), map[])
  {
    hide Step, Enabled, Do, Pairs, Client;
    BatchAndLast(b);
    var noDels: multiset<Endpoint>, noAdds: multiset<Pair> := multiset{}, multiset{};
    var last := [Pair(Client(b), DATA)];
    assert multiset([Client(b)]) + noDels == multiset([Client(b)]);
    TickTakes(s, Pairs(b), [Client(b)], multiset(last), noDels);
    TickTakes(Do(s, FirstTick(b)), last, [], noAdds, noDels) by { assert multiset(last) + noAdds == multiset(last); }
  }

  lemma StaleAfterDelivery(b: nat)
    requires b <= BATCH
    ensures Client(b) in ApplyAll(map[], Messages(b))
  {
    var k, ms, m1 := Client(b), Messages(b), Msg([Pair(Client(b), DATA)], []);
    ApplyAllAppend(map[], [ms[0]], [m1]);
    var st := ApplyAll(map[], [ms[0]]);
    assert [m1][1..] == [] && ApplyAll(st, [m1]) == Apply(st, m1);
    AddAllAt(st, m1.adds, k);
    assert m1.adds[0].key == k;
    DelAllAt(AddAll(st, m1.adds), m1.dels, k);
  }

  lemma DeliverBoth(s: State, b: nat)
    requires b <= BATCH && s.channel == Messages(b) && s.switchTable == map[]
    ensures Enabled(s, Deliver(2))
    ensures Do(s, Deliver(2)) == s.(channel := [], switchTable := ApplyAll(map[], Messages(b)))
  {
    hide Step;
    assert s.channel[..2] == Messages(b) && s.channel[2..] == [];
  }

  /** The overtaking run: the switch keeps an entry for a flow that is gone, and no removal is pending. */
  lemma StaleEntry(b: nat) returns (trace: seq<Action>)
    requires b <= BATCH
    ensures Exec(trace).Some? && !Safe(Exec(trace).value, Client(b))
    ensures FirstTick(b) in trace
    ensures Client(b) in Exec(trace).value.switchTable && Client(b) !in Exec(trace).value.flows
  {
    hide Step, Enabled, Do, Pairs, Client, ApplyAll;
    Opened(b + 1);
    var s0 := Exec(Opening(b + 1)).value;
    CloseLast(s0, b);
    var close := Process(ENV, AsRst(Request(b)));
    ExecSnoc(Opening(b + 1), close);
    TwoTicks(Do(s0, close), b);
    ExecSnoc(Opening(b + 1) + [close], FirstTick(b));
    ExecSnoc(Opening(b + 1) + [close] + [FirstTick(b)], SecondTick(b));
    trace := Opening(b + 1) + [close] + [FirstTick(b)] + [SecondTick(b)];
    var s3 := Exec(trace).value;
    DeliverBoth(s3, b);
    ExecSnoc(trace, Deliver(2));
    trace := trace + [Deliver(2)];
    StaleAfterDelivery(b);
  }

  /** One flow more than a full batch, all of it queued before the first tick, is enough. */
  lemma FullBatchCounterexample() returns (trace: seq<Action>, k: Endpoint)
    ensures Exec(trace).Some? && !Safe(Exec(trace).value, k)
    ensures exists a | a in trace :: a.Tick? && |a.adds| == BATCH && a.dels == [k]
  {
    var b := BATCH;
    trace := StaleEntry(b);
    k := Client(b);
    assert FirstTick(b) in trace;
  }
}
