/** Whole runs of the front-end: offload accounting, record ownership and the cached request. */
module FlowRuns {
  import opened Words
  import opened Packets
  import opened FrontEnd

  /** One processed packet and the configuration it met. */
  datatype Event = Event(env: Env, p: Packet)

  datatype Result = Ran(table: Table, ops: seq<Op>) | Broken

  /** A run from the empty table. A stopped packet changes nothing; an undefined one breaks the run. */
  function Run(trace: seq<Event>): Result {
    if trace == [] then Ran(map[], [])
    else
      var e := trace[|trace| - 1];
      match Run(trace[..|trace| - 1])
      case Broken => Broken
      case Ran(t, ops) =>
        match Step(e.env, t, e.p)
        case Next(t', _, more) => Ran(t', ops + more)
        case Stop => Ran(t, ops)
        case Undefined => Broken
  }

  // ---- Offload accounting over runs ----

  /** The operations on one client key, in queueing order. */
  function OpsOf(ops: seq<Op>, k: Endpoint): seq<Op> {
    if ops == [] then []
    else
      var rest := OpsOf(ops[..|ops| - 1], k);
      if KeyOf(ops[|ops| - 1]) == k then rest + [ops[|ops| - 1]] else rest
  }

  lemma OpsOfSnoc(ops: seq<Op>, more: seq<Op>, k: Endpoint)
    requires |more| <= 1
    ensures OpsOf(ops + more, k) == OpsOf(ops, k) + (if |more| == 1 && KeyOf(more[0]) == k then more else [])
  {
    if |more| == 1 {
      assert (ops + more)[..|ops + more| - 1] == ops;
      assert more == [more[0]];
    } else {
      assert ops + more == ops;
    }
  }

  /** Addition, removal, addition, ... */
  ghost predicate Alternates(h: seq<Op>) {
    forall i | 0 <= i < |h| :: h[i].AddOp? <==> i % 2 == 0
  }

  /** The operations of a key tell exactly whether, and to which back-end, it is OFFLOAD. */
  ghost predicate History(h: seq<Op>, t: Table, k: Endpoint) {
    && Alternates(h)
    && (Offloaded(t, k) <==> |h| % 2 == 1)
    && (Offloaded(t, k) ==> h[|h| - 1] == AddOp(Pair(k, t[k].flow.data)))
  }

  lemma HistoryStep(ops: seq<Op>, more: seq<Op>, t: Table, t': Table, k: Endpoint)
    requires History(OpsOf(ops, k), t, k) && Accounts(t, t', more)
    ensures History(OpsOf(ops + more, k), t', k)
  {
    hide OpsOf;
    OpsOfSnoc(ops, more, k);
    if more == [] || KeyOf(more[0]) != k {
      assert SameOffload(t, t', k);
    }
  }

  /** Over every run the operations queued for a key strictly alternate, starting with an
      addition; the last is an addition exactly when the flow is OFFLOAD, and carries its data. */
  lemma {:induction false} OffloadAccounting(trace: seq<Event>, k: Endpoint)
    requires Run(trace).Ran?
    ensures History(OpsOf(Run(trace).ops, k), Run(trace).table, k)
  {
    if trace != [] {
      var before, e := trace[..|trace| - 1], trace[|trace| - 1];
      OffloadAccounting(before, k);
      var t := Run(before).table;
      match Step(e.env, t, e.p)
      case Next(t', _, more) =>
        StepAccounts(e.env, t, e.p);
        HistoryStep(Run(before).ops, more, t, t', k);
      case Stop =>
    }
  }

  // ---- Records ----

  /** Every key owns a live record that has left INIT. */
  ghost predicate Sound(t: Table) {
    forall k | k in t :: t[k].Live? && !t[k].flow.state.Init?
  }

  /** The client gives up while its back-end connection is being opened. */
  predicate ClientAborts(t: Table, p: Packet) {
    && p.isIpv4 && p.isTcp && p.h.src in t && t[p.h.src].Live? && t[p.h.src].flow.state == BackendSyn
    && (p.h.flags.fin || p.h.flags.rst)
  }

  /** A step keeps every key on a live record exactly when the client does not abort in BACKEND_SYN. */
  lemma SoundUnlessAborted(env: Env, t: Table, p: Packet)
    requires Sound(t) && Step(env, t, p).Next?
    ensures Sound(Step(env, t, p).table) <==> !ClientAborts(t, p)
  {
    if ClientAborts(t, p) {
      assert Step(env, t, p).table[p.h.src] == Dangling;
    } else {
      SoundKept(env, t, p);
    }
  }

  lemma SoundKept(env: Env, t: Table, p: Packet)
    requires Sound(t) && Step(env, t, p).Next? && !ClientAborts(t, p)
    ensures Sound(Step(env, t, p).table)
  {
  }

  /** Every rule and every live flow names a back-end of the current configuration. */
  ghost predicate Covered(env: Env, t: Table) {
    && (forall s | s in env.rules :: env.rules[s].dIndex in env.backends)
    && (forall k | k in t && t[k].Live? :: t[k].flow.data.dIndex in env.backends)
  }

  /** The step parses the payload: a new flow, or an established one whose client neither resets nor closes. */
  predicate Parses(t: Table, p: Packet) {
    && p.isIpv4 && p.isTcp && HasPayload(p)
    && if p.h.src in t then t[p.h.src].Live? && t[p.h.src].flow.state != BackendSyn && !p.h.flags.rst && !p.h.flags.fin
       else p.h.dst !in t
  }

  /** With live records and a complete configuration a step never stops, and is undefined
      exactly when it parses a token that does not fit. */
  lemma DefinedExactly(env: Env, t: Table, p: Packet)
    requires Sound(t) && Covered(env, t)
    ensures !Step(env, t, p).Stop?
    ensures Step(env, t, p).Undefined? <==> Parses(t, p) && !TokenFits(p.payload)
  {
    if p.h.src in t && t[p.h.src].Live? { assert t[p.h.src].flow.data.dIndex in env.backends; }
    if p.h.dst in t && t[p.h.dst].Live? { assert t[p.h.dst].flow.data.dIndex in env.backends; }
    var key := CString(Token(p.payload));
    if key in env.rules { assert env.rules[key].dIndex in env.backends; }
  }

  /** After an abort the client's next packet finds the freed record. */
  lemma AbortedFlowBreaks(env: Env, t: Table, p: Packet, q: Packet)
    requires ClientAborts(t, p)
    requires q.isIpv4 && q.isTcp && q.h.src == p.h.src
    ensures Step(env, t, p).Next? && Step(env, Step(env, t, p).table, q) == Undefined
  {
    assert Step(env, t, p).table[p.h.src] == Dangling;
  }

  /** Three packets of one client that break a run from the empty table. */
  lemma AbortCounterexample() returns (trace: seq<Event>)
    ensures |trace| == 3 && Run(trace[..2]).Ran? && Run(trace) == Broken
  {
    var client, vip := Endpoint(1, 1), Endpoint(2, 80);
    var env := Env(map["" := Data(1, 7)], map[7 := Endpoint(3, 80)], vip);
    var ack := Flags(false, false, false, false, true, false, false, false);
    var request := Packet(true, true, Header(client, vip, 1, 1, ack), 5, 41, ['x']);
    var e0, e1 := Event(env, request), Event(env, AsRst(request));
    trace := [e0, e1, e0];
    assert Run([]) == Ran(map[], []);
    assert [e0][..0] == [];
    assert Token(['x']) == [] by { assert Token(['x'][1..]) == []; }
    assert Step(env, map[], request).table[client] == Live(Flow(BackendSyn, Data(1, 7), request));
    assert Run([e0]).Ran? && ClientAborts(Run([e0]).table, AsRst(request));
    assert [e0, e1][..1] == [e0] && trace[..2] == [e0, e1];
    AbortedFlowBreaks(env, Run([e0]).table, AsRst(request), request);
    assert Run([e0, e1]).Ran?;
  }

  // ---- The cached request ----

  predicate Opening(t: Table, k: Endpoint) {
    k in t && t[k].Live? && t[k].flow.state == BackendSyn
  }

  predicate Established(t: Table, k: Endpoint) {
    k in t && t[k].Live? && t[k].flow.state in {Complete, Offload}
  }

  /** A flow becomes established out of BACKEND_SYN exactly when the step sends, once, the request it cached. */
  lemma CachedSentOnSynAck(env: Env, t: Table, p: Packet, k: Endpoint)
    requires Sound(t) && Step(env, t, p).Next?
    ensures Opening(t, k) && Established(Step(env, t, p).table, k)
      <==> && Opening(t, k) && k == p.h.dst && t[k].flow.data.dIndex in env.backends
           && Step(env, t, p).outs == [Cached(ToBackend(t[k].flow.cached, env.backends[t[k].flow.data.dIndex]))]
  {
  }

  /** The SYNs a step sends for client `k`. */
  function SynsFor(outs: seq<Out>, k: Endpoint): seq<Packet> {
    if outs == [] then []
    else (if outs[0].Syn? && outs[0].pkt.h.src == k then [outs[0].pkt] else []) + SynsFor(outs[1..], k)
  }

  /** Entering BACKEND_SYN sends one SYN; staying keeps the record and sends at most repetitions. */
  lemma StepSyns(env: Env, t: Table, p: Packet, k: Endpoint)
    requires Sound(t) && Step(env, t, p).Next? && Opening(Step(env, t, p).table, k)
    ensures var t', syns := Step(env, t, p).table, SynsFor(Step(env, t, p).outs, k);
            && (Opening(t, k) ==> t'[k] == t[k])
            && (!Opening(t, k) ==> |syns| == 1)
            && forall q | q in syns :: q.h.seqNo == Sub32(t'[k].flow.cached.h.seqNo, 1)
  {
    var t', outs := Step(env, t, p).table, Step(env, t, p).outs;
    StepSynShape(env, t, p, k);
    SynsForShort(outs, k);
  }

  lemma SynsForShort(outs: seq<Out>, k: Endpoint)
    requires |outs| <= 2
    requires |outs| == 2 ==> !outs[0].Syn?
    ensures SynsFor(outs, k)
         == if outs != [] && outs[|outs| - 1].Syn? && outs[|outs| - 1].pkt.h.src == k then [outs[|outs| - 1].pkt]
            else []
  {
    if |outs| == 2 { assert outs[1..] == [outs[1]]; }
  }

  /** A SYN is the last output of its step, and opens or re-opens the flow of the packet's source. */
  lemma StepSynShape(env: Env, t: Table, p: Packet, k: Endpoint)
    requires Sound(t) && Step(env, t, p).Next? && Opening(Step(env, t, p).table, k)
    ensures var t', outs := Step(env, t, p).table, Step(env, t, p).outs;
            && |outs| <= 2 && (|outs| == 2 ==> !outs[0].Syn?)
            && (Opening(t, k) ==> t'[k] == t[k])
            && (!Opening(t, k) ==> outs != [] && outs[|outs| - 1].Syn? && outs[|outs| - 1].pkt.h.src == k)
            && (outs != [] && outs[|outs| - 1].Syn? && outs[|outs| - 1].pkt.h.src == k ==>
                  outs[|outs| - 1].pkt.h.seqNo == Sub32(t'[k].flow.cached.h.seqNo, 1))
  {
    hide ClientStep, ClientSynStep, DstStep;
    if p.h.src in t {
      var f := t[p.h.src].flow;
      if f.state == BackendSyn { ClientRepeatsSyn(env, t, p, f, k); } else { ClientSynShape(env, t, p, f, k); }
    } else {
      DstSynShape(env, t, p, k);
    }
  }

  predicate SynShape(t: Table, r: Outcome, k: Endpoint) {
    r.Next? && Opening(r.table, k) ==>
      && |r.outs| <= 2 && (|r.outs| == 2 ==> !r.outs[0].Syn?)
      && (Opening(t, k) ==> r.table[k] == t[k])
      && (!Opening(t, k) ==> r.outs != [] && r.outs[|r.outs| - 1].Syn? && r.outs[|r.outs| - 1].pkt.h.src == k)
      && (r.outs != [] && r.outs[|r.outs| - 1].Syn? && r.outs[|r.outs| - 1].pkt.h.src == k ==>
            r.outs[|r.outs| - 1].pkt.h.seqNo == Sub32(r.table[k].flow.cached.h.seqNo, 1))
  }

  lemma ClientSynShape(env: Env, t: Table, p: Packet, f: Flow, k: Endpoint)
    requires p.h.src in t && t[p.h.src] == Live(f) && f.state in {Complete, Offload}
    ensures SynShape(t, ClientStep(env, t, p, f), k)
  {
    hide TokenFits, RuleFor, ToBackend, DelIfOffloaded;
  }

  lemma ClientRepeatsSyn(env: Env, t: Table, p: Packet, f: Flow, k: Endpoint)
    requires p.h.src in t && t[p.h.src] == Live(f) && f.state == BackendSyn
    ensures SynShape(t, ClientSynStep(env, t, p, f), k)
  {
  }

  lemma DstSynShape(env: Env, t: Table, p: Packet, k: Endpoint)
    requires Sound(t) && p.h.src !in t
    ensures SynShape(t, DstStep(env, t, p), k)
  {
    hide TokenFits, RuleFor, ToBackend, DelIfOffloaded;
  }

  /** Every SYN sent for `k` since it last entered BACKEND_SYN. */
  function SynsSinceEntry(trace: seq<Event>, k: Endpoint): seq<Packet> {
    if trace == [] || !Run(trace).Ran? || !Opening(Run(trace).table, k) then []
    else
      var before, e := trace[..|trace| - 1], trace[|trace| - 1];
      var t := Run(before).table;
      var earlier := if Opening(t, k) then SynsSinceEntry(before, k) else [];
      match Step(e.env, t, e.p)
      case Next(_, outs, _) => earlier + SynsFor(outs, k)
      case _ => earlier
  }

  ghost predicate NoAborts(trace: seq<Event>) {
    forall i {:trigger trace[i]} | 0 <= i < |trace| ::
      Run(trace[..i]).Ran? ==> !ClientAborts(Run(trace[..i]).table, trace[i].p)
  }

  lemma NoAbortsPrefix(trace: seq<Event>)
    requires trace != [] && NoAborts(trace)
    ensures NoAborts(trace[..|trace| - 1])
    ensures Run(trace[..|trace| - 1]).Ran? ==> !ClientAborts(Run(trace[..|trace| - 1]).table, trace[|trace| - 1].p)
  {
    var n := |trace| - 1;
    assert trace[n] == trace[|trace| - 1];
    forall i | 0 <= i < n
      ensures Run(trace[..n][..i]).Ran? ==> !ClientAborts(Run(trace[..n][..i]).table, trace[..n][i].p)
    {
      assert trace[..n][..i] == trace[..i] && trace[..n][i] == trace[i];
    }
  }

  /** Without aborts every reachable table is sound, and every SYN sent since a flow entered
      BACKEND_SYN -- at least one -- carries the cached request's sequence number less one. */
  lemma {:induction false} SynsPrecedeCachedRequest(trace: seq<Event>, k: Endpoint)
    requires Run(trace).Ran? && NoAborts(trace)
    ensures Sound(Run(trace).table)
    ensures Opening(Run(trace).table, k) ==>
              && SynsSinceEntry(trace, k) != []
              && forall q | q in SynsSinceEntry(trace, k) ::
                   q.h.seqNo == Sub32(Run(trace).table[k].flow.cached.h.seqNo, 1)
  {
    if trace != [] {
      var before, e := trace[..|trace| - 1], trace[|trace| - 1];
      NoAbortsPrefix(trace);
      SynsPrecedeCachedRequest(before, k);
      var t := Run(before).table;
      if Step(e.env, t, e.p).Next? {
        SoundKept(e.env, t, e.p);
        if Opening(Run(trace).table, k) {
          StepSyns(e.env, t, e.p, k);
        }
      }
    }
  }
}
