/** What clients and back-ends see of the front-end: one law for each kind of packet, on the packet's fields and
    the flow it belongs to. Together they cover every packet of a table with live records. */
module Service {
  import opened Words
  import opened Packets
  import opened FrontEnd
  import opened FlowRuns

  predicate Tcp(p: Packet) {
    p.isIpv4 && p.isTcp
  }

  predicate Closing(p: Packet) {
    p.h.flags.rst || p.h.flags.fin
  }

  /** The datagram goes on after a 20-byte IP header and the TCP header. */
  predicate BringsData(p: Packet) {
    20 + 4 * p.dataOff < p.totalLen
  }

  const RST: Flags := Flags(false, false, true, false, false, false, false, false)

  /** Only the entry of `k` differs. */
  ghost predicate OnlyEntry(t: Table, t': Table, k: Endpoint) {
    forall e | e != k :: (e in t' <==> e in t) && (e in t ==> t'[e] == t[e])
  }

  /** A request whose rule names the flow's own back-end is forwarded there, and offloads the flow or takes it back
      as the rule says. One whose rule names another is cached while its back-end is opened, and the old one reset. */
  lemma RequestServed(env: Env, t: Table, p: Packet, d: Data)
    requires Tcp(p) && Established(t, p.h.src) && !Closing(p) && BringsData(p)
    requires RuleFor(env, p.payload) == Some(d) && Step(env, t, p).Next?
    ensures d.dIndex in env.backends
    ensures var r, k, server := Step(env, t, p), p.h.src, env.backends[d.dIndex];
            var f := t[k].flow;
            && OnlyEntry(t, r.table, k) && k in r.table && r.table[k].Live?
            && var f' := r.table[k].flow;
               if d.dIndex == f.data.dIndex then
                 && |r.outs| == 1 && r.outs[0].Inbound? && Carries(r.outs[0].pkt, p, k, server, p.h.flags)
                 && f'.data == f.data && f'.cached == f.cached
                 && f'.state == (if d.offloadFlag == 1 then Offload
                                 else if d.offloadFlag == 0 then Complete else f.state)
               else
                 && f' == Flow(BackendSyn, d, p)
                 && |r.outs| == 2 && r.outs[0] == RstToBackend(f.data.dIndex)
                 && r.outs[1].Syn? && OpensFor(r.outs[1].pkt, p, server)
  {
    hide TokenFits, RuleFor, ToBackend, SynFor, Carries, OpensFor;
    assert HasPayload(p);
    if d.dIndex in env.backends { RewritesCarry(p, env.backends[d.dIndex]); }
  }

  /** A request without a rule is not for anyone. */
  lemma RequestUnruled(env: Env, t: Table, p: Packet)
    requires Tcp(p) && !Closing(p) && BringsData(p) && RuleFor(env, p.payload) == None && Step(env, t, p).Next?
    requires Established(t, p.h.src) || (p.h.src !in t && p.h.dst !in t)
    ensures Step(env, t, p) == Next(t, [], [])
  {
    hide TokenFits, RuleFor;
  }

  /** Everything else an established client sends goes to its back-end. */
  lemma ClientForwarded(env: Env, t: Table, p: Packet)
    requires Tcp(p) && Established(t, p.h.src) && !Closing(p) && !BringsData(p) && Step(env, t, p).Next?
    ensures var r, i := Step(env, t, p), t[p.h.src].flow.data.dIndex;
            && r.table == t && r.ops == [] && i in env.backends
            && |r.outs| == 1 && r.outs[0].Inbound? && Carries(r.outs[0].pkt, p, p.h.src, env.backends[i], p.h.flags)
  {
    hide ToBackend, Carries;
    var i := t[p.h.src].flow.data.dIndex;
    if i in env.backends { RewritesCarry(p, env.backends[i]); }
  }

  /** What a back-end sends an established client comes from the virtual service. */
  lemma AnswerForwarded(env: Env, t: Table, p: Packet)
    requires Tcp(p) && p.h.src !in t && Established(t, p.h.dst) && !Closing(p)
    ensures var r := Step(env, t, p);
            && r.Next? && r.table == t && r.ops == []
            && |r.outs| == 1 && r.outs[0].Outbound? && Carries(r.outs[0].pkt, p, env.vip, p.h.dst, p.h.flags)
  {
    hide FromVirtual, Carries;
    RewritesCarry(p, env.vip);
  }

  /** A client that resets or closes loses its flow; its back-end gets a reset, and so does a client that closes. */
  lemma ClientCloses(env: Env, t: Table, p: Packet)
    requires Tcp(p) && Established(t, p.h.src) && Closing(p) && Step(env, t, p).Next?
    ensures var r, k, i := Step(env, t, p), p.h.src, t[p.h.src].flow.data.dIndex;
            && k !in r.table && OnlyEntry(t, r.table, k) && i in env.backends
            && |r.outs| == (if p.h.flags.rst then 1 else 2) && (!p.h.flags.rst ==> r.outs[0] == RstReply(k))
            && var q := r.outs[|r.outs| - 1];
               q.Inbound? && Carries(q.pkt, p, k, env.backends[i], if p.h.flags.rst then p.h.flags else RST)
  {
    hide ToBackend, AsRst, Carries;
    var i := t[p.h.src].flow.data.dIndex;
    if i in env.backends { RewritesCarry(p, env.backends[i]); }
  }

  /** A back-end that does so ends the flow as well; the client gets a reset, and so does a back-end that closes. */
  lemma BackendCloses(env: Env, t: Table, p: Packet)
    requires Tcp(p) && p.h.src !in t && Established(t, p.h.dst) && Closing(p)
    ensures var r, k := Step(env, t, p), p.h.dst;
            && r.Next? && k !in r.table && OnlyEntry(t, r.table, k)
            && |r.outs| == (if p.h.flags.rst then 1 else 2) && (!p.h.flags.rst ==> r.outs[0] == RstReply(p.h.src))
            && var q := r.outs[|r.outs| - 1];
               q.Outbound? && Carries(q.pkt, p, env.vip, k, if p.h.flags.rst then p.h.flags else RST)
  {
    hide FromVirtual, AsRst, Carries;
    RewritesCarry(p, env.vip);
  }

  /** An unknown client's request with a rule is cached and its back-end opened; anything else is ignored. */
  lemma NewcomerServed(env: Env, t: Table, p: Packet)
    requires Tcp(p) && p.h.src !in t && p.h.dst !in t && Step(env, t, p).Next?
    ensures var r, rule := Step(env, t, p), RuleFor(env, p.payload);
            if BringsData(p) && rule.Some? then
              && rule.value.dIndex in env.backends
              && r.table == t[p.h.src := Live(Flow(BackendSyn, rule.value, p))] && r.ops == []
              && |r.outs| == 1 && r.outs[0].Syn? && OpensFor(r.outs[0].pkt, p, env.backends[rule.value.dIndex])
            else r == Next(t, [], [])
  {
    hide TokenFits, RuleFor, SynFor, OpensFor;
    var rule := RuleFor(env, p.payload);
    if rule.Some? && rule.value.dIndex in env.backends { RewritesCarry(p, env.backends[rule.value.dIndex]); }
  }

  /** While its back-end is opened a client can give up, and is reset; a repeated request repeats the SYN; all
      else it sends is dropped. */
  lemma OpeningClient(env: Env, t: Table, p: Packet)
    requires Tcp(p) && Opening(t, p.h.src) && Step(env, t, p).Next?
    ensures var r, k, f := Step(env, t, p), p.h.src, t[p.h.src].flow;
            && r.ops == []
            && if Closing(p) then r.table == t[k := Dangling] && r.outs == [RstReply(k)]
               else
                 && r.table == t
                 && if p.h.seqNo != f.cached.h.seqNo then r.outs == []
                    else && f.data.dIndex in env.backends && |r.outs| == 1
                         && r.outs[0].Syn? && OpensFor(r.outs[0].pkt, p, env.backends[f.data.dIndex])
  {
    hide SynFor, OpensFor;
    var i := t[p.h.src].flow.data.dIndex;
    if i in env.backends { RewritesCarry(p, env.backends[i]); }
  }

  /** Of what a back-end sends a client being opened, only a SYN-ACK counts: it releases the cached request, and
      the flow is offloaded exactly when its rule said so. */
  lemma OpeningBackend(env: Env, t: Table, p: Packet)
    requires Tcp(p) && p.h.src !in t && Opening(t, p.h.dst) && Step(env, t, p).Next?
    ensures var r, k, f := Step(env, t, p), p.h.dst, t[p.h.dst].flow;
            if p.h.flags == Flags(false, true, false, false, true, false, false, false) then
              && f.data.dIndex in env.backends
              && r.table == t[k := Live(f.(state := if f.data.offloadFlag == 1 then Offload else Complete))]
              && |r.outs| == 1 && r.outs[0].Cached?
              && Carries(r.outs[0].pkt, f.cached, f.cached.h.src, env.backends[f.data.dIndex], f.cached.h.flags)
            else r == Next(t, [], [])
  {
    hide ToBackend, Carries;
    var f := t[p.h.dst].flow;
    if f.data.dIndex in env.backends { RewritesCarry(f.cached, env.backends[f.data.dIndex]); }
  }

  lemma OtherTraffic(env: Env, t: Table, p: Packet)
    requires !Tcp(p)
    ensures Step(env, t, p) == Next(t, [], [])
  {
  }

  // ---- When a packet is not handled ----

  /** The program looks up the rule of the packet's request: an established client's, or a newcomer's. */
  predicate LooksUp(t: Table, p: Packet) {
    Tcp(p) && BringsData(p) && ((Established(t, p.h.src) && !Closing(p)) || (p.h.src !in t && p.h.dst !in t))
  }

  /** A packet makes the program return early exactly when it is forwarded to a back-end that is not configured. */
  lemma StopsExactly(env: Env, t: Table, p: Packet)
    requires Sound(t)
    ensures Step(env, t, p).Stop? <==>
            && Tcp(p) && Established(t, p.h.src) && t[p.h.src].flow.data.dIndex !in env.backends
            && (Closing(p) || !BringsData(p)
                || (TokenFits(p.payload) && RuleFor(env, p.payload).Some?
                    && RuleFor(env, p.payload).value.dIndex == t[p.h.src].flow.data.dIndex))
  {
    hide TokenFits, RuleFor, ToBackend, FromVirtual, SynFor, DelIfOffloaded;
  }

  /** The index of a server the program reaches for without asking whether it is there. */
  predicate ReachesFor(env: Env, t: Table, p: Packet, i: u8) {
    || (LooksUp(t, p) && RuleFor(env, p.payload).Some?
        && var d := RuleFor(env, p.payload).value.dIndex;
           if p.h.src in t then d != t[p.h.src].flow.data.dIndex && (i == d || i == t[p.h.src].flow.data.dIndex)
           else i == d)
    || (Tcp(p) && Opening(t, p.h.src) && !Closing(p) && p.h.seqNo == t[p.h.src].flow.cached.h.seqNo
        && i == t[p.h.src].flow.data.dIndex)
    || (Tcp(p) && p.h.src !in t && Opening(t, p.h.dst) && p.h.flags == SYN_ACK && i == t[p.h.dst].flow.data.dIndex)
  }

  /** With live records it does what is not defined exactly when a token overflows its buffer or such a server
      is missing. */
  lemma UndefinedExactly(env: Env, t: Table, p: Packet)
    requires Sound(t)
    ensures Step(env, t, p).Undefined? <==>
            (LooksUp(t, p) && !TokenFits(p.payload)) || exists i :: ReachesFor(env, t, p, i) && i !in env.backends
  {
    hide TokenFits, RuleFor, ToBackend, FromVirtual, SynFor, DelIfOffloaded;
    if LooksUp(t, p) && RuleFor(env, p.payload).Some? {
      var d := RuleFor(env, p.payload).value.dIndex;
      if p.h.src in t {
        var own := t[p.h.src].flow.data.dIndex;
        assert d != own ==> ReachesFor(env, t, p, d) && ReachesFor(env, t, p, own);
      } else {
        assert ReachesFor(env, t, p, d);
      }
    }
    if Tcp(p) && Opening(t, p.h.src) && !Closing(p) && p.h.seqNo == t[p.h.src].flow.cached.h.seqNo {
      assert ReachesFor(env, t, p, t[p.h.src].flow.data.dIndex);
    }
    if Tcp(p) && p.h.src !in t && Opening(t, p.h.dst) && p.h.flags == SYN_ACK {
      assert ReachesFor(env, t, p, t[p.h.dst].flow.data.dIndex);
    }
  }

  // ---- No request is lost ----

  /** The request `p` of a client that can make one: established, or unknown. */
  predicate IsRequest(env: Env, t: Table, p: Packet) {
    && Tcp(p) && BringsData(p) && RuleFor(env, p.payload).Some?
    && ((Established(t, p.h.src) && !Closing(p)) || (p.h.src !in t && p.h.dst !in t))
  }

  /** One of these goes to back-end `server`, with all that `p` brings. */
  predicate SentOn(outs: seq<Out>, p: Packet, server: Endpoint) {
    exists i :: 0 <= i < |outs| && (outs[i].Inbound? || outs[i].Cached?)
                && Carries(outs[i].pkt, p, p.h.src, server, p.h.flags)
  }

  ghost predicate Sent(env: Env, outs: seq<Out>, p: Packet) {
    exists server :: server in env.backends.Values && SentOn(outs, p, server)
  }

  predicate Waits(t: Table, p: Packet) {
    Opening(t, p.h.src) && t[p.h.src].flow.cached == p
  }

  /** A request is sent on at once, or waits for its back-end. */
  lemma RequestTaken(env: Env, t: Table, p: Packet)
    requires IsRequest(env, t, p) && Step(env, t, p).Next?
    ensures Sent(env, Step(env, t, p).outs, p) || Waits(Step(env, t, p).table, p)
  {
    hide Step, RuleFor, Carries, OpensFor;
    if Established(t, p.h.src) {
      RequestServed(env, t, p, RuleFor(env, p.payload).value);
      var d, outs := RuleFor(env, p.payload).value, Step(env, t, p).outs;
      if d.dIndex == t[p.h.src].flow.data.dIndex {
        assert SentOn(outs, p, env.backends[d.dIndex]);
      }
    } else {
      NewcomerServed(env, t, p);
    }
  }

  /** A waiting request goes on waiting, or is sent, unless its client gives up. */
  lemma RequestKept(env: Env, t: Table, p: Packet, e: Packet)
    requires Sound(t) && Waits(t, p) && !ClientAborts(t, e) && Step(env, t, e).Next?
    ensures Waits(Step(env, t, e).table, p) || Sent(env, Step(env, t, e).outs, p)
  {
    hide Step, RuleFor, Carries, OpensFor, TokenFits;
    var k := p.h.src;
    if !Tcp(e) {
      OtherTraffic(env, t, e);
    } else if e.h.src == k {
      OpeningClient(env, t, e);
    } else if e.h.src !in t && e.h.dst == k {
      OpeningBackend(env, t, e);
      var f, outs := t[k].flow, Step(env, t, e).outs;
      if e.h.flags == SYN_ACK { assert SentOn(outs, p, env.backends[f.data.dIndex]); }
    } else {
      Untouched(env, t, e, k);
    }
  }

  /** A step touches the source's entry, or the destination's when the source has none. */
  lemma Untouched(env: Env, t: Table, p: Packet, k: Endpoint)
    requires Sound(t) && Step(env, t, p).Next? && k != p.h.src && (p.h.src in t || k != p.h.dst)
    ensures var t' := Step(env, t, p).table; (k in t' <==> k in t) && (k in t ==> t'[k] == t[k])
  {
    hide TokenFits, RuleFor, ToBackend, FromVirtual, SynFor;
  }

  /** Event `j` of the run sends `p` to a back-end. */
  ghost predicate SentAt(trace: seq<Event>, j: nat, p: Packet) {
    && j < |trace| && Run(trace[..j]).Ran?
    && var r := Step(trace[j].env, Run(trace[..j]).table, trace[j].p);
       r.Next? && Sent(trace[j].env, r.outs, p)
  }

  ghost predicate SentSince(trace: seq<Event>, i: nat, p: Packet) {
    exists j :: i <= j < |trace| && SentAt(trace, j, p)
  }

  lemma SentEarlier(trace: seq<Event>, i: nat, p: Packet)
    requires trace != [] && SentSince(trace[..|trace| - 1], i, p)
    ensures SentSince(trace, i, p)
  {
    hide Run, Sent;
    var before := trace[..|trace| - 1];
    var j :| i <= j < |before| && SentAt(before, j, p);
    assert before[..j] == trace[..j] && before[j] == trace[j];
    assert SentAt(trace, j, p);
  }

  lemma SentLast(trace: seq<Event>, i: nat, p: Packet)
    requires trace != [] && i < |trace| && SentAt(trace, |trace| - 1, p)
    ensures SentSince(trace, i, p)
  {
  }

  lemma StepOfLast(trace: seq<Event>)
    requires trace != [] && Run(trace).Ran?
    ensures Run(trace[..|trace| - 1]).Ran?
    ensures var t, e := Run(trace[..|trace| - 1]).table, trace[|trace| - 1];
            var r := Step(e.env, t, e.p);
            !r.Undefined? && Run(trace).table == if r.Next? then r.table else t
  {
    hide Step;
  }

  /** In every run without aborts, each request with a rule that is not turned away by an early return has been sent
      to a back-end, whole and with only its destination changed, or is the one its client's flow waits to send. */
  lemma {:induction false} NoRequestLost(trace: seq<Event>, i: nat)
    requires Run(trace).Ran? && NoAborts(trace) && i < |trace| && Run(trace[..i]).Ran?
    requires IsRequest(trace[i].env, Run(trace[..i]).table, trace[i].p)
    requires Step(trace[i].env, Run(trace[..i]).table, trace[i].p).Next?
    ensures SentSince(trace, i, trace[i].p) || Waits(Run(trace).table, trace[i].p)
  {
    hide Step, Run, NoAborts, Sent, Waits, IsRequest, Sound, ClientAborts, SentAt, SentSince;
    var n, p := |trace| - 1, trace[i].p;
    var before, e := trace[..n], trace[n];
    StepOfLast(trace);
    NoAbortsPrefix(trace);
    var t := Run(before).table;
    SynsPrecedeCachedRequest(before, p.h.src);
    if i == n {
      assert trace[..i] == before;
      RequestTaken(e.env, t, p);
      if Sent(e.env, Step(e.env, t, p).outs, p) { SentNow(trace, p); SentLast(trace, i, p); }
    } else {
      assert before[..i] == trace[..i] && before[i] == trace[i];
      NoRequestLost(before, i);
      if SentSince(before, i, p) {
        SentEarlier(trace, i, p);
      } else if Step(e.env, t, e.p).Next? {
        RequestKept(e.env, t, p, e.p);
        if Sent(e.env, Step(e.env, t, e.p).outs, p) { SentNow(trace, p); SentLast(trace, i, p); }
      }
    }
  }

  lemma SentNow(trace: seq<Event>, p: Packet)
    requires trace != [] && Run(trace[..|trace| - 1]).Ran?
    requires var e := trace[|trace| - 1]; var r := Step(e.env, Run(trace[..|trace| - 1]).table, e.p);
             r.Next? && Sent(e.env, r.outs, p)
    ensures SentAt(trace, |trace| - 1, p)
  {
  }
}
