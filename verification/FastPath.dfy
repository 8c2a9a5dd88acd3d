/** The switch's bypass refines the front-end's slow path. */
module FastPath {
  import opened Words
  import opened Packets
  import opened FrontEnd
  import opened Publication
  import opened FlowRuns
  import SwitchPipeline

  /** Switch and front-end are configured alike. */
  predicate Agree(env: Env, servers: map<u8, Endpoint>) {
    env.backends == servers && env.vip == SwitchPipeline.VIRTUAL
  }

  /** The flow is established at the back-end that index `d` names. */
  predicate ServedBy(t: Table, k: Endpoint, d: u8, servers: map<u8, Endpoint>) {
    && Established(t, k) && d in servers && t[k].flow.data.dIndex in servers
    && servers[t[k].flow.data.dIndex] == servers[d]
  }

  /** The front-end would send this for the packet, and do nothing else. */
  predicate SlowPathSends(env: Env, t: Table, p: Packet, out: Out) {
    Step(env, t, p) == Next(t, [out], [])
  }

  /** A packet bypassed to its back-end: the front-end would send the same packet and do nothing else
      exactly when the flow is established at the published back-end. */
  lemma InboundBypassExactly(env: Env, t: Table, p: Packet, dips: set<Endpoint>, offload: SwitchTable,
                             servers: map<u8, Endpoint>)
    requires p.isIpv4 && Agree(env, servers)
    requires SwitchPipeline.BypassesIn(p, dips, offload) && offload[p.h.src] in servers
    ensures SlowPathSends(env, t, p, Inbound(ToBackend(p, servers[offload[p.h.src]])))
      <==> ServedBy(t, p.h.src, offload[p.h.src], servers)
  {
    hide DstStep, ClientSynStep, HasPayload;
    var k := p.h.src;
    assert !HasPayload(p) by { NoPayload(p); }
    NothingNew(env, t, p);
    if k in t && t[k].Live? && t[k].flow.state == BackendSyn { OpeningSends(env, t, p, t[k].flow); }
    var out := Inbound(ToBackend(p, servers[offload[k]]));
    assert out.pkt.h.dst == servers[offload[k]];
    if SlowPathSends(env, t, p, out) {
      assert Step(env, t, p).outs[0] == out;
    }
  }

  lemma NoPayload(p: Packet)
    requires SwitchPipeline.BareHeader(p)
    ensures !HasPayload(p)
  {
  }

  /** Without payload the lookup by destination sends nothing towards a back-end but a cached request. */
  lemma NothingNew(env: Env, t: Table, p: Packet)
    requires !HasPayload(p)
    ensures var r := DstStep(env, t, p); r.Next? ==> forall i | 0 <= i < |r.outs| :: !r.outs[i].Inbound?
  {
  }

  lemma OpeningSends(env: Env, t: Table, p: Packet, f: Flow)
    ensures var r := ClientSynStep(env, t, p, f); r.Next? ==> forall i | 0 <= i < |r.outs| :: !r.outs[i].Inbound?
  {
  }

  /** A packet bypassed to its client: the front-end would send the same packet and do nothing else exactly
      when the flow is established, for back-end endpoints that are no client's. */
  lemma OutboundBypassExactly(env: Env, t: Table, p: Packet, dips: set<Endpoint>, offload: SwitchTable,
                             servers: map<u8, Endpoint>)
    requires p.isIpv4 && Agree(env, servers)
    requires SwitchPipeline.BypassesOut(p, dips, offload) && p.h.src !in t
    ensures SlowPathSends(env, t, p, Outbound(FromVirtual(p, SwitchPipeline.VIRTUAL))) <==> Established(t, p.h.dst)
  {
    hide TokenFits, RuleFor;
  }

  /** In every run, published entries or not, pending removals or not: what the switch bypasses is rewritten as the
      front-end would rewrite it, and the front-end would change nothing, exactly when the client's flow is
      established, inbound at the published back-end. Without overtaking this holds whenever no removal is pending. */
  lemma BypassRefinesSlowPath(trace: seq<Action>, env: Env, p: Packet, dips: set<Endpoint>, servers: map<u8, Endpoint>)
    requires Exec(trace).Some? && p.isIpv4 && Agree(env, servers)
    requires var s := Exec(trace).value;
             && (forall k | k in s.switchTable :: s.switchTable[k] in servers)
             && dips !! s.flows.Keys
    ensures var s := Exec(trace).value;
            var k := SwitchPipeline.ClientOf(p, dips);
            && (SwitchPipeline.BypassesIn(p, dips, s.switchTable) ==>
                  && (SlowPathSends(env, s.flows, p, Inbound(ToBackend(p, servers[s.switchTable[k]]))) <==>
                        ServedBy(s.flows, k, s.switchTable[k], servers))
                  && (NoOvertaking(trace) && !DelPending(s, k) ==> ServedBy(s.flows, k, s.switchTable[k], servers)))
            && (SwitchPipeline.BypassesOut(p, dips, s.switchTable) ==>
                  && (SlowPathSends(env, s.flows, p, Outbound(FromVirtual(p, SwitchPipeline.VIRTUAL))) <==>
                      Established(s.flows, k))
                  && (NoOvertaking(trace) && !DelPending(s, k) ==> Established(s.flows, k)))
  {
    hide Exec, NoOvertaking, Step, SlowPathSends;
    var s := Exec(trace).value;
    if NoOvertaking(trace) { PublicationSafety(trace, SwitchPipeline.ClientOf(p, dips)); }
    if SwitchPipeline.BypassesIn(p, dips, s.switchTable) {
      InboundBypassExactly(env, s.flows, p, dips, s.switchTable, servers);
    }
    if SwitchPipeline.BypassesOut(p, dips, s.switchTable) {
      OutboundBypassExactly(env, s.flows, p, dips, s.switchTable, servers);
    }
  }
}
