/** What the switch does with a packet of the virtual service, on the packet's fields: ingress and egress together. */
module SwitchService {
  import opened Words
  import opened Packets
  import FrontEnd
  import opened Publication
  import opened SwitchPipeline

  /** From a client to the virtual service. */
  predicate FromClient(p: Packet, dips: set<Endpoint>) {
    p.isTcp && p.h.src !in dips && p.h.dst == Endpoint(0x0a00010A, 80)
  }

  predicate FromServer(p: Packet, dips: set<Endpoint>) {
    p.isTcp && p.h.src in dips
  }

  /** A header of any size and nothing else, that neither opens nor closes a connection. */
  predicate PureAck(p: Packet) {
    && !p.h.flags.syn && !p.h.flags.fin && !p.h.flags.rst
    && 5 <= p.dataOff <= 15 && p.totalLen == 20 + 4 * p.dataOff
  }

  /** `q` answers the SYN `p`: from its destination, with SYN and ACK and otherwise its flags, bare, acknowledging
      the number after its own. */
  predicate IsSynAck(q: Packet, p: Packet, isn: u32) {
    && q.isIpv4 == p.isIpv4 && q.isTcp && Bare52(q)
    && q.h.src == p.h.dst && q.h.dst == p.h.src
    && q.h.flags.syn && q.h.flags.ack && q.h.flags.rst == p.h.flags.rst && q.h.flags.fin == p.h.flags.fin
    && (p.h.flags == Flags(false, true, false, false, false, false, false, false) ==>
          q.h.flags == Flags(false, true, false, false, true, false, false, false))
    && q.h.seqNo == isn && (q.h.ackNo as int - p.h.seqNo - 1) % 0x1_0000_0000 == 0
  }

  lemma ReplyIsSynAck(p: Packet, isn: u32)
    requires p.isTcp
    ensures IsSynAck(SynReply(p, isn), p, isn)
  {
    OneAfter(p.h.seqNo);
  }

  lemma OneAfter(a: int)
    ensures ((a + 1) % TWO_32 - a - 1) % TWO_32 == 0
  {
    var q := (a + 1) / TWO_32;
    assert (a + 1) % TWO_32 - a - 1 == TWO_32 * -q;
  }

  /** A packet through the switch. */
  method Through(p: Packet, dips: set<Endpoint>, offload: SwitchTable, servers: map<u8, Endpoint>, isn: u32)
    returns (b: Bridged, q: Packet)
    requires p.isIpv4
    // a published client's pure acknowledgments, and only they, go straight to the published back-end
    ensures b.dFlag <==> FromClient(p, dips) && PureAck(p) && p.h.src in offload
    ensures b.dFlag && offload[p.h.src] in servers ==> Carries(q, p, p.h.src, servers[offload[p.h.src]], p.h.flags)
    // whatever a back-end sends a published client, short of an end, goes straight to it
    ensures b.vFlag <==> FromServer(p, dips) && !p.h.flags.fin && !p.h.flags.rst && p.h.dst in offload
    ensures b.vFlag ==> Carries(q, p, Endpoint(0x0a00010A, 80), p.h.dst, p.h.flags)
    // a client's SYN is answered
    ensures b.synRespond <==> FromClient(p, dips) && p.h.flags.syn
    ensures b.synRespond ==> IsSynAck(q, p, isn)
    // all else of the service goes to a front-end, as it is
    ensures b.lbFlag <==> (FromClient(p, dips) || FromServer(p, dips)) && !b.dFlag && !b.vFlag && !b.synRespond
    ensures !b.dFlag && !b.vFlag && !b.synRespond ==> q == p
    ensures b.cpuFlag <==> p.isTcp && p.h.src !in dips && p.h.dst == Endpoint(0x0a0001FE, 12345)
    ensures !b.lbFlag && !b.dFlag && !b.vFlag && !b.synRespond && !b.cpuFlag ==> b.forwardToDest
  {
    hide Carries, IsSynAck, SynReply, ToBackend, FromVirtual;
    b := SwitchIngress(p, dips, offload);
    q := SwitchEgress(p, b, servers, isn);
    if p.isTcp { ReplyIsSynAck(p, isn); }
    RewritesCarry(p, VIRTUAL);
    if b.dFlag && b.index in servers { RewritesCarry(p, servers[b.index]); }
  }

  /** Once additions of a client have been delivered and no removal with them, its pure acknowledgments no longer reach
      the front-end: they are bypassed, to the back-end of an addition, or of the entry that was there before. */
  lemma DeliveredAdditionBypasses(s: State, n: nat, p: Packet, dips: set<Endpoint>)
    requires Enabled(s, Deliver(n)) && FromClient(p, dips) && PureAck(p)
    requires !NoAddIn(s.channel[..n], p.h.src) && !Removes(s.channel[..n], p.h.src)
    ensures var offload := Do(s, Deliver(n)).switchTable;
            && p.h.src in offload && !ToFrontEnd(p, dips, offload) && BypassesIn(p, dips, offload)
  {
    hide ApplyAll, Apply;
    AdditionStays(s.switchTable, s.channel[..n], p.h.src);
  }

  /** An addition that a tick sends with no removal of its client bypasses the client when all has been delivered. */
  lemma OffloadTakesEffect(s: State, adds: seq<FrontEnd.Pair>, dels: seq<Endpoint>, p: Packet, dips: set<Endpoint>)
    requires CanTick(s, adds, dels) && multiset(adds) == s.addQ && multiset(dels) == s.delQ
    requires FromClient(p, dips) && PureAck(p)
    ensures var offload := Delivered(Do(s, Tick(adds, dels))).switchTable;
            BypassesIn(p, dips, offload) <==>
            p.h.src !in s.delQ && (p.h.src in Settled(s) || !NoAddQueued(s.addQ, p.h.src))
  {
    hide ApplyAll, Apply, Do, Delivered;
    DrainPublishesExactly(s, adds, dels, p.h.src);
  }
}
