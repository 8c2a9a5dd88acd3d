/** The switch's data plane: which packets it answers, bypasses or hands to the front-end,
    and the header rewriting of its egress. */
module SwitchPipeline {
  import opened Words
  import opened Packets
  import opened Publication

  const VIRTUAL: Endpoint := Endpoint(0x0a00010A, 80)
  const SWITCH: Endpoint := Endpoint(0x0a0001FE, 12345)

  /** The header that bridges ingress and egress. */
  datatype Bridged = Bridged(synRespond: bool, lbFlag: bool, dFlag: bool, vFlag: bool, forwardToDest: bool,
                             hitFlag: bool, cpuFlag: bool, payloadFlag: bool, index: u8)

  datatype Direction = Elsewhere | Inbound | Outbound | Cpu

  /** A back-end source wins over the virtual or switch destination. */
  function DirectionOf(p: Packet, dips: set<Endpoint>): Direction {
    if !p.isTcp then Elsewhere
    else if p.h.src in dips then Outbound
    else if p.h.dst == VIRTUAL then Inbound
    else if p.h.dst == SWITCH then Cpu
    else Elsewhere
  }

  /** The client end of a packet to or from the virtual service. */
  function ClientOf(p: Packet, dips: set<Endpoint>): Endpoint {
    match DirectionOf(p, dips)
    case Inbound => p.h.src
    case Outbound => p.h.dst
    case _ => Endpoint(0, 0)
  }

  /** A header of 5 to 15 words that fills the whole datagram. */
  predicate BareHeader(p: Packet) {
    5 <= p.dataOff <= 15 && p.totalLen == HeaderSize(p)
  }

  predicate Closes(p: Packet) {
    p.h.flags.fin || p.h.flags.rst
  }

  /** Sent straight to its back-end, past the front-end. */
  predicate BypassesIn(p: Packet, dips: set<Endpoint>, offload: SwitchTable) {
    && DirectionOf(p, dips) == Inbound && !p.h.flags.syn && !Closes(p)
    && ClientOf(p, dips) in offload && BareHeader(p)
  }

  /** Sent straight to its client, past the front-end. */
  predicate BypassesOut(p: Packet, dips: set<Endpoint>, offload: SwitchTable) {
    DirectionOf(p, dips) == Outbound && !Closes(p) && ClientOf(p, dips) in offload
  }

  predicate AnsweredBySwitch(p: Packet, dips: set<Endpoint>) {
    DirectionOf(p, dips) == Inbound && p.h.flags.syn
  }

  /** Handed to the front-end: all other traffic of the virtual service. */
  predicate ToFrontEnd(p: Packet, dips: set<Endpoint>, offload: SwitchTable) {
    && DirectionOf(p, dips) in {Inbound, Outbound}
    && !AnsweredBySwitch(p, dips) && !BypassesIn(p, dips, offload) && !BypassesOut(p, dips, offload)
  }

  /** The ingress control: parser defaults, the four lookups, then the decision. */
  method SwitchIngress(p: Packet, dips: set<Endpoint>, offload: SwitchTable) returns (b: Bridged)
    requires p.isIpv4
    ensures b.dFlag <==> BypassesIn(p, dips, offload)
    ensures b.vFlag <==> BypassesOut(p, dips, offload)
    ensures b.synRespond <==> AnsweredBySwitch(p, dips)
    ensures b.lbFlag <==> ToFrontEnd(p, dips, offload)
    ensures b.cpuFlag <==> DirectionOf(p, dips) == Cpu
    ensures b.forwardToDest <==> DirectionOf(p, dips) == Elsewhere || b.vFlag
    ensures b.dFlag || b.vFlag ==> ClientOf(p, dips) in offload && b.index == offload[ClientOf(p, dips)]
  {
    b := Bridged(false, false, false, false, false, false, false, true, 0);
    var client, direction := Endpoint(0, 0), 0;
    if p.isTcp {
      if (p.totalLen, p.dataOff) in {(40, 5), (44, 6), (48, 7), (52, 8), (56, 9), (60, 10),
                                     (64, 11), (68, 12), (72, 13), (76, 14), (80, 15)} {
        b := b.(payloadFlag := false);
      }
      if p.h.dst == VIRTUAL {
        direction, client := 1, p.h.src;
      } else if p.h.dst == SWITCH {
        direction := 4;
      }
      if p.h.src in dips {
        direction, client := 2, p.h.dst;
      }
      if client in offload {
        b := b.(index := offload[client], hitFlag := true);
      }
    }
    if direction == 0 {
      b := b.(forwardToDest := true);
    } else if direction == 4 {
      b := b.(cpuFlag := true);
    } else if direction == 1 {
      if p.h.flags.syn {
        b := b.(synRespond := true);
      } else if p.h.flags.fin || p.h.flags.rst {
        b := b.(lbFlag := true);
      } else if !b.hitFlag {
        b := b.(lbFlag := true);
      } else if b.hitFlag && b.payloadFlag {
        b := b.(lbFlag := true);
      } else if b.hitFlag {
        b := b.(dFlag := true);
      }
    } else if direction == 2 {
      if p.h.flags.fin || p.h.flags.rst {
        b := b.(lbFlag := true);
      } else if b.hitFlag {
        b := b.(vFlag := true, forwardToDest := true);
      } else {
        b := b.(lbFlag := true);
      }
    }
  }

  /** The SYN-ACK with which the switch answers a client, `isn` being its hash of the client. */
  function SynReply(p: Packet, isn: u32): Packet {
    p.(h := Header(p.h.dst, p.h.src, isn, Add32(p.h.seqNo, 1), p.h.flags.(syn := true, ack := true)),
       dataOff := 8, totalLen := 52, payload := [])
  }

  /** The egress control: answer, send to the back-end of the index, or send as the virtual service. */
  method SwitchEgress(p: Packet, b: Bridged, servers: map<u8, Endpoint>, isn: u32) returns (q: Packet)
    requires p.isIpv4
    ensures p.isTcp && b.synRespond ==> q == SynReply(p, isn)
    ensures p.isTcp && !b.synRespond && b.dFlag && b.index in servers ==> q == ToBackend(p, servers[b.index])
    ensures p.isTcp && !b.synRespond && !b.dFlag && b.vFlag ==> q == FromVirtual(p, VIRTUAL)
    ensures !p.isTcp || !(b.synRespond || b.dFlag || b.vFlag) ==> q == p
    ensures !b.synRespond && b.dFlag && b.index !in servers ==> q == p
  {
    q := p;
    if p.isTcp {
      if b.synRespond {
        var flags := q.h.flags.(syn := true, ack := true);
        q := q.(h := q.h.(flags := flags));
        q := q.(h := q.h.(ackNo := Add32(q.h.seqNo, 1)));
        q := q.(h := q.h.(seqNo := isn));
        var src, dst := q.h.dst, q.h.src;
        q := q.(h := q.h.(src := src, dst := dst));
        q := q.(totalLen := 52, dataOff := 8, payload := []);
      } else if b.dFlag {
        if b.index in servers {
          q := q.(h := q.h.(dst := servers[b.index]));
        }
      } else if b.vFlag {
        q := q.(h := q.h.(src := VIRTUAL));
      }
    }
  }
}
