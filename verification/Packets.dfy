/** TCP/IPv4 packets as the switch, the front-end and the back-end agent see them. */
module Packets {
  import opened Words

  datatype Option<+T> = None | Some(value: T)

  /** Address and port in host byte order. */
  datatype Endpoint = Endpoint(ip: u32, port: u16)

  /** The eight bits of the TCP flag byte. */
  datatype Flags = Flags(fin: bool, syn: bool, rst: bool, psh: bool, ack: bool, urg: bool, ece: bool, cwr: bool)

  const SYN_ONLY := Flags(false, true, false, false, false, false, false, false)
  const SYN_ACK := Flags(false, true, false, false, true, false, false, false)
  const RST_ONLY := Flags(false, false, true, false, false, false, false, false)

  datatype Header = Header(src: Endpoint, dst: Endpoint, seqNo: u32, ackNo: u32, flags: Flags)

  /** `payload` is what the IP total length leaves after a 20-byte IP header and `dataOff` TCP words. */
  datatype Packet = Packet(isIpv4: bool, isTcp: bool, h: Header, dataOff: u8, totalLen: u16, payload: string)

  /** Both software and hardware compute the header size from a 20-byte IP header. */
  function HeaderSize(p: Packet): int {
    20 + 4 * p.dataOff
  }

  // ---- The header rewritings of the front-end ----

  function ToBackend(p: Packet, server: Endpoint): Packet {
    p.(h := p.h.(dst := server))
  }

  function FromVirtual(p: Packet, vip: Endpoint): Packet {
    p.(h := p.h.(src := vip))
  }

  function AsRst(p: Packet): Packet {
    p.(h := p.h.(flags := RST_ONLY))
  }

  /** The SYN that opens the back-end connection one byte before the client's request. */
  function SynFor(p: Packet, server: Endpoint): Packet {
    p.(h := p.h.(dst := server, flags := SYN_ONLY, seqNo := Sub32(p.h.seqNo, 1), ackNo := Sub32(p.h.ackNo, 1)),
       dataOff := 8, totalLen := 52, payload := [])
  }

  // ---- What a packet becomes, field by field ----

  /** `q` brings what `p` brings, between the ends `src` and `dst` and with the flags `flags`. */
  predicate Carries(q: Packet, p: Packet, src: Endpoint, dst: Endpoint, flags: Flags) {
    && q.isIpv4 == p.isIpv4 && q.isTcp == p.isTcp && q.h.src == src && q.h.dst == dst && q.h.flags == flags
    && q.h.seqNo == p.h.seqNo && q.h.ackNo == p.h.ackNo
    && q.dataOff == p.dataOff && q.totalLen == p.totalLen && q.payload == p.payload
  }

  /** `q` is a header of 20 and 32 bytes without payload. */
  predicate Bare52(q: Packet) {
    q.dataOff == 8 && q.totalLen == 52 && q.payload == []
  }

  /** `q` is a bare SYN from the source of `p` to `dst`, one before `p` in both directions. */
  predicate OpensFor(q: Packet, p: Packet, dst: Endpoint) {
    && q.isIpv4 == p.isIpv4 && q.isTcp == p.isTcp && Bare52(q)
    && q.h.src == p.h.src && q.h.dst == dst
    && q.h.flags == Flags(false, true, false, false, false, false, false, false)
    && (q.h.seqNo as int + 1 - p.h.seqNo) % 0x1_0000_0000 == 0
    && (q.h.ackNo as int + 1 - p.h.ackNo) % 0x1_0000_0000 == 0
  }

  lemma RewritesCarry(p: Packet, e: Endpoint)
    ensures Carries(ToBackend(p, e), p, p.h.src, e, p.h.flags)
    ensures Carries(FromVirtual(p, e), p, e, p.h.dst, p.h.flags)
    ensures var rst := Flags(false, false, true, false, false, false, false, false);
            && Carries(ToBackend(AsRst(p), e), p, p.h.src, e, rst)
            && Carries(FromVirtual(AsRst(p), e), p, e, p.h.dst, rst)
    ensures OpensFor(SynFor(p, e), p, e)
  {
    var s, a: int := p.h.seqNo, p.h.ackNo;
    OneBefore(s);
    OneBefore(a);
  }

  lemma OneBefore(a: int)
    ensures ((a - 1) % TWO_32 + 1 - a) % TWO_32 == 0
  {
    var q := (a - 1) / TWO_32;
    assert (a - 1) % TWO_32 + 1 - a == TWO_32 * -q;
  }
}
