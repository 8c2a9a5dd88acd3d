/** The frames of the back-end agent, byte by byte: where a frame carries the fields of its header and the edges of
    its SACK option. */
module AgentFrames {
  import opened Words
  import opened Packets
  import opened Checksum
  import opened Splice
  import opened BackendAgent

  // ---- Numbers in network order ----

  function Net16Bytes(v: u16): (b: seq<u8>)
    ensures |b| == 2
  {
    [v / 0x100, v % 0x100]
  }

  function Net32Bytes(v: u32): (b: seq<u8>)
    ensures |b| == 4
  {
    [v / 0x100_0000, v / 0x1_0000 % 0x100, v / 0x100 % 0x100, v % 0x100]
  }

  lemma Digits16(a: u8, b: u8)
    ensures var v := 0x100 * a as int + b as int; v / 0x100 == a && v % 0x100 == b
  {
  }

  lemma Digits32(a: u8, b: u8, c: u8, d: u8)
    ensures var v := 0x100_0000 * a as int + 0x1_0000 * b as int + 0x100 * c as int + d as int;
            v / 0x100_0000 == a && v / 0x1_0000 % 0x100 == b && v / 0x100 % 0x100 == c && v % 0x100 == d
  {
    var v := 0x100_0000 * a as int + 0x1_0000 * b as int + 0x100 * c as int + d as int;
    var x := 0x1_0000 * a as int + 0x100 * b as int + c as int;
    var y := 0x100 * a as int + b as int;
    assert v == 0x100 * x + d && v / 0x100 == x;
    assert x == 0x100 * y + c && x % 0x100 == c;
    assert v == 0x1_0000 * y + (0x100 * c as int + d as int) && v / 0x1_0000 == y;
    assert y % 0x100 == b;
    assert v == 0x100_0000 * a as int + (0x1_0000 * b as int + 0x100 * c as int + d as int) && v / 0x100_0000 == a;
  }

  lemma Net16Exactly(f: Frame, i: nat, v: u16)
    requires i + 2 <= |f|
    ensures Net16(f, i) == v <==> f[i..i + 2] == Net16Bytes(v)
  {
    Digits16(f[i], f[i + 1]);
    var x := f[i..i + 2];
    assert x[0] == f[i] && x[1] == f[i + 1];
    if Net16(f, i) == v { assert x == Net16Bytes(v); }
    if x == Net16Bytes(v) { assert x[0] == Net16Bytes(v)[0] && x[1] == Net16Bytes(v)[1]; }
  }

  lemma Net32Exactly(f: Frame, i: nat, v: u32)
    requires i + 4 <= |f|
    ensures Net32(f, i) == v <==> f[i..i + 4] == Net32Bytes(v)
  {
    Digits32(f[i], f[i + 1], f[i + 2], f[i + 3]);
    NetBytes(v);
    var x, y := f[i..i + 4], Net32Bytes(v);
    assert x[0] == f[i] && x[1] == f[i + 1] && x[2] == f[i + 2] && x[3] == f[i + 3];
    if Net32(f, i) == v { assert x == y; }
    if x == y { assert x[0] == y[0] && x[1] == y[1] && x[2] == y[2] && x[3] == y[3]; }
  }

  // ---- The header ----

  function Weighted(on: bool, weight: nat): nat {
    if on then weight else 0
  }

  function FlagByte(fl: Flags): nat {
    Weighted(fl.fin, 1) + Weighted(fl.syn, 2) + Weighted(fl.rst, 4) + Weighted(fl.psh, 8)
    + Weighted(fl.ack, 16) + Weighted(fl.urg, 32) + Weighted(fl.ece, 64) + Weighted(fl.cwr, 128)
  }

  function FlagsOf(b: u8): Flags {
    Flags(Bit(b, 1), Bit(b, 2), Bit(b, 4), Bit(b, 8), Bit(b, 16), Bit(b, 32), Bit(b, 64), Bit(b, 128))
  }

  lemma FlagsExactly(b: u8, fl: Flags)
    ensures FlagsOf(b) == fl <==> b == FlagByte(fl)
  {
    FlagsRead(fl);
    FlagsWritten(b);
  }

  lemma BitWeight(b: u8, weight: nat)
    requires weight > 0
    ensures Weighted(Bit(b, weight), weight) == weight * (b / weight % 2)
  {
    if b / weight % 2 == 0 { assert weight * 0 == 0; } else { assert b / weight % 2 == 1 && weight * 1 == weight; }
  }

  lemma FlagsWritten(b: u8)
    ensures FlagByte(FlagsOf(b)) == b
  {
    hide Bit, Weighted;
    BitWeight(b, 1);
    BitWeight(b, 2);
    BitWeight(b, 4);
    BitWeight(b, 8);
    BitWeight(b, 16);
    BitWeight(b, 32);
    BitWeight(b, 64);
    BitWeight(b, 128);
    EightBits(b);
  }

  lemma EightBits(b: u8)
    ensures b == b % 2 + 2 * (b / 2 % 2) + 4 * (b / 4 % 2) + 8 * (b / 8 % 2)
                 + 16 * (b / 16 % 2) + 32 * (b / 32 % 2) + 64 * (b / 64 % 2) + 128 * (b / 128 % 2)
  {
    assert b / 4 == b / 2 / 2 && b / 8 == b / 4 / 2 && b / 16 == b / 8 / 2;
    assert b / 32 == b / 16 / 2 && b / 64 == b / 32 / 2 && b / 128 == b / 64 / 2;
  }

  lemma FlagsRead(fl: Flags)
    ensures FlagByte(fl) < 0x100 && FlagsOf(FlagByte(fl)) == fl
  {
    var b := FlagByte(fl);
    FlagsInjective(FlagsOf(b), fl) by { FlagsWritten(b); }
  }

  lemma FlagsInjective(x: Flags, y: Flags)
    requires FlagByte(x) == FlagByte(y)
    ensures x == y
  {
  }

  /** Frame `f` is IPv4 without IP options, carries TCP, and has the fields of `h` in network order at their places. */
  predicate CarriesHeader(f: Frame, h: Header) {
    && |f| >= 54 && f[12] == 0x08 && f[13] == 0x00 && f[23] == 6
    && f[26..30] == Net32Bytes(h.src.ip) && f[30..34] == Net32Bytes(h.dst.ip)
    && f[34..36] == Net16Bytes(h.src.port) && f[36..38] == Net16Bytes(h.dst.port)
    && f[38..42] == Net32Bytes(h.seqNo) && f[42..46] == Net32Bytes(h.ackNo)
    && f[47] == FlagByte(h.flags)
  }

  /** The agent reads from a frame exactly the header it carries. */
  lemma HeaderExactly(f: Frame, h: Header)
    ensures CarriesHeader(f, h) <==> IsTcp(f) && HeaderOf(f) == h
  {
    hide Net32, Net16, Net32Bytes, Net16Bytes, FlagByte, Bit;
    if |f| >= 54 {
      EtherType(f);
      Net32Exactly(f, 26, h.src.ip);
      Net32Exactly(f, 30, h.dst.ip);
      Net16Exactly(f, 34, h.src.port);
      Net16Exactly(f, 36, h.dst.port);
      Net32Exactly(f, 38, h.seqNo);
      Net32Exactly(f, 42, h.ackNo);
      FlagsExactly(f[47], h.flags);
      assert HeaderOf(f).flags == FlagsOf(f[47]);
    }
  }

  lemma EtherType(f: Frame)
    requires |f| >= 14
    ensures Net16(f, 12) == 0x0800 <==> f[12] == 0x08 && f[13] == 0x00
  {
  }

  /** Every header is carried by some frame. */
  lemma FrameFor(h: Header) returns (f: Frame)
    ensures CarriesHeader(f, h)
  {
    hide Net32Bytes, Net16Bytes, FlagByte;
    FlagsRead(h.flags);
    var zeros12, zeros9, two: Frame := seq(12, _ => 0), seq(9, _ => 0), [0, 0];
    var ip: Frame := zeros12 + [0x08, 0x00] + zeros9 + [6] + two;
    var ends := Net32Bytes(h.src.ip) + Net32Bytes(h.dst.ip) + Net16Bytes(h.src.port) + Net16Bytes(h.dst.port);
    var numbers := Net32Bytes(h.seqNo) + Net32Bytes(h.ackNo);
    var last: Frame := [0x50, FlagByte(h.flags), 0, 0, 0, 0, 0, 0];
    f := ip + ends + numbers + last;
    assert |ip| == 26 && |ends| == 12 && |numbers| == 8;
    assert f[26..38] == ends && f[38..46] == numbers && f[46..54] == last;
    assert f[26..30] == ends[..4] && f[30..34] == ends[4..8] && f[34..36] == ends[8..10] && f[36..38] == ends[10..12];
    assert f[38..42] == numbers[..4] && f[42..46] == numbers[4..8] && f[47] == last[1];
    assert f[12] == ip[12] == 0x08 && f[13] == ip[13] == 0x00 && f[23] == ip[23] == 6;
  }

  lemma SameNet32(f: Frame, i: nat, g: Frame, j: nat)
    requires i + 4 <= |f| && j + 4 <= |g|
    ensures Net32(f, i) == Net32(g, j) <==> f[i..i + 4] == g[j..j + 4]
  {
    hide Net32, Net32Bytes;
    Net32Exactly(f, i, Net32(f, i));
    Net32Exactly(g, j, Net32(f, i));
  }

  lemma SameNet16(f: Frame, i: nat, g: Frame, j: nat)
    requires i + 2 <= |f| && j + 2 <= |g|
    ensures Net16(f, i) == Net16(g, j) <==> f[i..i + 2] == g[j..j + 2]
  {
    hide Net16, Net16Bytes;
    Net16Exactly(f, i, Net16(f, i));
    Net16Exactly(g, j, Net16(f, i));
  }

  /** Two client frames meet one splice exactly when their source address and port agree, and an answer meets the
      splice of a client frame exactly when its destination address and port are that frame's source. */
  lemma SameClientExactly(f: Frame, g: Frame)
    requires |f| >= 54 && |g| >= 54
    ensures HeaderOf(f).src == HeaderOf(g).src <==> f[26..30] == g[26..30] && f[34..36] == g[34..36]
    ensures HeaderOf(f).src == HeaderOf(g).dst <==> f[26..30] == g[30..34] && f[34..36] == g[36..38]
  {
    hide Net32, Net16, Bit;
    SameNet32(f, 26, g, 26);
    SameNet16(f, 34, g, 34);
    SameNet32(f, 26, g, 30);
    SameNet16(f, 34, g, 36);
  }

  /** The agent on one client's SYN frame and on the frame that answers it, whatever other clients have on record:
      the acknowledgment is cleared, and the difference of the two sequence numbers goes on record
      for that client alone. */
  method SynAndAnswer(agent: Agent, syn: array<u8>, answer: array<u8>, ghost s: Header, ghost a: Header)
    returns (v: Verdict, w: Verdict)
    requires syn != answer && CarriesHeader(syn[..], s) && CarriesHeader(answer[..], a)
    requires syn[26..30] == answer[30..34] && syn[34..36] == answer[36..38]
    requires s.flags.syn && a.flags.syn && a.flags.ack && s.src !in agent.flowMap
    modifies agent, syn, answer
    ensures v == Pass && w == Pass && s.src == a.dst
    ensures CarriesHeader(syn[..], s.(ackNo := 0)) && CarriesHeader(answer[..], a)
    ensures agent.seqMap == old(agent.seqMap)[s.src := s.ackNo]
    ensures agent.flowMap == old(agent.flowMap)[s.src := Sub32(a.seqNo, s.ackNo)]
  {
    hide CarriesHeader, HeaderOf, Rewritten, Truncated, IsTcp, Net16;
    ghost var f, g := syn[..], answer[..];
    HeaderExactly(f, s);
    HeaderExactly(g, a);
    Long(f);
    Long(g);
    assert syn[26..30] == f[26..30] && syn[34..36] == f[34..36];
    assert answer[30..34] == g[30..34] && answer[36..38] == g[36..38];
    SameClientExactly(f, g);
    v := agent.Ingress(syn, 0);
    StillTcp(f, syn[..], ACK_AT, s.(ackNo := 0));
    assert answer[..] == g;
    ghost var f1 := syn[..];
    w := agent.Egress(answer, 0);
    assert syn[..] == f1;
    StillTcp(g, answer[..], SEQ_AT, a);
  }

  lemma Long(f: Frame)
    requires IsTcp(f)
    ensures |f| >= 54 && !Truncated(f)
  {
  }

  lemma StillTcp(f: Frame, g: Frame, field: nat, h: Header)
    requires IsTcp(f) && field in {SEQ_AT, ACK_AT} && Rewritten(f, g, field, OPT_AT, 0, 0) && HeaderOf(g) == h
    ensures CarriesHeader(g, h)
  {
    hide CarriesHeader, HeaderOf;
    assert IsTcp(g);
    HeaderExactly(g, h);
  }

  /** In plain offsets: what an accepted pass may change. */
  lemma OnlyTheseBytes(f: Frame, g: Frame, at: nat, m: nat, diff: u32, i: nat)
    requires at + 4 * m <= |f| && i < |f|
    ensures Rewritten(f, g, ACK_AT, at, m, diff) && g[i] != f[i] ==>
              42 <= i < 46 || 50 <= i < 52 || at <= i < at + 4 * m
    ensures Rewritten(f, g, SEQ_AT, at, m, diff) && g[i] != f[i] ==>
              38 <= i < 42 || 50 <= i < 52 || at <= i < at + 4 * m
  {
  }

  // ---- The SACK option ----

  /** The option scan stops at SACK exactly when the header has options and at most two NOPs, and nothing else, come
      before the kind 5; it is cut short exactly when the frame ends within those NOPs. */
  lemma ScanExactly(f: Frame, pos: nat)
    requires |f| >= 54
    ensures ScanOptions(f) == SackAt(pos)
      <==> f[46] / 16 > 5 && 54 <= pos <= 56 && pos < |f| && f[pos] == 5 && forall i | 54 <= i < pos :: f[i] == 1
    ensures ScanOptions(f) == CutShort
      <==> f[46] / 16 > 5 && |f| <= 56 && forall i | 54 <= i < |f| :: f[i] == 1
  {
    hide OptionsFit;
    assert ScanFrom(f, 56, 0) == if 56 >= |f| then CutShort else if f[56] == 5 then SackAt(56) else NoSack;
    assert ScanFrom(f, 55, 1) == if 55 >= |f| then CutShort else if f[55] == 5 then SackAt(55)
                                 else if f[55] == 1 then ScanFrom(f, 56, 0) else NoSack;
    assert ScanFrom(f, 54, 2) == if 54 >= |f| then CutShort else if f[54] == 5 then SackAt(54)
                                 else if f[54] == 1 then ScanFrom(f, 55, 1) else NoSack;
  }

  /** After `n` NOPs the frame has a SACK option (section 3 of RFC 2018) with the edges `es`, in network order. */
  predicate CarriesSack(f: Frame, n: nat, es: seq<u32>) {
    && n <= 2 && |es| in {0, 2, 4, 6, 8} && |f| >= 56 + n + 4 * |es| && f[46] / 16 > 5
    && (forall i | 54 <= i < 54 + n :: f[i] == 1)
    && f[54 + n] == 5 && f[55 + n] == 2 + 4 * |es|
    && forall j | 0 <= j < |es| :: f[56 + n + 4 * j..56 + n + 4 * j + 4] == Net32Bytes(es[j])
  }

  /** The agent finds and accepts it. */
  lemma SackFound(f: Frame, n: nat, es: seq<u32>)
    requires IsTcp(f) && CarriesSack(f, n, es)
    ensures ScanOptions(f) == SackAt(54 + n) && Accepts(f)
    ensures EdgesAt(ScanOptions(f)) == 56 + n && EdgesOf(f, ScanOptions(f)) == |es|
  {
    hide Net32Bytes;
    ScanExactly(f, 54 + n);
  }

  function Shifted(es: seq<u32>, diff: u32): (r: seq<u32>)
    ensures |r| == |es|
  {
    seq(|es|, j requires 0 <= j < |es| => (es[j] + diff) % TWO_32)
  }

  lemma EdgeRead(f: Frame, at: nat, e: u32)
    requires at + 4 <= |f|
    ensures Net32(f, at) == e <==> f[at..at + 4] == Net32Bytes(e)
  {
    Net32Exactly(f, at, e);
  }

  /** The frame of a spliced client leaves the agent with its acknowledgment and all its edges shifted by the
      client's difference, and with everything else of header and option as it was. */
  method SackTranslated(agent: Agent, buf: array<u8>, ghost h: Header, ghost n: nat, ghost es: seq<u32>)
    returns (v: Verdict)
    requires CarriesHeader(buf[..], h) && CarriesSack(buf[..], n, es) && h.src in agent.flowMap
    modifies agent`seqMap, buf
    ensures v == Pass && agent.seqMap == old(agent.seqMap)
    ensures CarriesHeader(buf[..], h.(ackNo := (h.ackNo + agent.flowMap[h.src]) % TWO_32))
    ensures CarriesSack(buf[..], n, Shifted(es, agent.flowMap[h.src]))
  {
    hide CarriesHeader, CarriesSack, HeaderOf, Rewritten, Truncated, IsTcp, Net16, Accepts, ScanOptions, EdgesOf,
        EdgesAt;
    ghost var f, diff := buf[..], agent.flowMap[h.src];
    HeaderExactly(f, h);
    Long(f);
    SackFound(f, n, es);
    v := agent.Ingress(buf, 0);
    ShiftedHeader(f, buf[..], 56 + n, |es|, diff);
    HeaderExactly(buf[..], h.(ackNo := (h.ackNo + diff) % TWO_32));
    SackShifted(f, buf[..], n, es, diff);
  }

  /** The frame of a spliced client without a SACK option to translate: only the acknowledgment is shifted. */
  method AckTranslated(agent: Agent, buf: array<u8>, ghost h: Header) returns (v: Verdict)
    requires CarriesHeader(buf[..], h) && h.src in agent.flowMap
    requires forall i | 54 <= i <= 56 :: !SackFrom(buf[..], i)
    requires |buf[..]| > 56 || buf[46] / 16 <= 5
    modifies agent`seqMap, buf
    ensures v == Pass && agent.seqMap == old(agent.seqMap)
    ensures CarriesHeader(buf[..], h.(ackNo := (h.ackNo + agent.flowMap[h.src]) % TWO_32))
    ensures forall i | 52 <= i < buf.Length :: buf[i] == old(buf[i])
  {
    hide CarriesHeader, HeaderOf, Rewritten, Truncated, IsTcp, Net16, SackFrom, ScanOptions, Accepts;
    ghost var f, diff := buf[..], agent.flowMap[h.src];
    HeaderExactly(f, h);
    Long(f);
    NothingToTranslate(f);
    v := agent.Ingress(buf, 0);
    ShiftedHeader(f, buf[..], 54, 0, diff);
    HeaderExactly(buf[..], h.(ackNo := (h.ackNo + diff) % TWO_32));
    forall i | 52 <= i < buf.Length ensures buf[i] == old(buf[i]) {
      OnlyTheseBytes(f, buf[..], 54, 0, diff, i);
    }
  }

  /** A SACK option the scan would stop at. */
  predicate SackFrom(f: Frame, pos: nat) {
    |f| > 46 && f[46] / 16 > 5 && pos < |f| && f[pos] == 5 && forall i | 54 <= i < pos :: f[i] == 1
  }

  lemma NothingToTranslate(f: Frame)
    requires IsTcp(f) && (|f| > 56 || f[46] / 16 <= 5) && forall i | 54 <= i <= 56 :: !SackFrom(f, i)
    ensures ScanOptions(f) == NoSack && Accepts(f)
  {
    ScanExactly(f, 54);
    ScanExactly(f, 55);
    ScanExactly(f, 56);
    var scan := ScanOptions(f);
    if scan.SackAt? {
      ScanExactly(f, scan.pos);
      assert SackFrom(f, scan.pos);
    }
  }

  /** The frame of a back-end to a spliced client: its sequence number is shifted back, nothing else of the header
      changes, and the splice goes exactly when the frame is a reset. */
  method AnswerTranslated(agent: Agent, buf: array<u8>, ghost h: Header) returns (v: Verdict)
    requires CarriesHeader(buf[..], h) && h.dst in agent.flowMap
    modifies agent, buf
    ensures v == Pass
    ensures CarriesHeader(buf[..], h.(seqNo := (h.seqNo - old(agent.flowMap)[h.dst]) % TWO_32))
    ensures forall i | 52 <= i < buf.Length :: buf[i] == old(buf[i])
    ensures agent.flowMap == if h.flags.rst then old(agent.flowMap) - {h.dst} else old(agent.flowMap)
    ensures agent.seqMap == if h.flags.rst then old(agent.seqMap) - {h.dst} else old(agent.seqMap)
  {
    hide CarriesHeader, HeaderOf, Rewritten, Truncated, IsTcp, Net16;
    ghost var f, diff := buf[..], agent.flowMap[h.dst];
    HeaderExactly(f, h);
    Long(f);
    v := agent.Egress(buf, 0);
    StillTcp(f, buf[..], SEQ_AT, h.(seqNo := (h.seqNo - diff) % TWO_32));
    forall i | 52 <= i < buf.Length ensures buf[i] == old(buf[i]) {
      OnlyTheseBytes(f, buf[..], 54, 0, 0, i);
    }
  }

  lemma ShiftedHeader(f: Frame, g: Frame, at: nat, m: nat, diff: u32)
    requires IsTcp(f) && 54 <= at && at + 4 * m <= |f| && Rewritten(f, g, ACK_AT, at, m, diff)
    ensures IsTcp(g)
  {
  }

  lemma SackShifted(f: Frame, g: Frame, n: nat, es: seq<u32>, diff: u32)
    requires IsTcp(f) && CarriesSack(f, n, es) && Rewritten(f, g, ACK_AT, 56 + n, |es|, diff)
    ensures CarriesSack(g, n, Shifted(es, diff))
  {
    hide Net32Bytes, Net32, IsTcp;
    var at := 56 + n;
    forall j | 0 <= j < |es| ensures g[at + 4 * j..at + 4 * j + 4] == Net32Bytes(Shifted(es, diff)[j]) {
      EdgeRead(f, at + 4 * j, es[j]);
      EdgeRead(g, at + 4 * j, Shifted(es, diff)[j]);
      assert Net32(g, at + 4 * j) == Add32(Net32(f, at + 4 * j), diff);
    }
  }
}
