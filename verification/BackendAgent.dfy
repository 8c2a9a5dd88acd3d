/** The two eBPF programs of a back-end, on the bytes of a frame. */
module BackendAgent {
  import opened Words
  import opened Packets
  import opened Checksum
  import opened Splice

  // Offsets in an Ethernet frame with a 20-byte IP header.
  const IP_AT: nat := 14
  const TCP_AT: nat := 34
  const SEQ_AT: nat := 38
  const ACK_AT: nat := 42
  const CHECK_AT: nat := 50
  const OPT_AT: nat := 54

  type Frame = seq<u8>

  function Net16(f: Frame, i: nat): (v: u16)
    requires i + 2 <= |f|
  {
    0x100 * f[i] as int + f[i + 1] as int
  }

  function Net32(f: Frame, i: nat): (v: u32)
    requires i + 4 <= |f|
  {
    0x100_0000 * f[i] as int + 0x1_0000 * f[i + 1] as int + 0x100 * f[i + 2] as int + f[i + 3] as int
  }

  function Bit(b: u8, weight: nat): bool
    requires weight > 0
  {
    (b / weight) % 2 == 1
  }

  function HeaderOf(f: Frame): Header
    requires |f| >= OPT_AT
  {
    var b := f[47];
    Header(Endpoint(Net32(f, 26), Net16(f, 34)), Endpoint(Net32(f, 30), Net16(f, 36)),
           Net32(f, SEQ_AT), Net32(f, ACK_AT),
           Flags(Bit(b, 1), Bit(b, 2), Bit(b, 4), Bit(b, 8), Bit(b, 16), Bit(b, 32), Bit(b, 64), Bit(b, 128)))
  }

  datatype Verdict = Pass | Drop

  /** A frame too short for the headers its own fields announce. */
  predicate Truncated(f: Frame) {
    || |f| < IP_AT
    || (Net16(f, 12) == 0x0800 && (|f| < TCP_AT || (f[23] == 6 && |f| < OPT_AT)))
  }

  predicate IsTcp(f: Frame) {
    |f| >= OPT_AT && Net16(f, 12) == 0x0800 && f[23] == 6
  }

  // ---- Where a frame's SACK option is ----

  datatype Scan = NoSack | CutShort | SackAt(pos: nat)

  /** SACK is looked for as the first option, after at most two NOPs. */
  function ScanFrom(f: Frame, pos: nat, nops: nat): Scan
    decreases nops
  {
    if pos >= |f| then CutShort
    else if f[pos] == 5 then SackAt(pos)
    else if f[pos] == 1 && nops > 0 then ScanFrom(f, pos + 1, nops - 1)
    else NoSack
  }

  function ScanOptions(f: Frame): Scan
    requires |f| >= OPT_AT
  {
    if f[46] / 16 > 5 then ScanFrom(f, OPT_AT, 2) else NoSack
  }

  /** A SACK option of zero to four blocks that lies in the frame. */
  predicate SackFits(f: Frame, pos: nat) {
    pos + 2 <= |f| && f[pos + 1] in {2, 10, 18, 26, 34} && pos + f[pos + 1] <= |f|
  }

  /** How many 32-bit edges the option has. */
  function EdgesOf(f: Frame, scan: Scan): nat
    requires scan.SackAt? ==> SackFits(f, scan.pos)
  {
    if scan.SackAt? then (f[scan.pos + 1] - 2) / 4 else 0
  }

  /** The option scan ends inside the frame, and any SACK option it finds fits. */
  predicate OptionsFit(f: Frame)
    requires |f| >= OPT_AT
  {
    match ScanOptions(f) case NoSack => true case CutShort => false case SackAt(pos) => SackFits(f, pos)
  }

  predicate Accepts(f: Frame) {
    IsTcp(f) && OptionsFit(f)
  }

  // ---- Edges ----

  function EdgeSum(f: Frame, at: nat, m: nat): int
    requires at + 4 * m <= |f|
  {
    if m == 0 then 0 else EdgeSum(f, at, m - 1) + Load32(f, at + 4 * (m - 1))
  }

  /** The edges from `at` on add up, in the segment's sum, with the weight of their offset. */
  lemma {:induction false} EdgeWindow(f: Frame, at: nat, m: nat)
    requires at + 4 * m <= |f|
    ensures Cong(Sum(f, at, at + 4 * m), Scaled(at, EdgeSum(f, at, m)))
  {
    hide Sum, Load32, Cong;
    if m == 0 {
      NothingSummed(f, at);
    } else {
      var last := at + 4 * (m - 1);
      assert last % 2 == at % 2;
      EdgeWindow(f, at, m - 1);
      SumSplit(f, at, last, at + 4 * m);
      WordSum(f, last);
      CongAdd(Sum(f, at, last), Scaled(at, EdgeSum(f, at, m - 1)),
              Sum(f, last, last + 4), Scaled(last, Load32(f, last)));
    }
  }

  lemma NothingSummed(f: Frame, at: nat)
    requires at <= |f|
    ensures Cong(Sum(f, at, at), 0)
  {
  }

  lemma {:induction false} EdgeSumSame(f: Frame, g: Frame, at: nat, m: nat)
    requires at + 4 * m <= |f| == |g| && forall i | at <= i < at + 4 * m :: f[i] == g[i]
    ensures EdgeSum(f, at, m) == EdgeSum(g, at, m)
  {
    if m > 0 { EdgeSumSame(f, g, at, m - 1); }
  }

  /** `m` edges from `at` on have been moved by `diff`; nothing else differs. */
  predicate EdgesMoved(f: Frame, g: Frame, at: nat, m: nat, diff: u32) {
    && |g| == |f| && at + 4 * m <= |f|
    && (forall j | 0 <= j < m :: Net32(g, at + 4 * j) == Add32(Net32(f, at + 4 * j), diff))
    && (forall i | 0 <= i < |f| && !(at <= i < at + 4 * m) :: g[i] == f[i])
  }

  lemma NetBytes(v: u32)
    ensures var b0, b1, b2, b3 := v / 0x100_0000, v / 0x1_0000 % 0x100, v / 0x100 % 0x100, v % 0x100;
            0 <= b0 < 0x100 && 0x100_0000 * b0 + 0x1_0000 * b1 + 0x100 * b2 + b3 == v
  {
    var high, mid := v / 0x1_0000, v / 0x100;
    assert mid / 0x100 == high && high / 0x100 == v / 0x100_0000;
  }

  /** Overwrites a 32-bit field and threads the checksum difference. */
  method RewriteWord(buf: array<u8>, at: nat, v: u32, csum: u32) returns (csum': u32)
    requires at + 4 <= buf.Length
    modifies buf
    ensures Net32(buf[..], at) == v
    ensures forall i | 0 <= i < buf.Length && !(at <= i < at + 4) :: buf[i] == old(buf[i])
    ensures Cong(csum', csum + Load32(buf[..], at) - old(Load32(buf[..], at)))
  {
    var from := Load32(buf[..], at);
    NetBytes(v);
    buf[at] := v / 0x100_0000;
    buf[at + 1] := v / 0x1_0000 % 0x100;
    buf[at + 2] := v / 0x100 % 0x100;
    buf[at + 3] := v % 0x100;
    csum' := CsumDiff(from, Load32(buf[..], at), csum);
  }

  /** The two edges of one SACK block. */
  method MoveBlock(buf: array<u8>, sack: nat, diff: u32, csum: u32, ghost f: Frame, ghost at: nat,
                   ghost m: nat, ghost csum0: u32)
    returns (csum': u32)
    requires sack == at + 4 * m && sack + 8 <= buf.Length
    requires EdgesMoved(f, buf[..], at, m, diff)
    requires Cong(csum, csum0 + EdgeSum(buf[..], at, m) - EdgeSum(f, at, m))
    modifies buf
    ensures EdgesMoved(f, buf[..], at, m + 2, diff)
    ensures Cong(csum', csum0 + EdgeSum(buf[..], at, m + 2) - EdgeSum(f, at, m + 2))
  {
    hide EdgesMoved, EdgeSum, Cong;
    csum' := MoveEdge(buf, sack, diff, csum, f, at, m, csum0);
    csum' := MoveEdge(buf, sack + 4, diff, csum', f, at, m + 1, csum0);
  }

  method MoveEdge(buf: array<u8>, sack: nat, diff: u32, csum: u32, ghost f: Frame, ghost at: nat,
                   ghost m: nat, ghost csum0: u32)
    returns (csum': u32)
    requires sack == at + 4 * m && sack + 4 <= buf.Length
    requires EdgesMoved(f, buf[..], at, m, diff)
    requires Cong(csum, csum0 + EdgeSum(buf[..], at, m) - EdgeSum(f, at, m))
    modifies buf
    ensures EdgesMoved(f, buf[..], at, m + 1, diff)
    ensures Cong(csum', csum0 + EdgeSum(buf[..], at, m + 1) - EdgeSum(f, at, m + 1))
  {
    hide EdgesMoved, EdgeSum, Load32, Net32;
    ghost var was := buf[..];
    FrameLength(f, was, at, m, diff);
    csum' := RewriteWord(buf, sack, Add32(Net32(buf[..], sack), diff), csum);
    EdgeAdded(f, was, buf[..], at, m, diff);
    CongAdd(csum', csum + Load32(buf[..], sack) - Load32(was, sack),
            csum, csum0 + EdgeSum(was, at, m) - EdgeSum(f, at, m));
  }

  lemma FrameLength(f: Frame, g: Frame, at: nat, m: nat, diff: u32)
    requires EdgesMoved(f, g, at, m, diff)
    ensures |g| == |f| && at + 4 * m <= |f|
  {
  }

  /** Moving one more edge. */
  lemma EdgeAdded(f: Frame, was: Frame, g: Frame, at: nat, m: nat, diff: u32)
    requires EdgesMoved(f, was, at, m, diff) && at + 4 * m + 4 <= |f| == |g|
    requires Net32(g, at + 4 * m) == Add32(Net32(was, at + 4 * m), diff)
    requires forall i | 0 <= i < |f| && !(at + 4 * m <= i < at + 4 * m + 4) :: g[i] == was[i]
    ensures EdgesMoved(f, g, at, m + 1, diff)
    ensures EdgeSum(g, at, m + 1) == EdgeSum(was, at, m) + Load32(g, at + 4 * m)
    ensures EdgeSum(f, at, m + 1) == EdgeSum(f, at, m) + Load32(was, at + 4 * m)
  {
    EdgeSumSame(was, g, at, m);
    assert Net32(was, at + 4 * m) == Net32(f, at + 4 * m);
    forall j | 0 <= j < m ensures Net32(g, at + 4 * j) == Add32(Net32(f, at + 4 * j), diff) {
      assert Net32(g, at + 4 * j) == Net32(was, at + 4 * j);
    }
  }

  /** The SACK branch: up to four blocks, then a check that nothing is left of the option. */
  method TranslateSack(buf: array<u8>, pos: nat, diff: u32, csum: u32) returns (v: Verdict, csum': u32)
    requires pos < buf.Length
    modifies buf
    ensures v == Pass <==> SackFits(old(buf[..]), pos)
    ensures v == Pass ==> var f := old(buf[..]); var m := EdgesOf(f, SackAt(pos));
              && EdgesMoved(f, buf[..], pos + 2, m, diff)
              && Cong(csum', csum + EdgeSum(buf[..], pos + 2, m) - EdgeSum(f, pos + 2, m))
  {
    hide EdgesMoved, EdgeSum, Cong;
    ghost var f := buf[..];
    csum' := csum;
    if pos + 2 > buf.Length { return Drop, csum'; }
    var len, sack := buf[pos + 1], pos + 2;
    NoEdges(f, pos + 2, diff, csum);
    if len >= 10 {
      if sack + 8 > buf.Length { return Drop, csum'; }
      csum' := MoveBlock(buf, sack, diff, csum', f, pos + 2, 0, csum);
      sack, len := sack + 8, len - 8;
    }
    if len >= 10 {
      if sack + 8 > buf.Length { return Drop, csum'; }
      csum' := MoveBlock(buf, sack, diff, csum', f, pos + 2, 2, csum);
      sack, len := sack + 8, len - 8;
    }
    if len >= 10 {
      if sack + 8 > buf.Length { return Drop, csum'; }
      csum' := MoveBlock(buf, sack, diff, csum', f, pos + 2, 4, csum);
      sack, len := sack + 8, len - 8;
    }
    if len >= 10 {
      if sack + 8 > buf.Length { return Drop, csum'; }
      csum' := MoveBlock(buf, sack, diff, csum', f, pos + 2, 6, csum);
      sack, len := sack + 8, len - 8;
    }
    v := if len != 2 then Drop else Pass;
  }

  lemma NoEdges(f: Frame, at: nat, diff: u32, csum: u32)
    requires at <= |f|
    ensures EdgesMoved(f, f, at, 0, diff) && Cong(csum, csum + EdgeSum(f, at, 0) - EdgeSum(f, at, 0))
  {
  }

  /** The check field that closes a rewriting. */
  method WriteCheck(buf: array<u8>, csum: u32)
    requires buf.Length >= OPT_AT
    modifies buf
    ensures Cong(Load16(buf[..], CHECK_AT), -(csum as int))
    ensures forall i | 0 <= i < buf.Length && !(CHECK_AT <= i < CHECK_AT + 2) :: buf[i] == old(buf[i])
  {
    var check := CsumFold(csum);
    buf[CHECK_AT] := check % 0x100;
    buf[CHECK_AT + 1] := check / 0x100;
    assert Load16(buf[..], CHECK_AT) == check;
  }

  /** Outside `[a..b)` two frames agree. */
  predicate SameOutside(f: Frame, g: Frame, a: nat, b: nat) {
    |g| == |f| && forall i | 0 <= i < |f| && !(a <= i < b) :: g[i] == f[i]
  }

  lemma FieldSum(f: Frame, g: Frame, field: nat, segEnd: nat)
    requires field % 2 == 0 && TCP_AT <= field && field + 4 <= segEnd <= |f| && SameOutside(f, g, field, field + 4)
    ensures Cong(Sum(g, TCP_AT, segEnd) - Sum(f, TCP_AT, segEnd), Load32(g, field) - Load32(f, field))
  {
    SumWindow(f, g, TCP_AT, field, field + 4, segEnd);
    WordSum(f, field);
    WordSum(g, field);
    CongDiff(Sum(g, field, field + 4), Load32(g, field), Sum(f, field, field + 4), Load32(f, field));
  }

  lemma EdgesSum(f: Frame, g: Frame, at: nat, m: nat, segEnd: nat)
    requires TCP_AT <= at && at + 4 * m <= segEnd <= |f| && SameOutside(f, g, at, at + 4 * m)
    ensures Cong(Sum(g, TCP_AT, segEnd) - Sum(f, TCP_AT, segEnd), Scaled(at, EdgeSum(g, at, m) - EdgeSum(f, at, m)))
  {
    SumWindow(f, g, TCP_AT, at, at + 4 * m, segEnd);
    EdgeWindow(f, at, m);
    EdgeWindow(g, at, m);
    CongDiff(Sum(g, at, at + 4 * m), Scaled(at, EdgeSum(g, at, m)),
             Sum(f, at, at + 4 * m), Scaled(at, EdgeSum(f, at, m)));
  }

  lemma CheckSum(f: Frame, g: Frame, segEnd: nat)
    requires CHECK_AT + 2 <= segEnd <= |f| && SameOutside(f, g, CHECK_AT, CHECK_AT + 2)
    ensures |g| == |f| && Sum(g, TCP_AT, segEnd) - Sum(f, TCP_AT, segEnd) == Load16(g, CHECK_AT) - Load16(f, CHECK_AT)
  {
    SumWindow(f, g, TCP_AT, CHECK_AT, CHECK_AT + 2, segEnd);
    HalfSum(f, CHECK_AT);
    HalfSum(g, CHECK_AT);
  }

  lemma CheckKept(f: Frame, g: Frame, at: nat, size: nat)
    requires |f| >= OPT_AT && (at + size <= CHECK_AT || OPT_AT <= at) && SameOutside(f, g, at, at + size)
    ensures |g| == |f| && Load16(g, CHECK_AT) == Load16(f, CHECK_AT)
  {
  }

  /** What rewriting one header field (`f` to `f1`), `m` edges (`f1` to `f2`) and the check field
      (`f2` to `g`) does to the segment's sum: nothing at even offsets, 255 times the change of the
      edges at odd ones. */
  lemma RewritingSum(f: Frame, f1: Frame, f2: Frame, g: Frame, field: nat, at: nat, m: nat, csum: u32, segEnd: nat)
    requires |f| >= OPT_AT && field in {SEQ_AT, ACK_AT} && OPT_AT <= at && at + 4 * m <= segEnd <= |f|
    requires SameOutside(f, f1, field, field + 4) && SameOutside(f1, f2, at, at + 4 * m)
    requires SameOutside(f2, g, CHECK_AT, CHECK_AT + 2)
    requires Cong(csum, Load32(f1, field) - Load32(f, field) + EdgeSum(f2, at, m) - EdgeSum(f1, at, m)
                        - Load16(f, CHECK_AT))
    requires Cong(Load16(g, CHECK_AT), -(csum as int))
    ensures Cong(Sum(g, TCP_AT, segEnd) - Sum(f, TCP_AT, segEnd),
                 Scaled(at, EdgeSum(f2, at, m) - EdgeSum(f1, at, m)) - (EdgeSum(f2, at, m) - EdgeSum(f1, at, m)))
  {
    hide Sum, EdgeSum, Load32, Load16, Scaled, Cong, SameOutside;
    CheckKept(f, f1, field, 4);
    CheckKept(f1, f2, at, 4 * m);
    FieldSum(f, f1, field, segEnd);
    EdgesSum(f1, f2, at, m, segEnd);
    CheckSum(f2, g, segEnd);
    RewritingArithmetic(Sum(f1, TCP_AT, segEnd) - Sum(f, TCP_AT, segEnd), Load32(f1, field) - Load32(f, field),
                        Sum(f2, TCP_AT, segEnd) - Sum(f1, TCP_AT, segEnd), EdgeSum(f2, at, m) - EdgeSum(f1, at, m),
                        Scaled(at, EdgeSum(f2, at, m) - EdgeSum(f1, at, m)), Load16(g, CHECK_AT),
                        Load16(f, CHECK_AT), csum);
  }

  lemma RewritingArithmetic(dField: int, wField: int, dEdges: int, wEdges: int, scaled: int,
                           check': int, check: int, csum: int)
    requires Cong(dField, wField) && Cong(dEdges, scaled)
    requires Cong(csum, wField + wEdges - check) && Cong(check', -csum)
    ensures Cong(dField + dEdges + (check' - check), scaled - wEdges)
  {
    CongTrans(check', -csum, check - wField - wEdges);
    CongAdd(dField, wField, dEdges, scaled);
    CongAdd(dField + dEdges, wField + scaled, check' - check, -wField - wEdges);
  }

  // ---- The programs ----

  /** Everything a pass through the agent changes in a TCP frame: the acknowledgment or sequence
      field, the SACK edges, the check field. */
  ghost predicate Rewritten(f: Frame, g: Frame, field: nat, at: nat, m: nat, diff: u32)
    requires at + 4 * m <= |f|
  {
    && |g| == |f|
    && (forall i | 0 <= i < |f| && !(field <= i < field + 4) && !(CHECK_AT <= i < CHECK_AT + 2)
                   && !(at <= i < at + 4 * m) :: g[i] == f[i])
    && (forall j | 0 <= j < m :: Net32(g, at + 4 * j) == Add32(Net32(f, at + 4 * j), diff))
  }

  /** How far the check field is off after `m` edges at `at` have changed. */
  function Slip(f: Frame, g: Frame, at: nat, m: nat): int
    requires at + 4 * m <= |f| == |g|
  {
    var change := EdgeSum(g, at, m) - EdgeSum(f, at, m);
    Scaled(at, change) - change
  }

  /** Where the edges of an accepted frame start. */
  function EdgesAt(scan: Scan): nat {
    match scan case SackAt(pos) => pos + 2 case _ => OPT_AT
  }

  /** A field, then `m` edges, then the check field: all that differs. */
  lemma RewritingFrame(f: Frame, f1: Frame, f2: Frame, g: Frame, field: nat, at: nat, m: nat, diff: u32)
    requires |f| >= OPT_AT && field in {SEQ_AT, ACK_AT} && OPT_AT <= at && at + 4 * m <= |f|
    requires SameOutside(f, f1, field, field + 4) && EdgesMoved(f1, f2, at, m, diff)
    requires SameOutside(f2, g, CHECK_AT, CHECK_AT + 2)
    ensures Rewritten(f, g, field, at, m, diff) && Net32(g, field) == Net32(f1, field)
  {
    forall j | 0 <= j < m ensures Net32(g, at + 4 * j) == Add32(Net32(f, at + 4 * j), diff) {
      assert Net32(g, at + 4 * j) == Net32(f2, at + 4 * j) && Net32(f1, at + 4 * j) == Net32(f, at + 4 * j);
    }
  }

  lemma RewritingEdges(f: Frame, f1: Frame, f2: Frame, g: Frame, field: nat, at: nat, m: nat, diff: u32)
    requires |f| >= OPT_AT && field in {SEQ_AT, ACK_AT} && OPT_AT <= at && at + 4 * m <= |f|
    requires SameOutside(f, f1, field, field + 4) && EdgesMoved(f1, f2, at, m, diff)
    requires SameOutside(f2, g, CHECK_AT, CHECK_AT + 2)
    ensures |g| == |f2| == |f1| == |f| && SameOutside(f1, f2, at, at + 4 * m)
    ensures EdgeSum(f1, at, m) == EdgeSum(f, at, m) && EdgeSum(g, at, m) == EdgeSum(f2, at, m)
  {
    EdgeSumSame(f, f1, at, m);
    EdgeSumSame(f2, g, at, m);
  }

  /** ... and what the sum keeps. */
  lemma RewritingCloses(f: Frame, f1: Frame, f2: Frame, g: Frame, field: nat, at: nat, m: nat, diff: u32,
                         csum: u32, segEnd: nat)
    requires |f| >= OPT_AT && field in {SEQ_AT, ACK_AT} && OPT_AT <= at && at + 4 * m <= |f|
    requires SameOutside(f, f1, field, field + 4) && EdgesMoved(f1, f2, at, m, diff)
    requires SameOutside(f2, g, CHECK_AT, CHECK_AT + 2)
    requires Cong(csum, Load32(f1, field) - Load32(f, field) + EdgeSum(f2, at, m) - EdgeSum(f1, at, m)
                        - Load16(f, CHECK_AT))
    requires Cong(Load16(g, CHECK_AT), -(csum as int))
    ensures Rewritten(f, g, field, at, m, diff) && Net32(g, field) == Net32(f1, field)
    ensures |g| == |f|
    ensures at + 4 * m <= segEnd <= |f| ==> Cong(Sum(g, TCP_AT, segEnd) - Sum(f, TCP_AT, segEnd), Slip(f, g, at, m))
  {
    hide Sum, Cong, Scaled, EdgesMoved, SameOutside, EdgeSum, Rewritten, Load32, Load16, Net32;
    RewritingFrame(f, f1, f2, g, field, at, m, diff);
    RewritingEdges(f, f1, f2, g, field, at, m, diff);
    if at + 4 * m <= segEnd <= |f| {
      RewritingSum(f, f1, f2, g, field, at, m, csum, segEnd);
    }
  }

  /** The complement of the check field, widened to 32 bits before or after. */
  function CheckSeed(f: Frame): (csum: u32)
    requires |f| >= OPT_AT
    ensures Cong(csum, -(Load16(f, CHECK_AT) as int))
  {
    0xFFFF_FFFF - Load16(f, CHECK_AT)
  }

  /** Rewrites one header field and the check field. */
  method RewriteField(buf: array<u8>, field: nat, value: u32, ghost segEnd: nat)
    requires buf.Length >= OPT_AT && field in {SEQ_AT, ACK_AT}
    modifies buf
    ensures var f, g := old(buf[..]), buf[..];
            && Rewritten(f, g, field, OPT_AT, 0, 0) && Net32(g, field) == value
            && (OPT_AT <= segEnd <= |f| ==>
                  Cong(Sum(g, TCP_AT, segEnd) - Sum(f, TCP_AT, segEnd), Slip(f, g, OPT_AT, 0)))
  {
    hide Sum, Rewritten, EdgesMoved, EdgeSum, Slip, Scaled, Load32, Load16;
    ghost var f := buf[..];
    var csum := CheckSeed(buf[..]);
    csum := RewriteWord(buf, field, value, csum);
    ghost var f1 := buf[..];
    NoEdges(f1, OPT_AT, 0, csum);
    WriteCheck(buf, csum);
    RewritingCloses(f, f1, f1, buf[..], field, OPT_AT, 0, 0, csum, segEnd);
  }

  /** Folds the check field again, with nothing else rewritten. */
  method RefreshCheck(buf: array<u8>, ghost segEnd: nat)
    requires buf.Length >= OPT_AT
    modifies buf
    ensures var f, g := old(buf[..]), buf[..];
            && Rewritten(f, g, SEQ_AT, OPT_AT, 0, 0) && Net32(g, SEQ_AT) == Net32(f, SEQ_AT)
            && (OPT_AT <= segEnd <= |f| ==>
                  Cong(Sum(g, TCP_AT, segEnd) - Sum(f, TCP_AT, segEnd), Slip(f, g, OPT_AT, 0)))
  {
    hide Sum, Rewritten, EdgesMoved, EdgeSum, Slip, Scaled, Load32, Load16;
    ghost var f := buf[..];
    var csum := CheckSeed(buf[..]);
    NoEdges(f, OPT_AT, 0, csum);
    WriteCheck(buf, csum);
    RewritingCloses(f, f, f, buf[..], SEQ_AT, OPT_AT, 0, 0, csum, segEnd);
  }

  /** The option scan, unrolled as in the program. */
  method FindSack(buf: array<u8>) returns (scan: Scan)
    requires buf.Length >= OPT_AT
    ensures scan == ScanOptions(buf[..])
  {
    if buf[46] / 16 <= 5 { return NoSack; }
    var opt := OPT_AT;
    if opt + 1 > buf.Length { return CutShort; }
    if buf[opt] == 1 { opt := opt + 1; } else if buf[opt] != 5 { return NoSack; } else { return SackAt(opt); }
    if opt + 1 > buf.Length { return CutShort; }
    if buf[opt] == 1 { opt := opt + 1; } else if buf[opt] != 5 { return NoSack; } else { return SackAt(opt); }
    if opt + 1 > buf.Length { return CutShort; }
    if buf[opt] != 5 { return NoSack; } else { return SackAt(opt); }
  }

  /** The options of a spliced client's frame. */
  method TranslateOptions(buf: array<u8>, diff: u32, csum: u32) returns (v: Verdict, csum': u32)
    requires buf.Length >= OPT_AT
    modifies buf
    ensures v == Pass <==> OptionsFit(old(buf[..]))
    ensures v == Pass ==>
      var f := old(buf[..]);
      var at, m := EdgesAt(ScanOptions(f)), EdgesOf(f, ScanOptions(f));
      && EdgesMoved(f, buf[..], at, m, diff) && at + 4 * m <= |f|
      && Cong(csum', csum + EdgeSum(buf[..], at, m) - EdgeSum(f, at, m))
  {
    hide EdgesMoved, EdgeSum;
    ghost var f := buf[..];
    var scan := FindSack(buf);
    match scan {
      case CutShort =>
        return Drop, csum;
      case SackAt(pos) =>
        SackStarts(f);
        v, csum' := TranslateSack(buf, pos, diff, csum);
      case NoSack =>
        NoEdges(f, OPT_AT, diff, csum);
        return Pass, csum;
    }
  }

  lemma SackStarts(f: Frame)
    requires |f| >= OPT_AT && ScanOptions(f).SackAt?
    ensures OPT_AT <= ScanOptions(f).pos < |f|
  {
    assert ScanFrom(f, OPT_AT + 2, 0).SackAt? ==> ScanFrom(f, OPT_AT + 2, 0).pos == OPT_AT + 2;
  }

  /** A frame of a spliced client: acknowledgment, then SACK edges, then check field. */
  method IngressSpliced(buf: array<u8>, diff: u32, ghost segEnd: nat) returns (v: Verdict)
    requires buf.Length >= OPT_AT
    modifies buf
    ensures v == Pass <==> OptionsFit(old(buf[..]))
    ensures v == Pass ==>
      var f, g := old(buf[..]), buf[..];
      var at, m := EdgesAt(ScanOptions(f)), EdgesOf(f, ScanOptions(f));
      && OPT_AT <= at && at + 4 * m <= |f|
      && Rewritten(f, g, ACK_AT, at, m, diff) && Net32(g, ACK_AT) == Add32(Net32(f, ACK_AT), diff)
      && (at + 4 * m <= segEnd <= |f| ==> Cong(Sum(g, TCP_AT, segEnd) - Sum(f, TCP_AT, segEnd), Slip(f, g, at, m)))
  {
    hide Sum, Rewritten, EdgesMoved, EdgeSum, Slip, Scaled, ScanOptions, EdgesOf, Load32, Load16, Cong;
    ghost var f := buf[..];
    var csum := CheckSeed(buf[..]);
    ghost var seed := csum;
    csum := RewriteWord(buf, ACK_AT, Add32(Net32(buf[..], ACK_AT), diff), csum);
    ghost var f1, afterField := buf[..], csum;
    ScanKept(f, f1);
    v, csum := TranslateOptions(buf, diff, csum);
    if v == Drop { return; }
    ghost var f2, at, m := buf[..], EdgesAt(ScanOptions(f)), EdgesOf(f, ScanOptions(f));
    WriteCheck(buf, csum);
    Threaded(seed, afterField, csum, Load16(f, CHECK_AT), Load32(f1, ACK_AT) - Load32(f, ACK_AT),
             EdgeSum(f2, at, m) - EdgeSum(f1, at, m));
    RewritingCloses(f, f1, f2, buf[..], ACK_AT, at, m, diff, csum, segEnd);
  }

  /** A checksum difference threaded through two rewritings. */
  lemma Threaded(seed: int, afterField: int, csum: int, check: int, wField: int, wEdges: int)
    requires Cong(seed, -check) && Cong(afterField, seed + wField) && Cong(csum, afterField + wEdges)
    ensures Cong(csum, wField + wEdges - check)
  {
    CongAdd(seed, -check, wField, wField);
    CongTrans(afterField, seed + wField, wField - check);
    CongAdd(afterField, wField - check, wEdges, wEdges);
    CongTrans(csum, afterField + wEdges, wField + wEdges - check);
  }

  /** The header fields lie before the options. */
  lemma ScanKept(f: Frame, g: Frame)
    requires |f| >= OPT_AT && SameOutside(f, g, ACK_AT, ACK_AT + 4)
    ensures |g| == |f| && ScanOptions(g) == ScanOptions(f) && OptionsFit(g) == OptionsFit(f)
    ensures OptionsFit(f) ==>
              && OPT_AT <= EdgesAt(ScanOptions(f)) && EdgesOf(g, ScanOptions(f)) == EdgesOf(f, ScanOptions(f))
              && EdgesAt(ScanOptions(f)) + 4 * EdgesOf(f, ScanOptions(f)) <= |f|
  {
    assert forall i | OPT_AT <= i < |f| :: g[i] == f[i];
    assert ScanFrom(f, OPT_AT + 2, 0) == ScanFrom(g, OPT_AT + 2, 0);
    assert ScanFrom(f, OPT_AT + 1, 1) == ScanFrom(g, OPT_AT + 1, 1);
    if ScanOptions(f).SackAt? { SackStarts(f); }
  }

  /** How many of `m` edges from `at` on wrap around when `diff` is added. */
  function Wraps(f: Frame, at: nat, m: nat, diff: u32): nat
    requires at + 4 * m <= |f|
  {
    if m == 0 then 0
    else Wraps(f, at, m - 1, diff) + if Net32(f, at + 4 * (m - 1)) as int + diff as int >= TWO_32 then 1 else 0
  }

  /** Modulo 257 a word loaded in the host's byte order is the negative of the number it spells. */
  lemma LoadedIsNegative(f: Frame, i: nat)
    requires i + 4 <= |f|
    ensures (Load32(f, i) as int + Net32(f, i) as int) % 257 == 0
  {
    var a, b, c, d: int := f[i], f[i + 1], f[i + 2], f[i + 3];
    assert Load32(f, i) as int + Net32(f, i) as int == 257 * (65281 * a + 256 * b + 256 * c + 65281 * d);
  }

  /** Adding `diff` to one edge. */
  lemma EdgeChange(f: Frame, g: Frame, i: nat, diff: u32)
    requires i + 4 <= |f| == |g| && Net32(g, i) == Add32(Net32(f, i), diff)
    ensures var wrap := if Net32(f, i) as int + diff as int >= TWO_32 then 1 else 0;
            (Load32(g, i) as int - Load32(f, i) as int + (diff as int - wrap)) % 257 == 0
  {
    hide Load32, Net32, Add32;
    LoadedIsNegative(f, i);
    LoadedIsNegative(g, i);
    var x, y, u, v: int := Net32(f, i), Net32(g, i), Load32(f, i), Load32(g, i);
    var wrap := if x + diff as int >= TWO_32 then 1 else 0;
    AddWraps(Net32(f, i), diff);
    ChangeOf(u, x, v, y, diff, wrap, (u + x) / 257, (v + y) / 257);
  }

  lemma AddWraps(x: u32, diff: u32)
    ensures Add32(x, diff) as int == x as int + diff as int - TWO_32 * if x as int + diff as int >= TWO_32 then 1 else 0
  {
  }

  lemma ChangeOf(u: int, x: int, v: int, y: int, diff: int, wrap: int, p: int, q: int)
    requires u + x == 257 * p && v + y == 257 * q && y == x + diff - TWO_32 * wrap
    ensures (v - u + (diff - wrap)) % 257 == 0
  {
    assert v - u + (diff - wrap) == 257 * (q - p + 16711935 * wrap);
  }

  /** Modulo 257 the edges of a rewritten frame change by what the wraps leave of `m` times `diff`. */
  lemma {:induction false} EdgesChange(f: Frame, g: Frame, at: nat, m: nat, diff: u32)
    requires at + 4 * m <= |f| == |g|
    requires forall j | 0 <= j < m :: Net32(g, at + 4 * j) == Add32(Net32(f, at + 4 * j), diff)
    ensures (EdgeSum(g, at, m) - EdgeSum(f, at, m) + (m * diff as int - Wraps(f, at, m, diff))) % 257 == 0
  {
    hide Load32, Net32, Add32;
    if m > 0 {
      var i := at + 4 * (m - 1);
      EdgesChange(f, g, at, m - 1, diff);
      assert Net32(g, i) == Add32(Net32(f, i), diff);
      EdgeChange(f, g, i, diff);
      var wrap := if Net32(f, i) as int + diff as int >= TWO_32 then 1 else 0;
      assert m * diff as int == (m - 1) * diff as int + diff as int;
      var change := EdgeSum(g, at, m - 1) - EdgeSum(f, at, m - 1);
      SumOfMultiples(change + ((m - 1) * diff as int - Wraps(f, at, m - 1, diff)),
                     Load32(g, i) as int - Load32(f, i) as int + (diff as int - wrap));
    }
  }

  lemma SumOfMultiples(a: int, b: int)
    requires a % 257 == 0 && b % 257 == 0
    ensures (a + b) % 257 == 0
  {
  }

  /** A rewritten frame still checks exactly when its edges lie at an even offset -- after no NOP or two --
      or `m` times the difference, less the edges that wrap around, is a multiple of 257. */
  lemma ChecksumKeptExactly(f: Frame, g: Frame, field: nat, at: nat, m: nat, diff: u32, segEnd: nat)
    requires at + 4 * m <= |f| && TCP_AT <= segEnd <= |f| && Rewritten(f, g, field, at, m, diff)
    requires Cong(Sum(g, TCP_AT, segEnd) - Sum(f, TCP_AT, segEnd), Slip(f, g, at, m))
    ensures Cong(Sum(g, TCP_AT, segEnd), Sum(f, TCP_AT, segEnd))
      <==> at % 2 == 0 || (m * diff as int - Wraps(f, at, m, diff)) % 257 == 0
  {
    hide Sum, EdgeSum, Wraps, Net32, Cong, Scaled;
    var d, change := Sum(g, TCP_AT, segEnd) - Sum(f, TCP_AT, segEnd), EdgeSum(g, at, m) - EdgeSum(f, at, m);
    EdgesChange(f, g, at, m, diff);
    OppositeMultiples(change, m * diff as int - Wraps(f, at, m, diff));
    SlipExactly(d, at, change);
    CongZero(Sum(g, TCP_AT, segEnd), Sum(f, TCP_AT, segEnd));
  }

  lemma CongZero(a: int, b: int)
    ensures Cong(a, b) <==> Cong(a - b, 0)
  {
  }

  lemma SlipExactly(d: int, at: nat, change: int)
    requires Cong(d, Scaled(at, change) - change)
    ensures Cong(d, 0) <==> at % 2 == 0 || change % 257 == 0
  {
    hide Cong;
    CongZeroes(d, Scaled(at, change) - change);
    if at % 2 == 0 {
      Zero();
    } else {
      assert Scaled(at, change) - change == 255 * change;
      SlipVanishes(change);
    }
  }

  lemma SlipVanishes(change: int)
    ensures Cong(255 * change, 0) <==> change % 257 == 0
  {
    if Cong(255 * change, 0) {
      var q := 255 * change / ONES;
      assert 255 * change == 255 * (257 * q);
      assert change == 257 * q;
    }
    if change % 257 == 0 {
      var q := change / 257;
      assert 255 * change == ONES * q;
    }
  }

  /** One NOP, one SACK block, difference 1. */
  ghost predicate OneNopFrame(f: Frame) {
    && |f| == 66
    && Accepts(f)
    && ScanOptions(f) == SackAt(OPT_AT + 1)
    && EdgesOf(f, ScanOptions(f)) == 2
    && forall i | OPT_AT + 3 <= i < 66 :: f[i] == 0
  }

  /** Such frames exist: */
  lemma OneNopFrameExists() returns (f: Frame)
    ensures OneNopFrame(f)
  {
    f := seq(66, i => if i == 12 then 8 else if i == 23 then 6 else if i == 46 then 0x80
                      else if i == 54 then 1 else if i == 55 then 5 else if i == 56 then 10 else 0);
  }

  /** whatever the program makes of one, its sum is another: if it checked, it no longer does. */
  lemma OneNopCounterexample(f: Frame, g: Frame)
    requires OneNopFrame(f) && |g| == 66 && Rewritten(f, g, ACK_AT, OPT_AT + 3, 2, 1)
    requires Cong(Sum(g, TCP_AT, 66) - Sum(f, TCP_AT, 66), Slip(f, g, OPT_AT + 3, 2))
    ensures !Cong(Sum(g, TCP_AT, 66), Sum(f, TCP_AT, 66))
  {
    hide Sum, Cong, Slip, EdgeSum, ScanOptions, EdgesOf, Accepts;
    ChecksumKeptExactly(f, g, ACK_AT, OPT_AT + 3, 2, 1, 66);
    assert Wraps(f, OPT_AT + 3, 0, 1) == 0 && Wraps(f, OPT_AT + 3, 1, 1) == 0 && Wraps(f, OPT_AT + 3, 2, 1) == 0;
  }

  class Agent {
    var seqMap: map<Endpoint, u32>
    var flowMap: map<Endpoint, u32>

    constructor ()
      ensures Maps() == Splices(map[], map[])
    {
      seqMap, flowMap := map[], map[];
    }

    function Maps(): Splices
      reads this
    {
      Splices(seqMap, flowMap)
    }

    /** The XDP program. Its deletion of a splice on a client's RST is unreachable: every earlier path jumps past it. */
    method Ingress(buf: array<u8>, ghost segEnd: nat) returns (v: Verdict)
      modifies this`seqMap, buf
      ensures var f := old(buf[..]);
        && (v == Drop <==> Truncated(f) || (IsTcp(f) && HeaderOf(f).src in flowMap && !Accepts(f)))
        && (!IsTcp(f) ==> buf[..] == f && seqMap == old(seqMap))
        && (IsTcp(f) ==> Maps() == IngressSplices(old(Maps()), HeaderOf(f)))
        && (IsTcp(f) && HeaderOf(f).src !in flowMap && !HeaderOf(f).flags.syn ==> buf[..] == f)
      ensures var f, g := old(buf[..]), buf[..];
        IsTcp(f) && v == Pass ==>
          && HeaderOf(g) == IngressHeader(old(Maps()), HeaderOf(f))
          && var scan := if HeaderOf(f).src in flowMap then ScanOptions(f) else NoSack;
             var at, m := EdgesAt(scan), EdgesOf(f, scan);
             && at + 4 * m <= |f|
             && Rewritten(f, g, ACK_AT, at, m, if HeaderOf(f).src in flowMap then flowMap[HeaderOf(f).src] else 0)
             && (at + 4 * m <= segEnd <= |f| ==>
                   Cong(Sum(g, TCP_AT, segEnd) - Sum(f, TCP_AT, segEnd), Slip(f, g, at, m)))
    {
      if buf.Length < IP_AT { return Drop; }
      if Net16(buf[..], 12) != 0x0800 { return Pass; }
      if buf.Length < TCP_AT { return Drop; }
      if buf[23] != 6 { return Pass; }
      if buf.Length < OPT_AT { return Drop; }
      var h := HeaderOf(buf[..]);
      if h.src in flowMap {
        v := IngressSpliced(buf, flowMap[h.src], segEnd);
      } else if !h.flags.syn {
        v := Pass;
      } else {
        seqMap := seqMap[h.src := h.ackNo];
        RewriteField(buf, ACK_AT, 0, segEnd);
        v := Pass;
      }
    }

    /** The TC program. */
    method Egress(buf: array<u8>, ghost segEnd: nat) returns (v: Verdict)
      modifies this, buf
      ensures var f := old(buf[..]);
        && (v == Drop <==> Truncated(f))
        && (!IsTcp(f) ==> buf[..] == f && Maps() == old(Maps()))
        && (IsTcp(f) ==> Maps() == EgressSplices(old(Maps()), HeaderOf(f)))
        && (IsTcp(f) && HeaderOf(f).dst !in old(flowMap) && Maps() == old(Maps()) ==> buf[..] == f)
      ensures var f, g := old(buf[..]), buf[..];
        IsTcp(f) ==>
          && HeaderOf(g) == EgressHeader(old(Maps()), HeaderOf(f))
          && Rewritten(f, g, SEQ_AT, OPT_AT, 0, 0)
          && (OPT_AT <= segEnd <= |f| ==> Cong(Sum(g, TCP_AT, segEnd), Sum(f, TCP_AT, segEnd)))
    {
      if buf.Length < IP_AT { return Drop; }
      if Net16(buf[..], 12) != 0x0800 { return Pass; }
      if buf.Length < TCP_AT { return Drop; }
      if buf[23] != 6 { return Pass; }
      if buf.Length < OPT_AT { return Drop; }
      v := Pass;
      var h := HeaderOf(buf[..]);
      if h.dst in flowMap {
        RewriteField(buf, SEQ_AT, Sub32(h.seqNo, flowMap[h.dst]), segEnd);
        if h.flags.rst {
          flowMap := flowMap - {h.dst};
          seqMap := seqMap - {h.dst};
        }
      } else {
        if !h.flags.syn || !h.flags.ack { return; }
        if h.dst !in seqMap { return; }
        flowMap := flowMap[h.dst := Sub32(h.seqNo, seqMap[h.dst])];
        RefreshCheck(buf, segEnd);
      }
    }
  }
}
