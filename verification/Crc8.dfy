/** The CRC8 that shards the flow table: its table, its bitwise register, and division by x^8+x^2+x+1 over GF(2). */
module Crc8 {
  import opened Words
  import opened Packets

  /** A polynomial over GF(2), or an unsigned number, highest coefficient first. */
  type Poly = seq<bool>
  type Byte = p: Poly | |p| == 8 witness [false, false, false, false, false, false, false, false]

  function Zeros(n: nat): (p: Poly)
    ensures |p| == n && forall i | 0 <= i < n :: !p[i]
  {
    seq(n, _ => false)
  }

  function Xor(p: Poly, q: Poly): (r: Poly)
    requires |p| == |q|
    ensures |r| == |p| && forall i | 0 <= i < |p| :: r[i] == (p[i] != q[i])
  {
    seq(|p|, i requires 0 <= i < |p| => p[i] != q[i])
  }

  // ---- Bytes as numbers ----

  function Pow2(n: nat): (v: nat) {
    if n == 0 then 1 else 2 * Pow2(n - 1)
  }

  function Value(p: Poly): (v: nat)
    ensures v < Pow2(|p|)
  {
    if p == [] then 0 else 2 * Value(p[..|p| - 1]) + (if p[|p| - 1] then 1 else 0)
  }

  function ToBits(v: nat, n: nat): (p: Poly)
    ensures |p| == n
  {
    if n == 0 then [] else ToBits(v / 2, n - 1) + [v % 2 == 1]
  }

  lemma {:induction false} ToBitsOfValue(p: Poly)
    ensures ToBits(Value(p), |p|) == p
  {
    if p != [] {
      ToBitsOfValue(p[..|p| - 1]);
      assert p == p[..|p| - 1] + [p[|p| - 1]];
    }
  }

  function ByteOf(v: u8): (b: Byte) {
    ToBits(v, 8)
  }

  function Index(b: Byte): (v: u8) {
    assert Pow2(8) == 256;
    Value(b)
  }

  lemma ByteOfIndex(b: Byte)
    ensures ByteOf(Index(b)) == b
  {
    ToBitsOfValue(b);
  }

  // ---- The register ----

  const ZERO: Byte := [false, false, false, false, false, false, false, false]
  const POLYNOMIAL: Byte := [false, false, false, false, false, true, true, true]  // 0x07

  function ShiftLeft(c: Byte): Byte {
    c[1..] + [false]
  }

  /** One shift of the register. */
  function Shift1(c: Byte): Byte {
    if c[0] then Xor(ShiftLeft(c), POLYNOMIAL) else ShiftLeft(c)
  }

  function Shift(c: Byte, n: nat): Byte
    decreases n
  {
    if n == 0 then c else Shift(Shift1(c), n - 1)
  }

  function Shift8(c: Byte): Byte {
    Shift(c, 8)
  }

  /** The checksum of a byte string from register `c`, bit by bit. */
  function Crc(c: Byte, m: seq<Byte>): Byte
    decreases |m|
  {
    if m == [] then c else Crc(Shift8(Xor(c, m[0])), m[1..])
  }

  /** A table that holds the eight shifts of every byte. */
  ghost predicate IsTable(t: seq<Byte>) {
    |t| == 256 && forall x: Byte :: t[Index(x)] == Shift8(x)
  }

  function TableCrc(t: seq<Byte>, c: Byte, m: seq<Byte>): Byte
    requires |t| == 256
    decreases |m|
  {
    if m == [] then c else TableCrc(t, t[Index(Xor(c, m[0]))], m[1..])
  }

  /** The loop that fills the table. */
  method BuildTable() returns (t: array<Byte>)
    ensures fresh(t) && IsTable(t[..])
  {
    t := new Byte[256](_ => ZERO);
    for i := 0 to 256
      invariant forall k: u8 | 0 <= k < i :: t[k] == Shift8(ByteOf(k))
    {
      t[i] := FillEntry(i);
    }
    forall x: Byte ensures t[..][Index(x)] == Shift8(x) {
      ByteOfIndex(x);
    }
  }

  method FillEntry(i: u8) returns (crc: Byte)
    ensures crc == Shift8(ByteOf(i))
  {
    hide ByteOf, Xor;
    crc := ByteOf(i);
    for j := 0 to 8
      invariant Shift(crc, 8 - j) == Shift8(ByteOf(i))
    {
      crc := if crc[0] then Xor(ShiftLeft(crc), POLYNOMIAL) else ShiftLeft(crc);
    }
  }

  /** The table-driven checksum is the bitwise one, for byte strings of every length. */
  lemma {:induction false} TableDriven(t: seq<Byte>, c: Byte, m: seq<Byte>)
    requires IsTable(t)
    ensures TableCrc(t, c, m) == Crc(c, m)
    decreases |m|
  {
    hide Shift8, Index, Xor;
    if m != [] {
      TableDriven(t, t[Index(Xor(c, m[0]))], m[1..]);
    }
  }

  // ---- Linearity ----

  lemma Shift1Linear(a: Byte, b: Byte)
    ensures Shift1(Xor(a, b)) == Xor(Shift1(a), Shift1(b))
  {
    var c := Xor(a, b);
    assert |Shift1(c)| == 8;
    forall i | 0 <= i < 8 ensures Shift1(c)[i] == Xor(Shift1(a), Shift1(b))[i] {
    }
  }

  lemma {:induction false} ShiftLinear(a: Byte, b: Byte, n: nat)
    ensures Shift(Xor(a, b), n) == Xor(Shift(a, n), Shift(b, n))
    decreases n
  {
    hide Shift1, Xor;
    if n > 0 {
      Shift1Linear(a, b);
      ShiftLinear(Shift1(a), Shift1(b), n - 1);
    }
  }

  lemma XorSwaps(a: Poly, b: Poly, c: Poly, d: Poly)
    requires |a| == |b| == |c| == |d|
    ensures Xor(Xor(a, b), Xor(c, d)) == Xor(Xor(a, c), Xor(b, d))
  {
  }

  function XorBytes(m: seq<Byte>, n: seq<Byte>): (r: seq<Byte>)
    requires |m| == |n|
    ensures |r| == |m|
  {
    seq(|m|, i requires 0 <= i < |m| => Xor(m[i], n[i]))
  }

  /** The checksum of a sum of strings is the sum of their checksums. */
  lemma {:induction false} Linear(c: Byte, d: Byte, m: seq<Byte>, n: seq<Byte>)
    requires |m| == |n|
    ensures Crc(Xor(c, d), XorBytes(m, n)) == Xor(Crc(c, m), Crc(d, n))
    decreases |m|
  {
    hide Shift;
    if m != [] {
      assert XorBytes(m, n)[1..] == XorBytes(m[1..], n[1..]);
      XorSwaps(c, d, m[0], n[0]);
      ShiftLinear(Xor(c, m[0]), Xor(d, n[0]), 8);
      Linear(Shift8(Xor(c, m[0])), Shift8(Xor(d, n[0])), m[1..], n[1..]);
    }
  }

  // ---- Division by the generator ----

  function Bits(m: seq<Byte>): (p: Poly)
    ensures |p| == 8 * |m|
  {
    if m == [] then [] else m[0] + Bits(m[1..])
  }

  /** Adds the generator x^8+x^2+x+1, aligned with the highest coefficient. */
  function AddG(p: Poly): (r: Poly)
    requires |p| >= 9
    ensures |r| == |p|
  {
    seq(|p|, i requires 0 <= i < |p| => if i == 0 || 6 <= i <= 8 then !p[i] else p[i])
  }

  /** The product of `q` and the generator. */
  function MulG(q: Poly): (p: Poly)
    ensures |p| == |q| + 8
  {
    if q == [] then ZERO
    else var rest := [false] + MulG(q[1..]); if q[0] then AddG(rest) else rest
  }

  /** Adds a polynomial of degree below 8. */
  function AddLow(p: Poly, r: Byte): (s: Poly)
    requires |p| >= 8
    ensures |s| == |p|
  {
    seq(|p|, i requires 0 <= i < |p| => if i < |p| - 8 then p[i] else p[i] != r[i - (|p| - 8)])
  }

  /** The register takes one coefficient in from below, reducing by the generator. */
  function Feed(s: Byte, bit: bool): Byte {
    Shift1(s)[7 := Shift1(s)[7] != bit]
  }

  function FeedBits(s: Byte, p: Poly): Byte
    decreases |p|
  {
    if p == [] then s else FeedBits(Feed(s, p[0]), p[1..])
  }

  lemma {:induction false} FeedAppend(s: Byte, p: Poly, q: Poly)
    ensures FeedBits(s, p + q) == FeedBits(FeedBits(s, p), q)
    decreases |p|
  {
    hide Feed;
    if p == [] {
      assert p + q == q;
    } else {
      assert (p + q)[1..] == p[1..] + q;
      FeedAppend(Feed(s, p[0]), p[1..], q);
    }
  }

  /** Dividing one more coefficient: the highest one decides whether the generator is added. */
  lemma DivideStep(s: Byte, b: Poly)
    requires b != []
    ensures var p, rest := s + b, [false] + (Feed(s, b[0]) + b[1..]);
            |rest| == |p| >= 9 && p == if s[0] then AddG(rest) else rest
  {
    var p, rest := s + b, [false] + (Feed(s, b[0]) + b[1..]);
    var r := if s[0] then AddG(rest) else rest;
    forall i | 0 <= i < |p| ensures p[i] == r[i] {
    }
  }

  lemma AddGTwice(p: Poly)
    requires |p| >= 9
    ensures AddG(AddG(p)) == p
  {
  }

  lemma AddsCommute(p: Poly, r: Byte)
    requires |p| >= 9
    ensures AddLow(AddG(p), r) == AddG(AddLow(p, r))
  {
  }

  lemma AddLowBelow(p: Poly, r: Byte)
    requires |p| >= 8
    ensures AddLow([false] + p, r) == [false] + AddLow(p, r)
  {
  }

  /** `q` divides what the register and the coefficients to come spell, up to remainder `r`. */
  predicate Divides(s: Byte, b: Poly, q: Poly, r: Byte) {
    |q| == |b| && s + b == AddLow(MulG(q), r)
  }

  lemma NothingToDivide(s: Byte, q: Poly, r: Byte)
    ensures Divides(s, [], q, r) <==> q == [] && s == r
  {
    var none: Poly := [];
    assert s + none == s && AddLow(MulG(none), r) == r;
  }

  /** What the register is left with is the remainder, the only one there is. */
  lemma {:induction false} RemainderExactly(s: Byte, b: Poly, r: Byte)
    ensures FeedBits(s, b) == r <==> exists q :: Divides(s, b, q, r)
    decreases |b|
  {
    hide Divides, Feed;
    if b == [] {
      NothingToDivide(s, [], r);
      forall q ensures Divides(s, [], q, r) ==> s == r { NothingToDivide(s, q, r); }
    } else {
      RemainderExactly(Feed(s, b[0]), b[1..], r);
      if q' :| Divides(Feed(s, b[0]), b[1..], q', r) {
        QuotientGrows(s, b, r, q');
      }
      if q :| Divides(s, b, q, r) {
        QuotientShrinks(s, b, r, q);
      }
    }
  }

  lemma QuotientGrows(s: Byte, b: Poly, r: Byte, q': Poly)
    requires b != [] && Divides(Feed(s, b[0]), b[1..], q', r)
    ensures Divides(s, b, [s[0]] + q', r)
  {
    hide Feed;
    var q, rest := [s[0]] + q', [false] + MulG(q');
    assert q[1..] == q';
    DivideStep(s, b);
    AddLowBelow(MulG(q'), r);
    AddsCommute(rest, r);
  }

  lemma QuotientShrinks(s: Byte, b: Poly, r: Byte, q: Poly)
    requires b != [] && Divides(s, b, q, r)
    ensures q != [] && Divides(Feed(s, b[0]), b[1..], q[1..], r)
  {
    hide Feed;
    var rest := [false] + MulG(q[1..]);
    DivideStep(s, b);
    AddLowBelow(MulG(q[1..]), r);
    AddsCommute(rest, r);
    assert (s + b)[0] == s[0] && AddLow(MulG(q), r)[0] == MulG(q)[0] == q[0];
    var left, right := [false] + (Feed(s, b[0]) + b[1..]), [false] + AddLow(MulG(q[1..]), r);
    if s[0] {
      AddGTwice(left);
      AddGTwice(right);
    }
    assert left == right;
    assert left[1..] == right[1..];
  }

  // ---- The checksum is the remainder ----

  /** The first `n` bits of a byte at the bottom of a register. */
  function Low(b: Byte, n: nat): (r: Byte)
    requires n <= 8
  {
    Zeros(8 - n) + b[..n]
  }

  /** Feeding the first `n` coefficients of a byte shifts the register `n` times and leaves them in it. */
  lemma {:induction false} FeedPrefix(s: Byte, b: Byte, n: nat)
    requires n <= 8
    ensures FeedBits(s, b[..n]) == Xor(Shift(s, n), Low(b, n))
  {
    if n == 0 {
      assert Xor(s, Low(b, 0)) == s;
    } else {
      FeedPrefix(s, b, n - 1);
      assert b[..n] == b[..n - 1] + [b[n - 1]];
      FeedAppend(s, b[..n - 1], [b[n - 1]]);
      var t := FeedBits(s, b[..n - 1]);
      assert [b[n - 1]][1..] == [];
      assert FeedBits(t, [b[n - 1]]) == Feed(t, b[n - 1]);
      FeedShifted(Shift(s, n - 1), b, n);
      ShiftLast(s, n);
    }
  }

  lemma FeedShifted(s: Byte, b: Byte, n: nat)
    requires 0 < n <= 8
    ensures Feed(Xor(s, Low(b, n - 1)), b[n - 1]) == Xor(Shift1(s), Low(b, n))
  {
    Shift1Linear(s, Low(b, n - 1));
    assert Shift1(Low(b, n - 1)) == Low(b, n - 1)[1..] + [false];
    var l, r := Feed(Xor(s, Low(b, n - 1)), b[n - 1]), Xor(Shift1(s), Low(b, n));
    forall i | 0 <= i < 8 ensures l[i] == r[i] {
    }
  }

  lemma {:induction false} ShiftLast(s: Byte, n: nat)
    requires n > 0
    ensures Shift(s, n) == Shift1(Shift(s, n - 1))
    decreases n
  {
    hide Shift1;
    if n > 1 { ShiftLast(Shift1(s), n - 1); }
  }

  lemma FeedByte(s: Byte, b: Byte)
    ensures FeedBits(s, b) == Xor(Shift8(s), b)
  {
    FeedPrefix(s, b, 8);
    assert b[..8] == b && Low(b, 8) == b;
  }

  /** Feeding a string and then eight zeros is the checksum from the shifted register. */
  lemma {:induction false} FeedString(s: Byte, m: seq<Byte>)
    ensures FeedBits(s, Bits(m) + ZERO) == Crc(Shift8(s), m)
    decreases |m|
  {
    hide Shift8, Feed;
    if m == [] {
      FeedByte(s, ZERO);
      assert Bits(m) + ZERO == ZERO && Xor(Shift8(s), ZERO) == Shift8(s);
    } else {
      assert Bits(m) + ZERO == m[0] + (Bits(m[1..]) + ZERO);
      FeedAppend(s, m[0], Bits(m[1..]) + ZERO);
      FeedByte(s, m[0]);
      FeedString(Xor(Shift8(s), m[0]), m[1..]);
    }
  }

  /** `a` followed by `r` is `q` times the generator. */
  predicate Codeword(a: Poly, r: Byte, q: Poly) {
    |q| == |a| && a + r == MulG(q)
  }

  lemma CodewordDivides(m: seq<Byte>, r: Byte, q: Poly)
    requires m != []
    ensures Divides(m[0], Bits(m[1..]) + ZERO, q, r) <==> Codeword(Bits(m), r, q)
  {
    assert m[0] + (Bits(m[1..]) + ZERO) == Bits(m) + ZERO;
    if |q| == |Bits(m)| {
      LowMoves(Bits(m), MulG(q), r);
    }
  }

  lemma EmptyCodeword(r: Byte, q: Poly)
    ensures Codeword([], r, q) <==> q == [] && r == ZERO
  {
    var none: Poly := [];
    assert none + r == r;
  }

  /** The checksum of a byte string is the one byte that, appended, makes the string a multiple of the generator. */
  lemma ChecksumExactly(m: seq<Byte>, r: Byte)
    ensures Crc(ZERO, m) == r <==> exists q :: Codeword(Bits(m), r, q)
  {
    hide Shift8, Feed, FeedBits, Codeword, Divides;
    if m == [] {
      assert Bits(m) == [];
      EmptyCodeword(r, []);
      if q :| Codeword(Bits(m), r, q) { EmptyCodeword(r, q); }
    } else {
      FeedString(m[0], m[1..]);
      assert Xor(ZERO, m[0]) == m[0];
      RemainderExactly(m[0], Bits(m[1..]) + ZERO, r);
      assert Crc(ZERO, m) == FeedBits(m[0], Bits(m[1..]) + ZERO);
      if q :| Divides(m[0], Bits(m[1..]) + ZERO, q, r) {
        CodewordDivides(m, r, q);
      }
      if q :| Codeword(Bits(m), r, q) {
        CodewordDivides(m, r, q);
      }
    }
  }

  lemma LowMoves(a: Poly, p: Poly, r: Byte)
    requires |p| == |a| + 8
    ensures a + ZERO == AddLow(p, r) <==> a + r == p
  {
    if a + ZERO == AddLow(p, r) {
      forall i | 0 <= i < |p| ensures (a + r)[i] == p[i] {
        assert (a + ZERO)[i] == AddLow(p, r)[i];
      }
    }
  }

  // ---- The checksum of a client ----

  function Swap16(v: u16): (r: u16) {
    v / 0x100 + 0x100 * (v % 0x100)
  }

  function Swap32(v: u32): (r: u32) {
    v / 0x100_0000 + 0x100 * (v / 0x1_0000 % 0x100) + 0x1_0000 * (v / 0x100 % 0x100) + 0x100_0000 * (v % 0x100)
  }

  lemma SwapTwice16(v: u16)
    ensures Swap16(Swap16(v)) == v
  {
    var a, b := v / 0x100, v % 0x100;
    assert Swap16(v) / 0x100 == b && Swap16(v) % 0x100 == a;
  }

  /** The bytes of a number put together from bytes. */
  lemma Digits(w: int, a: int, b: int, c: int, d: int)
    requires 0 <= a < 0x100 && 0 <= b < 0x100 && 0 <= c < 0x100 && 0 <= d < 0x100
    requires w == a + 0x100 * b + 0x1_0000 * c + 0x100_0000 * d
    ensures w % 0x100 == a && w / 0x100 % 0x100 == b && w / 0x1_0000 % 0x100 == c && w / 0x100_0000 == d
  {
    var y := c + 0x100 * d;
    var x := b + 0x100 * y;
    assert w == a + 0x100 * x;
    assert w / 0x100 == x;
    assert w / 0x1_0000 == y by { assert w == (a + 0x100 * b) + 0x1_0000 * y; }
    assert w / 0x100_0000 == d by { assert w == (a + 0x100 * b + 0x1_0000 * c) + 0x100_0000 * d; }
  }

  lemma SwapBytes(v: u32)
    ensures var w := Swap32(v);
            && w % 0x100 == v / 0x100_0000 && w / 0x100 % 0x100 == v / 0x1_0000 % 0x100
            && w / 0x1_0000 % 0x100 == v / 0x100 % 0x100 && w / 0x100_0000 == v % 0x100
  {
    Digits(Swap32(v), v / 0x100_0000, v / 0x1_0000 % 0x100, v / 0x100 % 0x100, v % 0x100);
  }

  lemma Recompose(v: u32)
    ensures v == 0x100_0000 * (v / 0x100_0000) + 0x1_0000 * (v / 0x1_0000 % 0x100)
                 + 0x100 * (v / 0x100 % 0x100) + v % 0x100
  {
    assert v / 0x1_0000 == (v / 0x100) / 0x100 && v / 0x100_0000 == (v / 0x1_0000) / 0x100;
  }

  lemma SwapTwice32(v: u32)
    ensures Swap32(Swap32(v)) == v
  {
    SwapBytes(v);
    SwapBytes(Swap32(v));
    Recompose(v);
    Recompose(Swap32(Swap32(v)));
  }

  /** Address and port as they are on the wire. */
  function WireBytes(e: Endpoint): seq<Byte> {
    [ByteOf(e.ip / 0x100_0000), ByteOf(e.ip / 0x1_0000 % 0x100), ByteOf(e.ip / 0x100 % 0x100), ByteOf(e.ip % 0x100),
     ByteOf(e.port / 0x100), ByteOf(e.port % 0x100)]
  }

  /** ... which they spell, highest byte first. */
  lemma WireBytesSpell(e: Endpoint)
    ensures var b := WireBytes(e);
            && |b| == 6
            && e.ip == 0x100_0000 * Value(b[0]) + 0x1_0000 * Value(b[1]) + 0x100 * Value(b[2]) + Value(b[3])
            && e.port == 0x100 * Value(b[4]) + Value(b[5])
  {
    hide ByteOf, Value;
    Recompose(e.ip);
    ByteSpells(e.ip / 0x100_0000);
    ByteSpells(e.ip / 0x1_0000 % 0x100);
    ByteSpells(e.ip / 0x100 % 0x100);
    ByteSpells(e.ip % 0x100);
    ByteSpells(e.port / 0x100);
    ByteSpells(e.port % 0x100);
  }

  lemma ByteSpells(v: u8)
    ensures Value(ByteOf(v)) == v
  {
    assert Pow2(8) == 256;
    ValueOfToBits(v, 8);
  }

  lemma {:induction false} ValueOfToBits(v: nat, n: nat)
    requires v < Pow2(n)
    ensures Value(ToBits(v, n)) == v
  {
    if n > 0 {
      ValueOfToBits(v / 2, n - 1);
      assert ToBits(v, n)[..n - 1] == ToBits(v / 2, n - 1);
    }
  }

  function CrcOf(e: Endpoint): (c: u8) {
    Index(Crc(ZERO, WireBytes(e)))
  }

  /** A client's checksum is the remainder of the six bytes of its address and port. */
  lemma ClientChecksumExactly(e: Endpoint, r: Byte)
    ensures CrcOf(e) == Index(r) <==> exists q :: Codeword(Bits(WireBytes(e)), r, q)
  {
    hide Crc, WireBytes, Codeword, Bits, ByteOf, Index;
    ChecksumExactly(WireBytes(e), r);
    ByteOfIndex(Crc(ZERO, WireBytes(e)));
    ByteOfIndex(r);
  }

  lemma SwappedBytes(ip: u32, port: u16)
    ensures WireBytes(Endpoint(Swap32(ip), Swap16(port)))
         == [ByteOf(ip % 0x100), ByteOf(ip / 0x100 % 0x100), ByteOf(ip / 0x1_0000 % 0x100), ByteOf(ip / 0x100_0000),
             ByteOf(port % 0x100), ByteOf(port / 0x100)]
  {
    hide ByteOf;
    SwapBytes(ip);
    assert Swap16(port) / 0x100 == port % 0x100 && Swap16(port) % 0x100 == port / 0x100;
  }

  lemma OneStep(t: seq<Byte>, c: Byte, m: seq<Byte>, i: nat)
    requires |t| == 256 && i < |m|
    ensures TableCrc(t, c, m[i..]) == TableCrc(t, t[Index(Xor(c, m[i]))], m[i + 1..])
  {
    hide Index, Xor;
    assert m[i..][1..] == m[i + 1..];
  }

  /** The front-end's checksum of the fields of a packet, which it holds byte-swapped. */
  method CalculateCrc8(table: array<Byte>, ip: u32, port: u16) returns (c: u8)
    requires IsTable(table[..])
    ensures c == CrcOf(Endpoint(Swap32(ip), Swap16(port)))
  {
    hide Index, Xor, ByteOf, Crc, WireBytes, Shift8;
    ghost var t, m := table[..], WireBytes(Endpoint(Swap32(ip), Swap16(port)));
    SwappedBytes(ip, port);
    TableDriven(t, ZERO, m);
    assert m[0..] == m && m[6..] == [];
    var crc := ZERO;
    OneStep(t, crc, m, 0);
    crc := table[Index(Xor(crc, ByteOf(ip % 0x100)))];
    OneStep(t, crc, m, 1);
    crc := table[Index(Xor(crc, ByteOf(ip / 0x100 % 0x100)))];
    OneStep(t, crc, m, 2);
    crc := table[Index(Xor(crc, ByteOf(ip / 0x1_0000 % 0x100)))];
    OneStep(t, crc, m, 3);
    crc := table[Index(Xor(crc, ByteOf(ip / 0x100_0000)))];
    OneStep(t, crc, m, 4);
    crc := table[Index(Xor(crc, ByteOf(port % 0x100)))];
    OneStep(t, crc, m, 5);
    crc := table[Index(Xor(crc, ByteOf(port / 0x100)))];
    return Index(crc);
  }
}
