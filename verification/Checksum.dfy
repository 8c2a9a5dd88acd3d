/** The one's-complement checksum of a TCP segment and its incremental update (section 3 of RFC 1624). */
module Checksum {
  import opened Words

  const ONES: int := 0xFFFF

  /** Equal one's-complement sums. */
  predicate Cong(a: int, b: int) {
    (a - b) % ONES == 0
  }

  lemma CongAdd(a: int, b: int, c: int, d: int)
    requires Cong(a, b) && Cong(c, d)
    ensures Cong(a + c, b + d)
  {
  }

  lemma CongTrans(a: int, b: int, c: int)
    requires Cong(a, b) && Cong(b, c)
    ensures Cong(a, c)
  {
  }

  lemma CongDiff(a: int, b: int, c: int, d: int)
    requires Cong(a, b) && Cong(c, d)
    ensures Cong(a - c, b - d)
  {
  }

  lemma Zero()
    ensures Cong(0, 0)
  {
  }

  lemma CongZeroes(a: int, b: int)
    requires Cong(a, b)
    ensures Cong(a, 0) <==> Cong(b, 0)
  {
    if Cong(a, 0) { Multiple(b, a, -((a - b) / ONES)); }
    if Cong(b, 0) { Multiple(a, b, (a - b) / ONES); }
  }

  lemma Multiple(a: int, b: int, q: int)
    requires a == b + ONES * q && Cong(b, 0)
    ensures Cong(a, 0)
  {
    assert a == ONES * (b / ONES + q);
  }

  lemma OppositeMultiples(a: int, b: int)
    requires (a + b) % 257 == 0
    ensures a % 257 == 0 <==> b % 257 == 0
  {
  }

  /** The weight of a byte at offset `i` in its 16-bit word, in the host's byte order. */
  function Weight(i: int): int {
    if i % 2 == 0 then 1 else 0x100
  }

  /** A value added at offset `at`, as the sum sees it. */
  function Scaled(at: int, v: int): int {
    if at % 2 == 0 then v else 0x100 * v
  }

  /** The sum of the 16-bit words of `f[lo..hi]`; an odd last byte is padded with zero. */
  function Sum(f: seq<u8>, lo: nat, hi: nat): int
    requires lo <= hi <= |f|
    decreases hi - lo
  {
    if lo == hi then 0 else Weight(lo) * f[lo] + Sum(f, lo + 1, hi)
  }

  lemma {:induction false} SumSplit(f: seq<u8>, lo: nat, mid: nat, hi: nat)
    requires lo <= mid <= hi <= |f|
    ensures Sum(f, lo, hi) == Sum(f, lo, mid) + Sum(f, mid, hi)
    decreases mid - lo
  {
    if lo < mid {
      SumSplit(f, lo + 1, mid, hi);
    }
  }

  lemma {:induction false} SumSame(f: seq<u8>, g: seq<u8>, lo: nat, hi: nat)
    requires lo <= hi <= |f| == |g| && forall i | lo <= i < hi :: f[i] == g[i]
    ensures Sum(f, lo, hi) == Sum(g, lo, hi)
    decreases hi - lo
  {
    if lo < hi {
      SumSame(f, g, lo + 1, hi);
    }
  }

  /** A change inside a window changes the sum by the change of the window. */
  lemma SumWindow(f: seq<u8>, g: seq<u8>, lo: nat, a: nat, b: nat, hi: nat)
    requires lo <= a <= b <= hi <= |f| == |g|
    requires forall i | lo <= i < hi && !(a <= i < b) :: f[i] == g[i]
    ensures Sum(g, lo, hi) - Sum(f, lo, hi) == Sum(g, a, b) - Sum(f, a, b)
  {
    SumSplit(f, lo, a, hi);
    SumSplit(f, a, b, hi);
    SumSplit(g, lo, a, hi);
    SumSplit(g, a, b, hi);
    SumSame(f, g, lo, a);
    SumSame(f, g, b, hi);
  }

  /** Four bytes as the host loads them. */
  function Load32(f: seq<u8>, i: nat): (v: u32)
    requires i + 4 <= |f|
  {
    f[i] as int + 0x100 * f[i + 1] as int + 0x1_0000 * f[i + 2] as int + 0x100_0000 * f[i + 3] as int
  }

  function Load16(f: seq<u8>, i: nat): (v: u16)
    requires i + 2 <= |f|
  {
    f[i] as int + 0x100 * f[i + 1] as int
  }

  /** A word at an even offset adds its value to the sum; at an odd offset, 256 times its value. */
  lemma WordSum(f: seq<u8>, at: nat)
    requires at + 4 <= |f|
    ensures Cong(Sum(f, at, at + 4), Scaled(at, Load32(f, at)))
  {
    hide Sum, Cong, Weight;
    WordUnfolds(f, at);
    WordArithmetic(f[at], f[at + 1], f[at + 2], f[at + 3]);
  }

  lemma WordArithmetic(a: int, b: int, c: int, d: int)
    ensures Cong(a + 0x100 * b + c + 0x100 * d, a + 0x100 * b + 0x1_0000 * c + 0x100_0000 * d)
    ensures Cong(0x100 * a + b + 0x100 * c + d, 0x100 * (a + 0x100 * b + 0x1_0000 * c + 0x100_0000 * d))
  {
    hide Cong;
    CongBy(a + 0x100 * b + c + 0x100 * d, a + 0x100 * b + 0x1_0000 * c + 0x100_0000 * d, -(c + 0x100 * d));
    CongBy(0x100 * a + b + 0x100 * c + d, 0x100 * (a + 0x100 * b + 0x1_0000 * c + 0x100_0000 * d),
           -(b + 0x100 * c + 0x1_0001 * d));
  }

  lemma CongBy(a: int, b: int, q: int)
    requires a - b == ONES * q
    ensures Cong(a, b)
  {
  }

  lemma WordUnfolds(f: seq<u8>, at: nat)
    requires at + 4 <= |f|
    ensures at % 2 == 0 ==>
              Sum(f, at, at + 4) == f[at] + 0x100 * f[at + 1] as int + f[at + 2] + 0x100 * f[at + 3] as int
    ensures at % 2 != 0 ==>
              Sum(f, at, at + 4) == 0x100 * f[at] as int + f[at + 1] + 0x100 * f[at + 2] as int + f[at + 3]
  {
    assert Sum(f, at + 3, at + 4) == Weight(at + 3) * f[at + 3];
    assert Sum(f, at + 2, at + 4) == Weight(at + 2) * f[at + 2] + Sum(f, at + 3, at + 4);
    assert Sum(f, at + 1, at + 4) == Weight(at + 1) * f[at + 1] + Sum(f, at + 2, at + 4);
  }

  lemma HalfSum(f: seq<u8>, at: nat)
    requires at + 2 <= |f| && at % 2 == 0
    ensures Sum(f, at, at + 2) == Load16(f, at)
  {
    assert Sum(f, at + 1, at + 2) == Weight(at + 1) * f[at + 1];
  }

  /** Two folds of a 32-bit sum, then the complement, as the agent computes its check field. */
  method CsumFold(csum: u32) returns (check: u16)
    ensures Cong(check, -(csum as int))
  {
    var sum := csum / 0x1_0000 + csum % 0x1_0000;
    sum := sum + sum / 0x1_0000;
    check := (0xFFFF_FFFF - sum) % 0x1_0000;
    assert sum % 0x1_0000 + check == ONES;
    FoldsSuffice(csum);
  }

  /** After two folds the low half carries the whole sum, whatever the accumulator. */
  lemma FoldsSuffice(csum: u32)
    ensures var once := csum / 0x1_0000 + csum % 0x1_0000;
            var twice := once + once / 0x1_0000;
            Cong(twice % 0x1_0000, csum)
  {
    var once := csum / 0x1_0000 + csum % 0x1_0000;
    assert once / 0x1_0000 <= 1;
    assert csum - once == ONES * (csum / 0x1_0000);
    var twice := once + once / 0x1_0000;
    assert twice / 0x1_0000 == once / 0x1_0000;
    assert once - twice % 0x1_0000 == ONES * (once / 0x1_0000);
    CongTrans(twice % 0x1_0000, once, csum);
  }

  /** The kernel's difference of one 32-bit word: the seed plus the new word less the old, as a
      32-bit sum with end-around carry. Callers know it only up to congruence. */
  method CsumDiff(from: u32, to: u32, seed: u32) returns (csum: u32)
    ensures Cong(csum, seed + to - from)
  {
    var sum: int := seed + (0xFFFF_FFFF - from);
    if sum >= TWO_32 { sum := sum - 0xFFFF_FFFF; }
    sum := sum + to;
    if sum >= TWO_32 { sum := sum - 0xFFFF_FFFF; }
    csum := sum;
  }

  /** Reading the words in network order instead only multiplies the sum by 256. */
  function NetSum(f: seq<u8>, lo: nat, hi: nat): int
    requires lo <= hi <= |f|
    decreases hi - lo
  {
    if lo == hi then 0 else Weight(lo + 1) * f[lo] + NetSum(f, lo + 1, hi)
  }

  lemma {:induction false} NetSumScales(f: seq<u8>, lo: nat, hi: nat)
    requires lo <= hi <= |f|
    ensures Cong(NetSum(f, lo, hi), 0x100 * Sum(f, lo, hi))
    decreases hi - lo
  {
    hide Cong;
    if lo == hi {
      Zero();
    } else {
      var x: int := f[lo];
      var rest, net := Sum(f, lo + 1, hi), NetSum(f, lo + 1, hi);
      NetSumScales(f, lo + 1, hi);
      ByteScales(x, lo);
      CongAdd(Weight(lo + 1) * x, 0x100 * (Weight(lo) * x), net, 0x100 * rest);
    }
  }

  lemma ByteScales(x: int, i: nat)
    ensures Cong(Weight(i + 1) * x, 0x100 * (Weight(i) * x))
  {
    hide Cong;
    if i % 2 == 0 {
      CongBy(0x100 * x, 0x100 * x, 0);
    } else {
      CongBy(x, 0x1_0000 * x, -x);
    }
  }

  /** A segment that checks in one byte order checks in the other. */
  lemma ByteOrderIrrelevant(f: seq<u8>, lo: nat, hi: nat)
    requires lo <= hi <= |f|
    ensures Cong(NetSum(f, lo, hi), 0) <==> Cong(Sum(f, lo, hi), 0)
  {
    hide Cong, Sum, NetSum;
    NetSumScales(f, lo, hi);
    CongZeroes(NetSum(f, lo, hi), 0x100 * Sum(f, lo, hi));
    ScaledZero(Sum(f, lo, hi));
  }

  lemma ScaledZero(s: int)
    ensures Cong(0x100 * s, 0) <==> Cong(s, 0)
  {
    if Cong(0x100 * s, 0) {
      var q := 0x100 * s / ONES;
      assert 0x100 * s == ONES * q;
      assert s == ONES * (0x100 * q - s);
    }
    if Cong(s, 0) { Multiple(0x100 * s, 0, 0x100 * (s / ONES)); }
  }
}
