/** Offload messages as a stream of bytes: what is sent in pieces is received as one, and every message has
    bytes that hold it. */
module OffloadStream {
  import opened Words
  import opened Publication
  import opened FrontEnd
  import opened OffloadWire

  // ---- Bytes that hold a message, elsewhere ----

  lemma SliceOfSlice(b: seq<u8>, i: nat, n: nat, at: nat, m: nat)
    requires i + n <= |b| && at + m <= n
    ensures b[i + at..i + at + m] == b[i..i + n][at..at + m]
  {
    var x, y := b[i + at..i + at + m], b[i..i + n][at..at + m];
    forall k | 0 <= k < m ensures x[k] == y[k] {
      assert y[k] == b[i..i + n][at + k] == b[i + (at + k)];
    }
  }

  lemma KeyMoves(s: seq<u8>, i: nat, b: seq<u8>, j: nat)
    requires i + KEY_SIZE <= |s| && j + KEY_SIZE <= |b| && b[j..j + KEY_SIZE] == s[i..i + KEY_SIZE]
    ensures KeyAt(b, j) == KeyAt(s, i)
  {
    var x, y := b[j..j + KEY_SIZE], s[i..i + KEY_SIZE];
    assert x[0] == b[j] && x[4] == b[j + 4] && x[5] == b[j + 5] && x[6] == b[j + 6] && x[7] == b[j + 7];
    assert x[8] == b[j + 8] && x[9] == b[j + 9];
    assert y[0] == s[i] && y[4] == s[i + 4] && y[5] == s[i + 5] && y[6] == s[i + 6] && y[7] == s[i + 7];
    assert y[8] == s[i + 8] && y[9] == s[i + 9];
  }

  lemma PairMoves(s: seq<u8>, i: nat, b: seq<u8>, j: nat)
    requires i + PAIR_SIZE <= |s| && j + PAIR_SIZE <= |b| && b[j..j + PAIR_SIZE] == s[i..i + PAIR_SIZE]
    ensures PairAt(b, j) == PairAt(s, i)
  {
    hide KeyAt;
    SliceMoves(s, i, b, j, PAIR_SIZE, 0, KEY_SIZE);
    KeyMoves(s, i, b, j);
    var x, y := b[j..j + PAIR_SIZE], s[i..i + PAIR_SIZE];
    assert x[12] == b[j + 12] && x[13] == b[j + 13] && y[12] == s[i + 12] && y[13] == s[i + 13];
  }

  lemma SliceMoves(s: seq<u8>, i: nat, b: seq<u8>, j: nat, n: nat, at: nat, m: nat)
    requires i + n <= |s| && j + n <= |b| && b[j..j + n] == s[i..i + n] && at + m <= n
    ensures b[j + at..j + at + m] == s[i + at..i + at + m]
  {
    SliceOfSlice(b, j, n, at, m);
    SliceOfSlice(s, i, n, at, m);
  }

  /** A message sent from one buffer is held where its bytes arrive in another. */
  lemma HoldsMoves(s: seq<u8>, i: nat, b: seq<u8>, j: nat, m: WireMsg)
    requires Holds(s, i, m) && j + MsgSize(m) <= |b| && b[j..j + MsgSize(m)] == s[i..i + MsgSize(m)]
    ensures Holds(b, j, m)
  {
    hide PairAt, KeyAt;
    var n := MsgSize(m);
    var x, y := b[j..j + n], s[i..i + n];
    assert x[0] == b[j] && x[1] == b[j + 1] && x[2] == b[j + 2] && y[0] == s[i] && y[1] == s[i + 1] && y[2] == s[i + 2];
    forall k | 0 <= k < |m.adds| ensures PairAt(b, j + 3 + PAIR_SIZE * k) == m.adds[k] {
      SliceMoves(s, i, b, j, n, 3 + PAIR_SIZE * k, PAIR_SIZE);
      PairMoves(s, i + 3 + PAIR_SIZE * k, b, j + 3 + PAIR_SIZE * k);
    }
    var d := 3 + PAIR_SIZE * |m.adds|;
    forall k | 0 <= k < |m.dels| ensures KeyAt(b, j + d + KEY_SIZE * k) == m.dels[k] {
      SliceMoves(s, i, b, j, n, d + KEY_SIZE * k, KEY_SIZE);
      KeyMoves(s, i + d + KEY_SIZE * k, b, j + d + KEY_SIZE * k);
    }
  }

  // ---- The stream of what was sent ----

  function Concat(bs: seq<seq<u8>>): seq<u8> {
    if bs == [] then [] else bs[0] + Concat(bs[1..])
  }

  /** Each piece is the encoding of one message, as a tick sends it. */
  predicate Encodes(bs: seq<seq<u8>>, ms: seq<WireMsg>) {
    |bs| == |ms| && forall i | 0 <= i < |bs| :: |bs[i]| == MsgSize(ms[i]) && Holds(bs[i], 0, ms[i])
  }

  lemma EncodesRest(bs: seq<seq<u8>>, ms: seq<WireMsg>)
    requires Encodes(bs, ms) && bs != []
    ensures ms != []
    ensures |bs[0]| == MsgSize(ms[0]) && Holds(bs[0], 0, ms[0]) && Encodes(bs[1..], ms[1..])
  {
    hide Holds, MsgSize;
    assert forall i | 0 <= i < |bs[1..]| :: bs[1..][i] == bs[i + 1] && ms[1..][i] == ms[i + 1];
  }

  /** The concatenation of encoded batches holds the batches, wherever it starts. */
  lemma {:induction false} StreamHeld(pre: seq<u8>, bs: seq<seq<u8>>, ms: seq<WireMsg>, rest: seq<u8>)
    requires Encodes(bs, ms)
    ensures HoldsAll(pre + Concat(bs) + rest, |pre|, ms) && |Concat(bs)| == TotalSize(ms)
    decreases |bs|
  {
    hide Holds, MsgSize, Encodes;
    if bs == [] {
      NoPieces(bs, ms);
    } else {
      EncodesRest(bs, ms);
      StreamHeld(pre + bs[0], bs[1..], ms[1..], rest);
      var b := pre + Concat(bs) + rest;
      assert b == (pre + bs[0]) + Concat(bs[1..]) + rest;
      assert b[|pre|..|pre| + |bs[0]|] == bs[0] == bs[0][0..0 + |bs[0]|];
      HoldsMoves(bs[0], 0, b, |pre|, ms[0]);
    }
  }

  lemma NoPieces(bs: seq<seq<u8>>, ms: seq<WireMsg>)
    requires Encodes(bs, ms) && bs == []
    ensures ms == []
  {
  }

  /** What was sent in any number of batches and received together is decoded as sent exactly when the buffer
      goes on after it with a byte other than 3. */
  lemma StreamRoundTripExactly(bs: seq<seq<u8>>, ms: seq<WireMsg>, rest: seq<u8>)
    requires Encodes(bs, ms)
    ensures Decode(Concat(bs) + rest, 0, |Concat(bs)|) == Decoded(ms) <==> rest != [] && rest[0] != OFFLOAD_ENTRIES
  {
    hide Encodes, HoldsAll, Decode, Concat, TotalSize;
    StreamHeld([], bs, ms, rest);
    var b := Concat(bs) + rest;
    assert [] + Concat(bs) + rest == b;
    RoundTripExactly(b, 0, ms);
    if rest != [] { assert b[|Concat(bs)|] == rest[0]; }
  }

  /** The bytes of a message at the front of a buffer are its encoding. */
  lemma SentPiece(b: seq<u8>, m: WireMsg)
    requires Holds(b, 0, m)
    ensures MsgSize(m) <= |b| && Encodes([b[..MsgSize(m)]], [m])
  {
    var x := b[..MsgSize(m)];
    assert x[0..0 + MsgSize(m)] == b[0..0 + MsgSize(m)];
    HoldsMoves(b, 0, x, 0, m);
  }

  // ---- Every message has bytes ----

  function Image16(v: u16): (b: seq<u8>)
    ensures |b| == 2
  {
    [v % 0x100, v / 0x100]
  }

  function Image32(v: u32): (b: seq<u8>)
    ensures |b| == 4
  {
    Image16(v % 0x1_0000) + Image16(v / 0x1_0000)
  }

  lemma Image32Read(v: u32, b: seq<u8>, i: nat)
    requires i + 4 <= |b| && b[i..i + 4] == Image32(v)
    ensures Le32(b, i) == v
  {
    var x := b[i..i + 4];
    assert x[0] == b[i] && x[1] == b[i + 1] && x[2] == b[i + 2] && x[3] == b[i + 3];
    assert b[i] as int + 0x100 * b[i + 1] as int == v % 0x1_0000;
    assert b[i + 2] as int + 0x100 * b[i + 3] as int == v / 0x1_0000;
  }

  lemma Image16Read(v: u16, b: seq<u8>, i: nat)
    requires i + 2 <= |b| && b[i..i + 2] == Image16(v)
    ensures Le16(b, i) == v
  {
    var x := b[i..i + 2];
    assert x[0] == b[i] && x[1] == b[i + 1];
  }

  function KeyImage(k: WireKey): (b: seq<u8>)
    ensures |b| == KEY_SIZE
  {
    [k.crc, 0, 0, 0] + Image32(k.ip) + Image16(k.port) + [0, 0]
  }

  lemma KeyImageRead(k: WireKey, b: seq<u8>, i: nat)
    requires i + KEY_SIZE <= |b| && b[i..i + KEY_SIZE] == KeyImage(k)
    ensures KeyAt(b, i) == k
  {
    hide Image32, Image16;
    var x := KeyImage(k);
    assert b[i + 0] == b[i..i + KEY_SIZE][0] == k.crc;
    SliceOfSlice(b, i, KEY_SIZE, 4, 4);
    SliceOfSlice(b, i, KEY_SIZE, 8, 2);
    assert x[4..8] == Image32(k.ip) && x[8..10] == Image16(k.port);
    Image32Read(k.ip, b, i + 4);
    Image16Read(k.port, b, i + 8);
  }

  function PairImage(p: WirePair): (b: seq<u8>)
    ensures |b| == PAIR_SIZE
  {
    KeyImage(p.key) + [p.data.offloadFlag, p.data.dIndex, 0, 0]
  }

  lemma PairImageRead(p: WirePair, b: seq<u8>, i: nat)
    requires i + PAIR_SIZE <= |b| && b[i..i + PAIR_SIZE] == PairImage(p)
    ensures PairAt(b, i) == p
  {
    hide KeyImage, KeyAt;
    var x := PairImage(p);
    assert b[i..i + KEY_SIZE] == b[i..i + PAIR_SIZE][..KEY_SIZE] == KeyImage(p.key);
    assert b[i + 12] == b[i..i + PAIR_SIZE][12] == x[12] && b[i + 13] == b[i..i + PAIR_SIZE][13] == x[13];
    KeyImageRead(p.key, b, i);
  }

  function PairImages(ps: seq<WirePair>): (b: seq<u8>)
    ensures |b| == PAIR_SIZE * |ps|
  {
    if ps == [] then [] else PairImages(ps[..|ps| - 1]) + PairImage(ps[|ps| - 1])
  }

  function KeyImages(ks: seq<WireKey>): (b: seq<u8>)
    ensures |b| == KEY_SIZE * |ks|
  {
    if ks == [] then [] else KeyImages(ks[..|ks| - 1]) + KeyImage(ks[|ks| - 1])
  }

  lemma {:induction false} PairImageAt(ps: seq<WirePair>, k: nat)
    requires k < |ps|
    ensures PairImages(ps)[PAIR_SIZE * k..PAIR_SIZE * k + PAIR_SIZE] == PairImage(ps[k])
    decreases |ps|
  {
    hide PairImage;
    var init := ps[..|ps| - 1];
    if k < |init| {
      PairImageAt(init, k);
      assert PairImages(ps)[PAIR_SIZE * k..PAIR_SIZE * k + PAIR_SIZE]
          == PairImages(init)[PAIR_SIZE * k..PAIR_SIZE * k + PAIR_SIZE];
    }
  }

  lemma {:induction false} KeyImageAt(ks: seq<WireKey>, k: nat)
    requires k < |ks|
    ensures KeyImages(ks)[KEY_SIZE * k..KEY_SIZE * k + KEY_SIZE] == KeyImage(ks[k])
    decreases |ks|
  {
    hide KeyImage;
    var init := ks[..|ks| - 1];
    if k < |init| {
      KeyImageAt(init, k);
      assert KeyImages(ks)[KEY_SIZE * k..KEY_SIZE * k + KEY_SIZE]
          == KeyImages(init)[KEY_SIZE * k..KEY_SIZE * k + KEY_SIZE];
    }
  }

  /** A message whose counts fit a byte, with zeros for padding. */
  function Image(m: WireMsg): (b: seq<u8>)
    requires |m.adds| < 0x100 && |m.dels| < 0x100
    ensures |b| == MsgSize(m)
  {
    var header: seq<u8> := [OFFLOAD_ENTRIES, |m.adds|, |m.dels|];
    header + PairImages(m.adds) + KeyImages(m.dels)
  }

  lemma ImageHolds(m: WireMsg)
    requires |m.adds| < 0x100 && |m.dels| < 0x100
    ensures Holds(Image(m), 0, m)
  {
    hide PairImages, KeyImages, PairAt, KeyAt, PairImage, KeyImage;
    var b := Image(m);
    var header: seq<u8> := [OFFLOAD_ENTRIES, |m.adds|, |m.dels|];
    var pairs, keys := PairImages(m.adds), KeyImages(m.dels);
    var d := 3 + PAIR_SIZE * |m.adds|;
    assert b == header + pairs + keys && b[0] == OFFLOAD_ENTRIES && b[1] == |m.adds| && b[2] == |m.dels|;
    assert b[3..d] == pairs && b[d..d + KEY_SIZE * |m.dels|] == keys;
    forall k | 0 <= k < |m.adds| ensures PairAt(b, 0 + 3 + PAIR_SIZE * k) == m.adds[k] {
      PairImageAt(m.adds, k);
      assert b[3 + PAIR_SIZE * k..3 + PAIR_SIZE * k + PAIR_SIZE] == b[3..d][PAIR_SIZE * k..PAIR_SIZE * k + PAIR_SIZE];
      PairImageRead(m.adds[k], b, 3 + PAIR_SIZE * k);
    }
    forall k | 0 <= k < |m.dels| ensures KeyAt(b, d + KEY_SIZE * k) == m.dels[k] {
      KeyImageAt(m.dels, k);
      assert b[d + KEY_SIZE * k..d + KEY_SIZE * k + KEY_SIZE]
          == b[d..d + KEY_SIZE * |m.dels|][KEY_SIZE * k..KEY_SIZE * k + KEY_SIZE];
      KeyImageRead(m.dels[k], b, d + KEY_SIZE * k);
    }
  }

  predicate Countable(ms: seq<WireMsg>) {
    forall i | 0 <= i < |ms| :: |ms[i].adds| < 0x100 && |ms[i].dels| < 0x100
  }

  function Images(ms: seq<WireMsg>): (bs: seq<seq<u8>>)
    requires Countable(ms)
    ensures |bs| == |ms|
  {
    seq(|ms|, i requires 0 <= i < |ms| => Image(ms[i]))
  }

  lemma ImagesEncode(ms: seq<WireMsg>)
    requires Countable(ms)
    ensures Encodes(Images(ms), ms)
  {
    hide Image, Holds;
    forall i | 0 <= i < |ms| ensures Holds(Images(ms)[i], 0, ms[i]) { ImageHolds(ms[i]); }
  }

  /** Any messages fit a large enough buffer: received into it, they are decoded as they are. */
  function Buffer(ms: seq<WireMsg>, size: nat): (b: seq<u8>)
    requires Countable(ms) && |Concat(Images(ms))| <= size
    ensures |b| == size
  {
    Concat(Images(ms)) + seq(size - |Concat(Images(ms))|, _ => 0)
  }

  lemma BufferHolds(ms: seq<WireMsg>, size: nat)
    requires Countable(ms) && TotalSize(ms) < size
    ensures |Concat(Images(ms))| == TotalSize(ms)
    ensures var b := Buffer(ms, size);
            HoldsAll(b, 0, ms) && b[TotalSize(ms)] != OFFLOAD_ENTRIES && Decode(b, 0, TotalSize(ms)) == Decoded(ms)
  {
    hide Images, HoldsAll, TotalSize, Decode;
    ImagesEncode(ms);
    var stream := Concat(Images(ms));
    StreamHeld([], Images(ms), ms, []);
    var zeros: seq<u8> := seq(size - |stream|, _ => 0);
    StreamHeld([], Images(ms), ms, zeros);
    assert [] + stream + zeros == stream + zeros;
    StreamRoundTripExactly(Images(ms), ms, zeros);
  }

  // ---- Table handles ----

  /** One receive: the buffer as it then is, and how many bytes of it are new. */
  datatype Receipt = Receipt(buf: seq<u8>, size: nat)

  /** What one epoll round receives; whatever the bytes, whole messages or cut, new or left behind. */
  predicate Round(rs: seq<Receipt>) {
    forall i | 0 <= i < |rs| ::
      |rs[i].buf| == RECV_SIZE && rs[i].size <= RECV_SIZE && Decode(rs[i].buf, 0, rs[i].size).Decoded?
  }

  function RoundEntries(rs: seq<Receipt>): nat
    requires Round(rs)
  {
    if rs == [] then 0
    else
      assert forall i | 0 <= i < |rs[1..]| :: rs[1..][i] == rs[i + 1];
      Entries(Decode(rs[0].buf, 0, rs[0].size).msgs) + RoundEntries(rs[1..])
  }

  lemma {:induction false} RoundBound(rs: seq<Receipt>)
    requires Round(rs)
    ensures RoundEntries(rs) <= 85 * |rs|
  {
    hide Decode;
    if rs != [] {
      DecodedBound(rs[0].buf, 0, rs[0].size);
      assert forall i | 0 <= i < |rs[1..]| :: rs[1..][i] == rs[i + 1];
      RoundBound(rs[1..]);
    }
  }

  function Removals(n: nat): (m: WireMsg)
    ensures |m.adds| == 0 && |m.dels| == n && MsgSize(m) == 3 + KEY_SIZE * n
  {
    WireMsg([], seq(n, _ => WireKey(0, 0, 0)))
  }

  /** Two full batches of removals and a small one fit one receive. */
  function FullReceive(): (ms: seq<WireMsg>)
    ensures TotalSize(ms) < RECV_SIZE && Entries(ms) == 84
    ensures forall i | 0 <= i < |ms| :: |ms[i].adds| <= BATCH && |ms[i].dels| <= BATCH
  {
    var full, small := Removals(BATCH), Removals(4);
    var ms := [full] + [full] + [small];
    assert TotalSize([small]) == MsgSize(small) && Entries([small]) == 4 by { assert [small][1..] == []; }
    var rest := [full] + [small];
    assert TotalSize(rest) == MsgSize(full) + MsgSize(small) && Entries(rest) == BATCH + 4 by {
      assert rest[1..] == [small];
    }
    assert ms[1..] == rest;
    ms
  }

  lemma {:induction false} FullRound(k: nat) returns (rs: seq<Receipt>)
    ensures |rs| == k && Round(rs) && RoundEntries(rs) == 84 * k
  {
    hide Decode, Buffer, TotalSize, FullReceive, Entries;
    if k == 0 {
      rs := [];
    } else {
      var ms := FullReceive();
      BufferHolds(ms, RECV_SIZE);
      var r := Receipt(Buffer(ms, RECV_SIZE), TotalSize(ms));
      var rest := FullRound(k - 1);
      rs := [r] + rest;
      assert rs[1..] == rest && forall i | 0 < i < |rs| :: rs[i] == rest[i - 1];
    }
  }

  /** The handles allocated suffice for every round of `k` receives exactly when `k` is at most three;
      of four receives, batches of the front-end's size can use too many. */
  lemma HandlesSufficeExactly(k: nat)
    ensures (forall rs | |rs| == k && Round(rs) :: RoundEntries(rs) <= HANDLES) <==> k <= 3
  {
    hide Round, RoundEntries;
    if k <= 3 {
      forall rs | |rs| == k && Round(rs) ensures RoundEntries(rs) <= HANDLES { RoundBound(rs); }
    } else {
      var rs := FullRound(k);
      assert RoundEntries(rs) > HANDLES;
    }
  }
}
