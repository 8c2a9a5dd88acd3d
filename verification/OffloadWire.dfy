/** The bytes of offload messages: 3, two counts, 16-byte pairs, 12-byte keys. Both ends lay the
    structures out alike; padding bytes are never read. */
module OffloadWire {
  import opened Words
  import opened Packets
  import opened FrontEnd
  import opened Publication

  const OFFLOAD_ENTRIES: u8 := 3
  const PAIR_SIZE: nat := 16
  const KEY_SIZE: nat := 12

  datatype WireKey = WireKey(crc: u8, ip: u32, port: u16)
  datatype WirePair = WirePair(key: WireKey, data: Data)
  datatype WireMsg = WireMsg(adds: seq<WirePair>, dels: seq<WireKey>)

  function Le16(b: seq<u8>, i: nat): (v: u16)
    requires i + 2 <= |b|
  {
    b[i] as int + 0x100 * b[i + 1] as int
  }

  function Le32(b: seq<u8>, i: nat): (v: u32)
    requires i + 4 <= |b|
  {
    Le16(b, i) as int + 0x1_0000 * Le16(b, i + 2) as int
  }

  function KeyAt(b: seq<u8>, i: nat): WireKey
    requires i + KEY_SIZE <= |b|
  {
    WireKey(b[i], Le32(b, i + 4), Le16(b, i + 8))
  }

  function PairAt(b: seq<u8>, i: nat): WirePair
    requires i + PAIR_SIZE <= |b|
  {
    WirePair(KeyAt(b, i), Data(b[i + 12], b[i + 13]))
  }

  predicate HoldsPairs(b: seq<u8>, at: nat, ps: seq<WirePair>) {
    at + PAIR_SIZE * |ps| <= |b| && forall j | 0 <= j < |ps| :: PairAt(b, at + PAIR_SIZE * j) == ps[j]
  }

  predicate HoldsKeys(b: seq<u8>, at: nat, ks: seq<WireKey>) {
    at + KEY_SIZE * |ks| <= |b| && forall j | 0 <= j < |ks| :: KeyAt(b, at + KEY_SIZE * j) == ks[j]
  }

  function MsgSize(m: WireMsg): nat {
    3 + PAIR_SIZE * |m.adds| + KEY_SIZE * |m.dels|
  }

  /** The bytes from `at` on are message `m`. */
  predicate Holds(b: seq<u8>, at: nat, m: WireMsg) {
    && at + MsgSize(m) <= |b|
    && b[at] == OFFLOAD_ENTRIES && b[at + 1] == |m.adds| && b[at + 2] == |m.dels|
    && HoldsPairs(b, at + 3, m.adds)
    && HoldsKeys(b, at + 3 + PAIR_SIZE * |m.adds|, m.dels)
  }

  /** The bytes from `at` on are the messages `ms`, one after the other. */
  predicate HoldsAll(b: seq<u8>, at: nat, ms: seq<WireMsg>)
    decreases |ms|
  {
    ms == [] || (Holds(b, at, ms[0]) && HoldsAll(b, at + MsgSize(ms[0]), ms[1..]))
  }

  function TotalSize(ms: seq<WireMsg>): nat {
    if ms == [] then 0 else MsgSize(ms[0]) + TotalSize(ms[1..])
  }

  // ---- The decoder ----

  function MsgAt(b: seq<u8>, at: nat): (m: WireMsg)
    requires at + 3 <= |b| && at + 3 + PAIR_SIZE * b[at + 1] + KEY_SIZE * b[at + 2] <= |b|
    ensures MsgSize(m) == 3 + PAIR_SIZE * b[at + 1] + KEY_SIZE * b[at + 2]
    ensures b[at] == OFFLOAD_ENTRIES ==> Holds(b, at, m)
  {
    var keysAt := at + 3 + PAIR_SIZE * b[at + 1];
    WireMsg(seq(b[at + 1], j requires 0 <= j < b[at + 1] => PairAt(b, at + 3 + PAIR_SIZE * j)),
            seq(b[at + 2], j requires 0 <= j < b[at + 2] => KeyAt(b, keysAt + KEY_SIZE * j)))
  }

  /** `OutOfBounds` when the decoder would read past its buffer. */
  datatype Decoded = Decoded(msgs: seq<WireMsg>) | OutOfBounds

  /** Decoding from `pos` the `n` bytes received; the loop also looks at byte `n` itself. */
  function Decode(b: seq<u8>, pos: nat, n: nat): Decoded
    decreases n + 1 - pos
  {
    if pos > n then Decoded([])
    else if pos >= |b| then OutOfBounds
    else if b[pos] != OFFLOAD_ENTRIES then Decoded([])
    else if pos + 3 > |b| || pos + 3 + PAIR_SIZE * b[pos + 1] + KEY_SIZE * b[pos + 2] > |b| then OutOfBounds
    else
      var m := MsgAt(b, pos);
      match Decode(b, pos + MsgSize(m), n)
      case OutOfBounds => OutOfBounds
      case Decoded(ms) => Decoded([m] + ms)
  }

  lemma HeldIsDecoded(b: seq<u8>, at: nat, m: WireMsg)
    requires Holds(b, at, m)
    ensures MsgAt(b, at) == m
  {
    var d := MsgAt(b, at);
    assert forall j | 0 <= j < |m.adds| :: d.adds[j] == m.adds[j];
    assert forall j | 0 <= j < |m.dels| :: d.dels[j] == m.dels[j];
  }

  lemma DecodeHeld(b: seq<u8>, at: nat, m: WireMsg, n: nat)
    requires Holds(b, at, m) && at <= n
    ensures Decode(b, at, n) == match Decode(b, at + MsgSize(m), n)
              case OutOfBounds => OutOfBounds
              case Decoded(ms) => Decoded([m] + ms)
  {
    hide HoldsPairs, HoldsKeys, MsgAt;
    HeldIsDecoded(b, at, m);
  }

  /** Whole messages are decoded as sent exactly when the buffer goes on after them with a byte other than 3. */
  lemma {:induction false} RoundTripExactly(b: seq<u8>, at: nat, ms: seq<WireMsg>)
    requires HoldsAll(b, at, ms) && at + TotalSize(ms) <= |b|
    ensures var n := at + TotalSize(ms);
            Decode(b, at, n) == Decoded(ms) <==> n < |b| && b[n] != OFFLOAD_ENTRIES
    decreases |ms|
  {
    hide Holds, MsgAt, MsgSize;
    if ms != [] {
      var m, n := ms[0], at + TotalSize(ms);
      DecodeHeld(b, at, m, n);
      RoundTripExactly(b, at + MsgSize(m), ms[1..]);
      var rest := Decode(b, at + MsgSize(m), n);
      if rest.Decoded? {
        assert Decode(b, at, n) == Decoded([m] + rest.msgs);
        assert [m] + ms[1..] == ms;
        assert ([m] + rest.msgs)[1..] == rest.msgs;
      }
    }
  }

  /** When the byte is the 3 of an earlier message that a longer receive left behind, that message is
      applied once again. */
  lemma {:induction false} StaleAppliedAgain(b: seq<u8>, at: nat, ms: seq<WireMsg>, stale: WireMsg)
    requires HoldsAll(b, at, ms) && Holds(b, at + TotalSize(ms), stale)
    ensures Decode(b, at, at + TotalSize(ms)) == Decoded(ms + [stale])
    decreases |ms|
  {
    hide Holds, MsgAt, MsgSize;
    var n := at + TotalSize(ms);
    if ms == [] {
      DecodeHeld(b, at, stale, n);
      assert MsgSize(stale) > 0 by { NotEmpty(stale); }
      assert Decode(b, at + MsgSize(stale), n) == Decoded([]);
    } else {
      DecodeHeld(b, at, ms[0], n);
      StaleAppliedAgain(b, at + MsgSize(ms[0]), ms[1..], stale);
      assert ms + [stale] == [ms[0]] + (ms[1..] + [stale]);
    }
  }

  lemma NotEmpty(m: WireMsg)
    ensures MsgSize(m) > 0
  {
  }

  /** A removal received where a removal and an addition of the same key were received before: the addition
      is still behind it in the buffer, and undoes it. */
  lemma StaleUndoesRemoval() returns (b: seq<u8>, removal: WireMsg, addition: WireMsg)
    ensures |b| == RECV_SIZE && HoldsAll(b, 0, [removal] + [addition]) && HoldsAll(b, 0, [removal])
    ensures Decode(b, 0, TotalSize([removal] + [addition])) == Decoded([removal] + [addition])
    ensures Decode(b, 0, TotalSize([removal])) == Decoded([removal] + [addition])
    ensures |removal.dels| == 1 && |addition.adds| == 1 && addition.adds[0].key == removal.dels[0]
    ensures removal.adds == [] && addition.dels == []
  {
    hide Holds, HoldsAll, Decode, TotalSize;
    var key := WireKey(0, 1, 9);
    b := seq(RECV_SIZE, i =>
      if i == 0 || i == 15 then 3
      else if i == 2 || i == 16 || i == 7 || i == 22 || i == 30 then 1
      else if i == 11 || i == 26 then 9
      else if i == 31 then 7 else 0);
    removal, addition := WireMsg([], [key]), WireMsg([WirePair(key, Data(1, 7))], []);
    HeldRemoval(b, 0, key);
    HeldAddition(b, 15, WirePair(key, Data(1, 7)));
    TwoHeld(b, removal, addition);
    RoundTripExactly(b, 0, [removal] + [addition]);
    StaleAppliedAgain(b, 0, [removal], addition);
  }

  lemma HeldRemoval(b: seq<u8>, at: nat, k: WireKey)
    requires at + 15 <= |b| && b[at] == OFFLOAD_ENTRIES && b[at + 1] == 0 && b[at + 2] == 1 && KeyAt(b, at + 3) == k
    ensures Holds(b, at, WireMsg([], [k]))
  {
    hide KeyAt;
    assert KeyAt(b, at + 3 + KEY_SIZE * 0) == [k][0];
  }

  lemma HeldAddition(b: seq<u8>, at: nat, p: WirePair)
    requires at + 19 <= |b| && b[at] == OFFLOAD_ENTRIES && b[at + 1] == 1 && b[at + 2] == 0 && PairAt(b, at + 3) == p
    ensures Holds(b, at, WireMsg([p], []))
  {
    hide PairAt;
    assert PairAt(b, at + 3 + PAIR_SIZE * 0) == [p][0];
  }

  lemma TwoHeld(b: seq<u8>, m: WireMsg, n: WireMsg)
    requires Holds(b, 0, m) && Holds(b, MsgSize(m), n)
    ensures HoldsAll(b, 0, [m]) && HoldsAll(b, 0, [m] + [n])
    ensures TotalSize([m]) == MsgSize(m) && TotalSize([m] + [n]) == MsgSize(m) + MsgSize(n)
  {
    hide Holds, MsgSize;
    assert [m][1..] == [] && ([m] + [n])[1..] == [n] && [n][1..] == [];
    assert HoldsAll(b, MsgSize(m), [n]) by { assert [n][0] == n; }
    assert TotalSize([n]) == MsgSize(n);
  }

  /** Bytes that go unchanged keep what they hold. */
  lemma HeldPairsKept(b: seq<u8>, b': seq<u8>, at: nat, ps: seq<WirePair>)
    requires HoldsPairs(b, at, ps) && |b'| == |b|
    requires forall i | at <= i < at + PAIR_SIZE * |ps| :: b'[i] == b[i]
    ensures HoldsPairs(b', at, ps)
  {
    forall j | 0 <= j < |ps| ensures PairAt(b', at + PAIR_SIZE * j) == ps[j] {
      assert PairAt(b', at + PAIR_SIZE * j) == PairAt(b, at + PAIR_SIZE * j);
    }
  }

  lemma HeldKeysKept(b: seq<u8>, b': seq<u8>, at: nat, ks: seq<WireKey>)
    requires HoldsKeys(b, at, ks) && |b'| == |b|
    requires forall i | at <= i < at + KEY_SIZE * |ks| :: b'[i] == b[i]
    ensures HoldsKeys(b', at, ks)
  {
    forall j | 0 <= j < |ks| ensures KeyAt(b', at + KEY_SIZE * j) == ks[j] {
      assert KeyAt(b', at + KEY_SIZE * j) == KeyAt(b, at + KEY_SIZE * j);
    }
  }

  // ---- Table handles ----

  /** Each addition and removal of a message uses one table handle. */
  function Entries(ms: seq<WireMsg>): nat {
    if ms == [] then 0 else |ms[0].adds| + |ms[0].dels| + Entries(ms[1..])
  }

  lemma {:induction false} EntriesBound(ms: seq<WireMsg>)
    ensures KEY_SIZE * Entries(ms) <= TotalSize(ms)
    ensures ms != [] ==> KEY_SIZE * Entries(ms) + 3 <= TotalSize(ms)
  {
    if ms != [] { EntriesBound(ms[1..]); }
  }

  const RECV_SIZE: nat := 1024
  const HANDLES: nat := 256

  /** Whatever the bytes, each handle a decoder uses stands for twelve of them. */
  lemma {:induction false} DecodedBound(b: seq<u8>, pos: nat, n: nat)
    requires Decode(b, pos, n).Decoded? && pos <= |b|
    ensures pos + KEY_SIZE * Entries(Decode(b, pos, n).msgs) <= |b|
    decreases n + 1 - pos
  {
    hide Holds, MsgAt;
    if pos <= n && b[pos] == OFFLOAD_ENTRIES {
      var m := MsgAt(b, pos);
      DecodedBound(b, pos + MsgSize(m), n);
      var rest := Decode(b, pos + MsgSize(m), n).msgs;
      assert Decode(b, pos, n).msgs == [m] + rest && ([m] + rest)[1..] == rest;
    }
  }

  // ---- From the wire to the switch table ----

  function StripKey(k: WireKey): Endpoint {
    Endpoint(k.ip, k.port)
  }

  function StripPairs(ps: seq<WirePair>): (r: seq<Pair>)
    ensures |r| == |ps|
  {
    seq(|ps|, i requires 0 <= i < |ps| => Pair(StripKey(ps[i].key), ps[i].data))
  }

  function StripKeys(ks: seq<WireKey>): (r: seq<Endpoint>)
    ensures |r| == |ks|
  {
    seq(|ks|, i requires 0 <= i < |ks| => StripKey(ks[i]))
  }

  /** The switch ignores the checksum byte of a key. */
  function Strip(m: WireMsg): Msg {
    Msg(StripPairs(m.adds), StripKeys(m.dels))
  }

  function StripAll(ms: seq<WireMsg>): seq<Msg> {
    if ms == [] then [] else [Strip(ms[0])] + StripAll(ms[1..])
  }
}
