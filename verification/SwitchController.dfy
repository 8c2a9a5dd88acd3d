/** The control plane's side of publication: decode what was received and update the switch table in place. */
module SwitchController {
  import opened Words
  import opened Packets
  import opened FrontEnd
  import opened Publication
  import opened OffloadWire

  /** The switch's offload table. Adding a present key or removing an absent one fails. */
  class OffloadTable {
    var entries: SwitchTable

    constructor ()
      ensures entries == map[]
    {
      entries := map[];
    }

    method EntryAdd(key: WireKey, data: Data) returns (ok: bool)
      modifies this
      ensures ok <==> StripKey(key) !in old(entries)
      ensures entries == AddEntry(old(entries), Pair(StripKey(key), data))
    {
      var k := StripKey(key);
      ok := k !in entries;
      if ok {
        entries := entries[k := data.dIndex];
      }
    }

    method EntryDel(key: WireKey) returns (ok: bool)
      modifies this
      ensures ok <==> StripKey(key) in old(entries)
      ensures entries == old(entries) - {StripKey(key)}
    {
      var k := StripKey(key);
      ok := k in entries;
      if ok {
        entries := entries - {k};
      }
    }
  }

  lemma PairsAhead(b: seq<u8>, at: nat, ps: seq<WirePair>, i: nat)
    requires HoldsPairs(b, at, ps) && i < |ps|
    ensures PairAt(b, at + PAIR_SIZE * i) == ps[i]
    ensures StripPairs(ps)[i..] == [Pair(StripKey(ps[i].key), ps[i].data)] + StripPairs(ps)[i + 1..]
  {
  }

  lemma KeysAhead(b: seq<u8>, at: nat, ks: seq<WireKey>, i: nat)
    requires HoldsKeys(b, at, ks) && i < |ks|
    ensures KeyAt(b, at + KEY_SIZE * i) == ks[i]
    ensures StripKeys(ks)[i..] == [StripKey(ks[i])] + StripKeys(ks)[i + 1..]
  {
  }

  method ReceiveAdds(table: OffloadTable, buf: array<u8>, at: nat, addSize: nat, entryIndex: nat,
                     ghost adds: seq<WirePair>)
    returns (nowBytes: nat, nextIndex: nat)
    requires |adds| == addSize && HoldsPairs(buf[..], at, adds) && entryIndex + addSize <= HANDLES
    modifies table
    ensures table.entries == AddAll(old(table.entries), StripPairs(adds))
    ensures nowBytes == at + PAIR_SIZE * addSize && nextIndex == entryIndex + addSize
  {
    nowBytes, nextIndex := at, entryIndex;
    for i := 0 to addSize
      invariant nowBytes == at + PAIR_SIZE * i && nextIndex == entryIndex + i
      invariant AddAll(table.entries, StripPairs(adds)[i..]) == AddAll(old(table.entries), StripPairs(adds))
    {
      PairsAhead(buf[..], at, adds, i);
      var pair := PairAt(buf[..], nowBytes);
      var _ := table.EntryAdd(pair.key, pair.data);
      nextIndex := nextIndex + 1;
      nowBytes := nowBytes + PAIR_SIZE;
    }
  }

  method ReceiveDels(table: OffloadTable, buf: array<u8>, at: nat, delSize: nat, entryIndex: nat,
                     ghost dels: seq<WireKey>)
    returns (nowBytes: nat, nextIndex: nat)
    requires |dels| == delSize && HoldsKeys(buf[..], at, dels) && entryIndex + delSize <= HANDLES
    modifies table
    ensures table.entries == DelAll(old(table.entries), StripKeys(dels))
    ensures nowBytes == at + KEY_SIZE * delSize && nextIndex == entryIndex + delSize
  {
    nowBytes, nextIndex := at, entryIndex;
    for i := 0 to delSize
      invariant nowBytes == at + KEY_SIZE * i && nextIndex == entryIndex + i
      invariant DelAll(table.entries, StripKeys(dels)[i..]) == DelAll(old(table.entries), StripKeys(dels))
    {
      KeysAhead(buf[..], at, dels, i);
      var key := KeyAt(buf[..], nowBytes);
      var _ := table.EntryDel(key);
      nextIndex := nextIndex + 1;
      nowBytes := nowBytes + KEY_SIZE;
    }
  }

  /** One message: additions first, then removals, each with its own handle; failures are ignored. */
  method ReceiveMessage(table: OffloadTable, buf: array<u8>, at: nat, entryIndex: nat, ghost m: WireMsg)
    returns (nowBytes: nat, nextIndex: nat)
    requires Holds(buf[..], at, m) && entryIndex + |m.adds| + |m.dels| <= HANDLES
    modifies table
    ensures table.entries == Apply(old(table.entries), Strip(m))
    ensures nowBytes == at + MsgSize(m) && nextIndex == entryIndex + |m.adds| + |m.dels|
  {
    nowBytes := at + 1;
    var addSize := buf[nowBytes];
    nowBytes := nowBytes + 1;
    var delSize := buf[nowBytes];
    nowBytes := nowBytes + 1;
    nowBytes, nextIndex := ReceiveAdds(table, buf, nowBytes, addSize, entryIndex, m.adds);
    nowBytes, nextIndex := ReceiveDels(table, buf, nowBytes, delSize, nextIndex, m.dels);
  }

  /** One receive: every message the bytes decode to is applied, in order, each operation with its own handle.
      `None` when the bytes do not decode inside the buffer, or the handles run out. */
  method Receive(table: OffloadTable, buf: array<u8>, recvSize: nat, entryIndex: nat) returns (nextIndex: Option<nat>)
    requires entryIndex <= HANDLES
    modifies table
    ensures var d := Decode(buf[..], 0, recvSize);
            && (nextIndex.Some? <==> d.Decoded? && entryIndex + Entries(d.msgs) <= HANDLES)
            && (nextIndex.Some? ==>
                  && nextIndex == Some(entryIndex + Entries(d.msgs))
                  && table.entries == ApplyAll(old(table.entries), StripAll(d.msgs)))
  {
    hide Holds, Apply, Strip, Decode, MsgAt;
    ghost var b := buf[..];
    ghost var all := Decode(b, 0, recvSize);
    var nowBytes: nat, now: nat := 0, entryIndex;
    while nowBytes <= recvSize
      invariant now <= HANDLES
      invariant Goes(all, Decode(b, nowBytes, recvSize), old(table.entries), table.entries, entryIndex, now)
      decreases recvSize + 1 - nowBytes
    {
      DecodeUnfolds(b, nowBytes, recvSize);
      if nowBytes >= buf.Length { return None; }
      if buf[nowBytes] == OFFLOAD_ENTRIES {
        if nowBytes + 3 > buf.Length { return None; }
        var addSize, delSize: nat := buf[nowBytes + 1], buf[nowBytes + 2];
        if nowBytes + 3 + PAIR_SIZE * addSize + KEY_SIZE * delSize > buf.Length { return None; }
        ghost var m, was := MsgAt(b, nowBytes), table.entries;
        MsgSizes(b, nowBytes);
        if now + addSize + delSize > HANDLES {
          RunsOut(all, Decode(b, nowBytes + MsgSize(m), recvSize), m, old(table.entries), was, entryIndex, now);
          return None;
        }
        nowBytes, now := ReceiveMessage(table, buf, nowBytes, now, m);
        GoesOn(all, Decode(b, nowBytes, recvSize), m, old(table.entries), was, entryIndex, now - |m.adds| - |m.dels|);
      } else {
        break;
      }
    }
    if nowBytes > recvSize { DecodeUnfolds(b, nowBytes, recvSize); }
    assert Decode(b, nowBytes, recvSize) == Decoded([]);
    nextIndex := Some(now);
  }

  /** What is left to decode, applied to the table as it is, ends where everything decoded ends. */
  ghost predicate Goes(all: Decoded, rest: Decoded, st0: SwitchTable, st: SwitchTable, index0: nat, index: nat) {
    && (all.Decoded? <==> rest.Decoded?)
    && (all.Decoded? ==>
          && index + Entries(rest.msgs) == index0 + Entries(all.msgs)
          && ApplyAll(st, StripAll(rest.msgs)) == ApplyAll(st0, StripAll(all.msgs)))
  }

  /** One decoded message further. */
  lemma GoesOn(all: Decoded, rest: Decoded, m: WireMsg, st0: SwitchTable, st: SwitchTable, index0: nat, index: nat)
    requires Goes(all, if rest.Decoded? then Decoded([m] + rest.msgs) else OutOfBounds, st0, st, index0, index)
    ensures Goes(all, rest, st0, Apply(st, Strip(m)), index0, index + |m.adds| + |m.dels|)
  {
    hide Apply, Strip;
    if rest.Decoded? {
      var ms := [m] + rest.msgs;
      assert ms[0] == m && ms[1..] == rest.msgs;
      assert StripAll(ms) == [Strip(m)] + StripAll(rest.msgs);
      assert StripAll(ms)[1..] == StripAll(rest.msgs);
    }
  }

  lemma RunsOut(all: Decoded, rest: Decoded, m: WireMsg, st0: SwitchTable, st: SwitchTable, index0: nat, index: nat)
    requires Goes(all, if rest.Decoded? then Decoded([m] + rest.msgs) else OutOfBounds, st0, st, index0, index)
    requires index + |m.adds| + |m.dels| > HANDLES
    ensures all.Decoded? ==> index0 + Entries(all.msgs) > HANDLES
  {
    hide ApplyAll;
    if rest.Decoded? {
      var ms := [m] + rest.msgs;
      assert ms[0] == m && ms[1..] == rest.msgs;
    }
  }

  lemma MsgSizes(b: seq<u8>, at: nat)
    requires at + 3 <= |b| && b[at] == OFFLOAD_ENTRIES && at + 3 + PAIR_SIZE * b[at + 1] + KEY_SIZE * b[at + 2] <= |b|
    ensures var m := MsgAt(b, at); Holds(b, at, m) && |m.adds| == b[at + 1] && |m.dels| == b[at + 2]
  {
  }

  lemma DecodeUnfolds(b: seq<u8>, pos: nat, n: nat)
    ensures pos > n ==> Decode(b, pos, n) == Decoded([])
    ensures pos <= n && pos >= |b| ==> Decode(b, pos, n) == OutOfBounds
    ensures pos <= n && pos < |b| && b[pos] != OFFLOAD_ENTRIES ==> Decode(b, pos, n) == Decoded([])
    ensures pos <= n && pos < |b| && b[pos] == OFFLOAD_ENTRIES ==>
              if pos + 3 > |b| || pos + 3 + PAIR_SIZE * b[pos + 1] + KEY_SIZE * b[pos + 2] > |b| then
                  Decode(b, pos, n) == OutOfBounds
              else
                var m := MsgAt(b, pos);
                var rest := Decode(b, pos + MsgSize(m), n);
                Decode(b, pos, n) == if rest.Decoded? then Decoded([m] + rest.msgs) else OutOfBounds
  {
    hide MsgAt, Holds;
  }
}
