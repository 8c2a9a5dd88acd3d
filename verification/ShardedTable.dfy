/** The flow index: 256 maps from 64-bit keys, chosen by checksum, that act as one map from client endpoints. */
module ShardedTable {
  import opened Words
  import opened Packets
  import opened Crc8

  /** Address and port as loaded from the packet, side by side. */
  function Key64(e: Endpoint): int {
    Swap32(e.ip) * 0x1_0000_0000 + Swap16(e.port)
  }

  lemma Key64Injective(e: Endpoint, f: Endpoint)
    requires Key64(e) == Key64(f)
    ensures e == f
  {
    hide Swap32, Swap16;
    assert Swap16(e.port) == Key64(e) % 0x1_0000_0000 == Swap16(f.port);
    assert Swap32(e.ip) == Key64(e) / 0x1_0000_0000 == Swap32(f.ip);
    SwapTwice16(e.port);
    SwapTwice16(f.port);
    SwapTwice32(e.ip);
    SwapTwice32(f.ip);
  }

  class Index<V> {
    const crcTable: array<Byte>
    const shards: array<map<int, V>>
    ghost var flat: map<Endpoint, V>

    /** Every key of shard `c` belongs to an endpoint with checksum `c`; together the shards hold `flat`. */
    ghost predicate Valid()
      reads this, crcTable, shards
    {
      && IsTable(crcTable[..]) && shards.Length == 256
      && (forall e | e in flat :: Key64(e) in shards[CrcOf(e)] && shards[CrcOf(e)][Key64(e)] == flat[e])
      && (forall c, k | 0 <= c < 256 && k in shards[c] :: exists e :: e in flat && CrcOf(e) == c && Key64(e) == k)
    }

    constructor (crcTable: array<Byte>)
      requires IsTable(crcTable[..])
      ensures Valid() && flat == map[] && fresh(shards) && this.crcTable == crcTable
    {
      this.crcTable := crcTable;
      shards := new map<int, V>[256](_ => map[]);
      flat := map[];
    }

    lemma FoundInShard(e: Endpoint)
      requires Valid()
      ensures Key64(e) in shards[CrcOf(e)] <==> e in flat
    {
      hide Key64, CrcOf;
      if Key64(e) in shards[CrcOf(e)] {
        var f :| f in flat && CrcOf(f) == CrcOf(e) && Key64(f) == Key64(e);
        Key64Injective(f, e);
      }
    }

    method Find(crc: u8, key: int, ghost e: Endpoint) returns (v: Option<V>)
      requires Valid() && crc == CrcOf(e) && key == Key64(e)
      ensures v == if e in flat then Some(flat[e]) else None
    {
      FoundInShard(e);
      v := if key in shards[crc] then Some(shards[crc][key]) else None;
    }

    /** An insertion never replaces what a key refers to. */
    method Insert(crc: u8, key: int, v: V, ghost e: Endpoint) returns (ok: bool)
      requires Valid() && crc == CrcOf(e) && key == Key64(e)
      modifies this, shards
      ensures Valid() && ok == (e !in old(flat))
      ensures flat == if e in old(flat) then old(flat) else old(flat)[e := v]
    {
      hide Key64, CrcOf;
      FoundInShard(e);
      ok := key !in shards[crc];
      if ok {
        forall f | f in flat && CrcOf(f) == crc ensures Key64(f) != key {
          if Key64(f) == key { Key64Injective(f, e); }
        }
        shards[crc] := shards[crc][key := v];
        flat := flat[e := v];
      }
    }

    method Erase(crc: u8, key: int, ghost e: Endpoint)
      requires Valid() && crc == CrcOf(e) && key == Key64(e)
      modifies this, shards
      ensures Valid() && flat == old(flat) - {e}
    {
      hide Key64, CrcOf;
      FoundInShard(e);
      forall f | f in flat && f != e && CrcOf(f) == crc ensures Key64(f) != key {
        if Key64(f) == key { Key64Injective(f, e); }
      }
      shards[crc] := shards[crc] - {key};
      flat := flat - {e};
    }
  }
}
