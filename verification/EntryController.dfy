/** The front-end's side of publication: dequeue in bulk, send a batch, carry the rest over. */
module EntryController {
  import opened Words
  import opened Packets
  import opened FrontEnd
  import opened OffloadWire
  import Publication

  const BATCH_SIZE: nat := Publication.BATCH
  const THRESHOLD: nat := 20
  const MAX_MESSAGE: nat := 1123

  function Min(a: nat, b: nat): (m: nat) {
    if a < b then a else b
  }

  /** A queue in dequeue order; a bulk dequeue is one step. */
  class BulkQueue<T> {
    var contents: seq<T>
    ghost var dequeued: seq<T>  // everything ever taken out

    constructor ()
      ensures contents == [] && dequeued == []
    {
      contents, dequeued := [], [];
    }

    /** Everything ever enqueued, in order. */
    ghost function Enqueued(): seq<T>
      reads this
    {
      dequeued + contents
    }

    method Enqueue(x: T)
      modifies this`contents
      ensures contents == old(contents) + [x] && Enqueued() == old(Enqueued()) + [x]
    {
      contents := contents + [x];
      assert Enqueued() == old(Enqueued()) + [x];
    }

    method TryDequeueBulk(dst: array<T>, at: nat, max: nat) returns (n: nat)
      requires at + max <= dst.Length
      modifies this, dst
      ensures n == Min(max, |old(contents)|) && contents == old(contents)[n..]
      ensures dequeued == old(dequeued) + old(contents)[..n] && Enqueued() == old(Enqueued())
      ensures dst[..] == old(dst[..at]) + old(contents)[..n] + old(dst[at + n..])
    {
      n := Min(max, |contents|);
      ghost var was := dst[..];
      for i := 0 to n
        invariant contents == old(contents) && dequeued == old(dequeued)
        invariant forall j | 0 <= j < dst.Length :: dst[j] == if at <= j < at + i then contents[j - at] else was[j]
      {
        dst[at + i] := contents[i];
      }
      contents, dequeued := contents[n..], dequeued + contents[..n];
      assert Enqueued() == old(Enqueued());
    }
  }

  /** The front of an array, shifted down over what has been sent. */
  method ShiftDown<T>(a: array<T>, from: nat, count: nat)
    requires from + count <= a.Length && count <= from
    modifies a
    ensures a[..count] == old(a[from..from + count])
  {
    for i := 0 to count
      invariant forall j | 0 <= j < i :: a[j] == old(a[from + j])
      invariant forall j | from <= j < a.Length :: a[j] == old(a[j])
    {
      a[i] := a[from + i];
    }
  }

  method PutLe16(buf: array<u8>, at: nat, v: u16)
    requires at + 2 <= buf.Length
    modifies buf
    ensures Le16(buf[..], at) == v
    ensures forall i | 0 <= i < buf.Length && !(at <= i < at + 2) :: buf[i] == old(buf[i])
  {
    buf[at] := v % 0x100;
    buf[at + 1] := v / 0x100;
  }

  method PutLe32(buf: array<u8>, at: nat, v: u32)
    requires at + 4 <= buf.Length
    modifies buf
    ensures Le32(buf[..], at) == v
    ensures forall i | 0 <= i < buf.Length && !(at <= i < at + 4) :: buf[i] == old(buf[i])
  {
    PutLe16(buf, at, v % 0x1_0000);
    ghost var low := buf[..];
    PutLe16(buf, at + 2, v / 0x1_0000);
    assert Le16(buf[..], at) == Le16(low, at);
  }

  /** The memory image of a key; its padding bytes are arbitrary. */
  method PutKey(buf: array<u8>, at: nat, k: WireKey)
    requires at + KEY_SIZE <= buf.Length
    modifies buf
    ensures KeyAt(buf[..], at) == k
    ensures forall i | 0 <= i < buf.Length && !(at <= i < at + KEY_SIZE) :: buf[i] == old(buf[i])
  {
    buf[at + 1], buf[at + 2], buf[at + 3], buf[at + 10], buf[at + 11] := *, *, *, *, *;
    buf[at] := k.crc;
    PutLe32(buf, at + 4, k.ip);
    ghost var mid := buf[..];
    PutLe16(buf, at + 8, k.port);
    assert Le32(buf[..], at + 4) == Le32(mid, at + 4);
  }

  method PutPair(buf: array<u8>, at: nat, p: WirePair)
    requires at + PAIR_SIZE <= buf.Length
    modifies buf
    ensures PairAt(buf[..], at) == p
    ensures forall i | 0 <= i < buf.Length && !(at <= i < at + PAIR_SIZE) :: buf[i] == old(buf[i])
  {
    PutKey(buf, at, p.key);
    ghost var mid := buf[..];
    buf[at + 12], buf[at + 13], buf[at + 14], buf[at + 15] := p.data.offloadFlag, p.data.dIndex, *, *;
    assert KeyAt(buf[..], at) == KeyAt(mid, at);
  }

  /** Copies pairs from an array to the buffer. */
  method PutPairs(buf: array<u8>, at: nat, src: array<WirePair>, n: nat)
    requires n <= src.Length && at + PAIR_SIZE * n <= buf.Length
    modifies buf
    ensures HoldsPairs(buf[..], at, src[..n])
    ensures forall i | 0 <= i < buf.Length && !(at <= i < at + PAIR_SIZE * n) :: buf[i] == old(buf[i])
  {
    for j := 0 to n
      invariant HoldsPairs(buf[..], at, src[..j])
      invariant forall i | 0 <= i < buf.Length && !(at <= i < at + PAIR_SIZE * j) :: buf[i] == old(buf[i])
    {
      ghost var was := buf[..];
      PutPair(buf, at + PAIR_SIZE * j, src[j]);
      HeldPairsKept(was, buf[..], at, src[..j]);
      assert src[..j + 1] == src[..j] + [src[j]];
    }
  }

  method PutKeys(buf: array<u8>, at: nat, src: array<WireKey>, n: nat)
    requires n <= src.Length && at + KEY_SIZE * n <= buf.Length
    modifies buf
    ensures HoldsKeys(buf[..], at, src[..n])
    ensures forall i | 0 <= i < buf.Length && !(at <= i < at + KEY_SIZE * n) :: buf[i] == old(buf[i])
  {
    for j := 0 to n
      invariant HoldsKeys(buf[..], at, src[..j])
      invariant forall i | 0 <= i < buf.Length && !(at <= i < at + KEY_SIZE * j) :: buf[i] == old(buf[i])
    {
      ghost var was := buf[..];
      PutKey(buf, at + KEY_SIZE * j, src[j]);
      HeldKeysKept(was, buf[..], at, src[..j]);
      assert src[..j + 1] == src[..j] + [src[j]];
    }
  }

  class Controller {
    var addPairs: array<WirePair>
    var delKeys: array<WireKey>
    var remainAddSize: nat
    var remainDelSize: nat
    const addQueue: BulkQueue<WirePair>
    const delQueue: BulkQueue<WireKey>
    ghost var sentAdds: seq<WirePair>      // everything batches ever carried
    ghost var sentDels: seq<WireKey>

    ghost predicate Valid()
      reads this, addPairs, delKeys, addQueue, delQueue
    {
      && addPairs.Length == 2 * BATCH_SIZE && delKeys.Length == 2 * BATCH_SIZE
      && remainAddSize <= THRESHOLD && remainDelSize <= THRESHOLD
      && addQueue.dequeued == sentAdds + addPairs[..remainAddSize]
      && delQueue.dequeued == sentDels + delKeys[..remainDelSize]
    }

    /** What is still to be sent, in order: carried over, then queued. */
    ghost function WaitingAdds(): seq<WirePair>
      reads this, addPairs, addQueue
      requires remainAddSize <= addPairs.Length
    {
      addPairs[..remainAddSize] + addQueue.contents
    }

    ghost function WaitingDels(): seq<WireKey>
      reads this, delKeys, delQueue
      requires remainDelSize <= delKeys.Length
    {
      delKeys[..remainDelSize] + delQueue.contents
    }

    constructor (addQueue: BulkQueue<WirePair>, delQueue: BulkQueue<WireKey>)
      requires addQueue.dequeued == [] && delQueue.dequeued == []
      ensures Valid() && fresh(addPairs) && fresh(delKeys)
      ensures this.addQueue == addQueue && this.delQueue == delQueue
      ensures remainAddSize == 0 && remainDelSize == 0 && sentAdds == [] && sentDels == []
    {
      this.addQueue, this.delQueue := addQueue, delQueue;
      addPairs := new WirePair[2 * BATCH_SIZE](_ => WirePair(WireKey(0, 0, 0), Data(0, 0)));
      delKeys := new WireKey[2 * BATCH_SIZE](_ => WireKey(0, 0, 0));
      remainAddSize, remainDelSize := 0, 0;
      sentAdds, sentDels := [], [];
    }

    /** The dequeue of a tick: at most one batch of each queue, behind what was carried over. */
    method Refill()
      requires Valid()
      modifies this`remainAddSize, this`remainDelSize, addPairs, delKeys, addQueue, delQueue
      ensures remainAddSize == old(remainAddSize) + Min(BATCH_SIZE, |old(addQueue.contents)|)
      ensures remainDelSize == old(remainDelSize) + Min(BATCH_SIZE, |old(delQueue.contents)|)
      ensures WaitingAdds() == old(WaitingAdds()) && WaitingDels() == old(WaitingDels())
      ensures addQueue.Enqueued() == old(addQueue.Enqueued()) && delQueue.Enqueued() == old(delQueue.Enqueued())
      ensures addQueue.dequeued == sentAdds + addPairs[..remainAddSize]
      ensures delQueue.dequeued == sentDels + delKeys[..remainDelSize]
    {
      var addSize := addQueue.TryDequeueBulk(addPairs, remainAddSize, BATCH_SIZE);
      var delSize := delQueue.TryDequeueBulk(delKeys, remainDelSize, BATCH_SIZE);
      remainAddSize := remainAddSize + addSize;
      remainDelSize := remainDelSize + delSize;
      assert addPairs[..remainAddSize] == old(addPairs[..remainAddSize]) + old(addQueue.contents)[..addSize];
      assert delKeys[..remainDelSize] == old(delKeys[..remainDelSize]) + old(delQueue.contents)[..delSize];
    }

    /** One timer tick. The bytes written hold one message `m`: the first batch of what is waiting; what was
        enqueued stays, in order, what was sent, what is carried over and what is queued. */
    method GetOffloadedEntries(sendBuffer: array<u8>) returns (nowBytes: nat, ghost m: WireMsg)
      requires Valid() && sendBuffer.Length >= MAX_MESSAGE
      modifies this`remainAddSize, this`remainDelSize, this`sentAdds, this`sentDels
      modifies addPairs, delKeys, addQueue, delQueue, sendBuffer
      ensures Valid()
      ensures sentAdds == old(sentAdds) + m.adds && sentDels == old(sentDels) + m.dels
      ensures addQueue.Enqueued() == old(addQueue.Enqueued()) && delQueue.Enqueued() == old(delQueue.Enqueued())
      ensures old(WaitingAdds()) == m.adds + WaitingAdds() && old(WaitingDels()) == m.dels + WaitingDels()
      ensures |m.adds| == Min(BATCH_SIZE, |old(WaitingAdds())|) && |m.dels| == Min(BATCH_SIZE, |old(WaitingDels())|)
      ensures nowBytes == (if m.adds == [] && m.dels == [] then 0 else MsgSize(m)) && nowBytes <= MAX_MESSAGE
      ensures nowBytes != 0 ==> Holds(sendBuffer[..], 0, m)
      ensures old(remainAddSize) == 0 && old(remainDelSize) == 0 ==> remainAddSize == 0 && remainDelSize == 0
    {
      hide Holds, HoldsPairs, HoldsKeys;
      if remainAddSize <= THRESHOLD && remainDelSize <= THRESHOLD {
        Refill();
      }
      if remainAddSize == 0 && remainDelSize == 0 {
        m := WireMsg([], []);
        return 0, m;
      }
      var needAddSize := if remainAddSize > BATCH_SIZE then BATCH_SIZE else remainAddSize;
      var needDelSize := if remainDelSize > BATCH_SIZE then BATCH_SIZE else remainDelSize;
      m := WireMsg(addPairs[..needAddSize], delKeys[..needDelSize]);
      nowBytes := WriteMessage(sendBuffer, needAddSize, needDelSize, m);
      DropAdds(needAddSize);
      DropDels(needDelSize);
    }

    method WriteMessage(sendBuffer: array<u8>, needAddSize: nat, needDelSize: nat, ghost m: WireMsg)
      returns (nowBytes: nat)
      requires needAddSize <= BATCH_SIZE && needDelSize <= BATCH_SIZE && sendBuffer.Length >= MAX_MESSAGE
      requires needAddSize <= addPairs.Length && needDelSize <= delKeys.Length
      requires m == WireMsg(addPairs[..needAddSize], delKeys[..needDelSize])
      modifies sendBuffer
      ensures nowBytes == MsgSize(m) && Holds(sendBuffer[..], 0, m)
    {
      hide HoldsPairs, HoldsKeys;
      sendBuffer[0] := OFFLOAD_ENTRIES;
      sendBuffer[1] := needAddSize;
      sendBuffer[2] := needDelSize;
      nowBytes := 3;
      PutPairs(sendBuffer, nowBytes, addPairs, needAddSize);
      ghost var was := sendBuffer[..];
      nowBytes := nowBytes + PAIR_SIZE * needAddSize;
      PutKeys(sendBuffer, nowBytes, delKeys, needDelSize);
      HeldPairsKept(was, sendBuffer[..], 3, m.adds);
      nowBytes := nowBytes + KEY_SIZE * needDelSize;
    }

    /** Keeps what was not sent at the front of the array. */
    method DropAdds(need: nat)
      requires addPairs.Length == 2 * BATCH_SIZE && need <= BATCH_SIZE
      requires need <= remainAddSize <= need + THRESHOLD && (need < remainAddSize ==> need == BATCH_SIZE)
      requires addQueue.dequeued == sentAdds + addPairs[..remainAddSize]
      modifies this`remainAddSize, this`sentAdds, addPairs
      ensures remainAddSize == old(remainAddSize) - need
      ensures sentAdds == old(sentAdds) + old(addPairs[..need])
      ensures old(WaitingAdds()) == old(addPairs[..need]) + WaitingAdds()
      ensures addQueue.dequeued == sentAdds + addPairs[..remainAddSize]
    {
      ghost var sent := addPairs[..need];
      assert addPairs[..remainAddSize] == sent + addPairs[need..remainAddSize];
      if need < remainAddSize {
        ShiftDown(addPairs, need, remainAddSize - need);
      }
      remainAddSize := remainAddSize - need;
      sentAdds := sentAdds + sent;
      assert addPairs[..remainAddSize] == old(addPairs[need..remainAddSize]);
      assert sent + addPairs[..remainAddSize] + addQueue.contents == sent + WaitingAdds();
    }

    /** Keeps what was not sent at the front of the array. */
    method DropDels(need: nat)
      requires delKeys.Length == 2 * BATCH_SIZE && need <= BATCH_SIZE
      requires need <= remainDelSize <= need + THRESHOLD && (need < remainDelSize ==> need == BATCH_SIZE)
      requires delQueue.dequeued == sentDels + delKeys[..remainDelSize]
      modifies this`remainDelSize, this`sentDels, delKeys
      ensures remainDelSize == old(remainDelSize) - need
      ensures sentDels == old(sentDels) + old(delKeys[..need])
      ensures old(WaitingDels()) == old(delKeys[..need]) + WaitingDels()
      ensures delQueue.dequeued == sentDels + delKeys[..remainDelSize]
    {
      ghost var sent := delKeys[..need];
      assert delKeys[..remainDelSize] == sent + delKeys[need..remainDelSize];
      if need < remainDelSize {
        ShiftDown(delKeys, need, remainDelSize - need);
      }
      remainDelSize := remainDelSize - need;
      sentDels := sentDels + sent;
      assert delKeys[..remainDelSize] == old(delKeys[need..remainDelSize]);
      assert sent + delKeys[..remainDelSize] + delQueue.contents == sent + WaitingDels();
    }
  }
}
