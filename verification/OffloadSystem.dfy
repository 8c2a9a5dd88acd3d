/** A worker, the entry controller and the switch table on shared queues: each method is a move of the pipeline. */
module OffloadSystem {
  import opened Words
  import opened Packets
  import opened FrontEnd
  import opened Publication
  import opened Crc8
  import opened ShardedTable
  import opened OffloadWire
  import opened OffloadStream
  import opened EntryController
  import opened SwitchController
  import opened PktProcessor
  import opened Pipeline

  class System {
    const worker: Worker
    const controller: Controller
    const table: OffloadTable
    ghost var wire: seq<WireMsg>  // sent and not yet received

    ghost predicate Valid()
      reads this, worker, worker.index, worker.index.crcTable, worker.index.shards, worker.index.flat.Values
      reads controller, controller.addPairs, controller.delKeys, controller.addQueue, controller.delQueue
    {
      && worker.Valid() && controller.Valid()
      && worker.addQueue == controller.addQueue && worker.delQueue == controller.delQueue
    }

    /** The state of the pipeline between ticks. */
    ghost function Now(): Concrete
      reads this, worker, table
      reads controller, controller.addPairs, controller.delKeys, controller.addQueue, controller.delQueue
      requires controller.Valid()
    {
      Concrete(worker.view, controller.WaitingAdds(), controller.WaitingDels(), None, wire, table.entries)
    }

    constructor ()
      ensures Valid() && Now() == Start()
    {
      var crcTable := BuildTable();
      var index := new Index<FlowRecord>(crcTable);
      var addQueue := new BulkQueue<WirePair>();
      var delQueue := new BulkQueue<WireKey>();
      worker := new Worker(index, addQueue, delQueue);
      controller := new Controller(addQueue, delQueue);
      table := new OffloadTable();
      wire := [];
    }

    /** A worker handles a packet. */
    method HandlePacket(env: Env, p: Packet) returns (status: Status, outs: seq<Out>)
      requires Valid() && !Step(env, worker.view, p).Undefined?
      modifies worker`records, worker`pkts, worker`view, worker.index, worker.index.shards, worker.index.flat.Values
      modifies controller.addQueue`contents, controller.delQueue`contents
      ensures Valid() && Perform(old(Now()), Work(env, p)) == Some(Now())
    {
      hide Step, Worker.Valid, Index.Valid, AddsOf, DelsOf;
      ghost var c, o := Now(), Step(env, worker.view, p);
      status, outs := worker.ProcessOne(env, p);
      assert Now() == Worked(c, o);
    }

    /** A timer tick, undisturbed by workers: both dequeues, then the message in the buffer. */
    method Tick(sendBuffer: array<u8>) returns (nowBytes: nat, ghost m: WireMsg)
      requires Valid() && sendBuffer.Length >= MAX_MESSAGE
      modifies this`wire, controller`remainAddSize, controller`remainDelSize, controller`sentAdds, controller`sentDels
      modifies controller.addPairs, controller.delKeys, controller.addQueue, controller.delQueue
      modifies sendBuffer
      ensures Valid() && nowBytes <= sendBuffer.Length
      ensures Perform(old(Now()), TakeAdds).Some?
      ensures Perform(Perform(old(Now()), TakeAdds).value, TakeDels) == Some(Now())
      ensures nowBytes != 0 ==> wire == old(wire) + [m] && Encodes([sendBuffer[..nowBytes]], [m])
    {
      hide Worker.Valid, Index.Valid, Step, Perform, MessageOf, FirstOf, Encodes, Holds, HoldsPairs, HoldsKeys;
      ghost var c := Now();
      nowBytes, m := controller.GetOffloadedEntries(sendBuffer);
      if nowBytes != 0 {
        wire := wire + [m];
        SentPiece(sendBuffer[..], m);
      }
      TickIsTwoMoves(c, m, controller.WaitingAdds(), controller.WaitingDels());
    }

    /** The switch receives what ticks have sent, put together, with what its buffer holds behind it. */
    method ReceiveBytes(buf: array<u8>, recvSize: nat,
                        ghost bs: seq<seq<u8>>, ghost ms: seq<WireMsg>, ghost rest: seq<u8>)
      requires Valid() && Arrives(Now(), bs, ms, rest)
      requires buf.Length == RECV_SIZE && buf[..] == Concat(bs) + rest && recvSize == |Concat(bs)|
      modifies this`wire, table
      ensures Valid() && Perform(old(Now()), Pipeline.Receive(bs, ms, rest)) == Some(Now())
    {
      hide Worker.Valid, Index.Valid, Step, Encodes, Concat, Decode, ApplyAll, StripAll;
      StreamRoundTripExactly(bs, ms, rest);
      DecodedBound(buf[..], 0, recvSize);
      var _ := SwitchController.Receive(table, buf, recvSize, 0);
      wire := wire[|ms|..];
    }
  }

  /** The first of what waits, taken from both queues with nothing in between. */
  lemma TickIsTwoMoves(c: Concrete, m: WireMsg, adds: seq<WirePair>, dels: seq<WireKey>)
    requires c.taken.None? && c.adds == m.adds + adds && c.dels == m.dels + dels
    requires |m.adds| == Min(BATCH, |c.adds|) && |m.dels| == Min(BATCH, |c.dels|)
    ensures Perform(c, TakeAdds).Some?
    ensures Perform(Perform(c, TakeAdds).value, TakeDels)
         == Some(c.(adds := adds, dels := dels, wire := if m.adds == [] && m.dels == [] then c.wire else c.wire + [m]))
  {
    hide Step;
    assert FirstOf(c.adds) == m.adds && FirstOf(c.dels) == m.dels;
    assert c.adds[|m.adds|..] == adds && c.dels[|m.dels|..] == dels;
  }
}
