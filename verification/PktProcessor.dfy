/** The packet loop of a front-end worker, over records and cached packets that are allocated and freed. */
module PktProcessor {
  import opened Words
  import opened Packets
  import opened FrontEnd
  import opened Crc8
  import opened ShardedTable
  import opened OffloadWire
  import opened EntryController

  /** A cached packet, and the client it is cached for. */
  class PktBuf {
    const pkt: Packet
    ghost const owner: Endpoint

    constructor (pkt: Packet, ghost owner: Endpoint)
      ensures this.pkt == pkt && this.owner == owner
    {
      this.pkt, this.owner := pkt, owner;
    }
  }

  class FlowRecord {
    var state: FlowState
    var entryData: Data
    var recvPkt: PktBuf
    ghost const owner: Endpoint

    constructor (state: FlowState, entryData: Data, recvPkt: PktBuf, ghost owner: Endpoint)
      ensures this.state == state && this.entryData == entryData && this.recvPkt == recvPkt && this.owner == owner
    {
      this.state, this.entryData, this.recvPkt, this.owner := state, entryData, recvPkt, owner;
    }

    function Contents(): Flow
      reads this
    {
      Flow(state, entryData, recvPkt.pkt)
    }
  }

  datatype Status = Ok | InternalError

  function MyKey(e: Endpoint): WireKey {
    WireKey(CrcOf(e), e.ip, e.port)
  }

  /** The additions among queue operations, as they are enqueued. */
  function AddsOf(ops: seq<Op>): seq<WirePair> {
    if ops == [] then []
    else
      var op := ops[|ops| - 1];
      AddsOf(ops[..|ops| - 1]) + (match op case AddOp(pr) => [WirePair(MyKey(pr.key), pr.data)] case DelOp(_) => [])
  }

  function DelsOf(ops: seq<Op>): seq<WireKey> {
    if ops == [] then []
    else
      var op := ops[|ops| - 1];
      DelsOf(ops[..|ops| - 1]) + (match op case AddOp(_) => [] case DelOp(k) => [MyKey(k)])
  }

  lemma OneMoreOp(ops: seq<Op>, more: seq<Op>)
    requires |more| <= 1
    ensures AddsOf(ops + more) == AddsOf(ops) + AddsOf(more)
    ensures DelsOf(ops + more) == DelsOf(ops) + DelsOf(more)
  {
    hide CrcOf;
    if more == [] {
      assert ops + more == ops;
    } else {
      assert (ops + more)[..|ops + more| - 1] == ops;
      assert more[..0] == [];
    }
  }

  // ---- The token of a request ----

  lemma TokenAfter(s: string, i: nat)
    requires i < |s|
    ensures Token(s[i..]) == if s[i] == '/' then Word(s[i + 1..]) else Token(s[i + 1..])
  {
    assert s[i..][1..] == s[i + 1..];
  }

  /** The two loops over the payload. */
  method ParsePayload(payload: string) returns (token: string)
    ensures token == Token(payload)
  {
    hide Token, Word;
    var i := SkipToSlash(payload);
    i := i + 1;
    if i > |payload| { return []; }
    token := ReadWord(payload, i);
  }

  method ReadWord(payload: string, start: nat) returns (w: string)
    requires start <= |payload|
    ensures w == Word(payload[start..])
  {
    hide Word;
    var i, size := start, 0;
    while i < |payload| && payload[i] != ' ' && payload[i] != '\r'
      invariant start <= i <= |payload| && size == i - start
      invariant forall j | start <= j < i :: !EndsToken(payload[j])
    {
      i := i + 1;
      size := size + 1;
    }
    w := payload[start..start + size];
    assert payload[start..] == w + payload[i..];
    WordBefore(w, payload[i..]);
  }

  method SkipToSlash(payload: string) returns (i: nat)
    ensures i <= |payload| && Token(payload) == if i < |payload| then Word(payload[i + 1..]) else []
  {
    hide Word;
    i := 0;
    assert payload[0..] == payload;
    while i < |payload| && payload[i] != '/'
      invariant i <= |payload| && Token(payload) == Token(payload[i..])
    {
      TokenAfter(payload, i);
      i := i + 1;
    }
    if i < |payload| {
      TokenAfter(payload, i);
    }
  }

  // ---- A burst ----

  datatype BurstResult = Sent(table: Table, outs: seq<Out>, ops: seq<Op>) | Stopped(table: Table, ops: seq<Op>) | Broken

  /** The packets of a burst, one step each; an early return abandons the rest and sends nothing. */
  function Burst(env: Env, t: Table, ps: seq<Packet>): BurstResult {
    if ps == [] then Sent(t, [], [])
    else
      match Burst(env, t, ps[..|ps| - 1])
      case Sent(t1, outs, ops) =>
        (match Step(env, t1, ps[|ps| - 1])
         case Next(t2, outs2, ops2) => Sent(t2, outs + outs2, ops + ops2)
         case Stop => Stopped(t1, ops)
         case Undefined => Broken)
      case r => r
  }

  lemma {:induction false} BurstPrefix(env: Env, t: Table, ps: seq<Packet>, i: nat)
    requires i <= |ps| && !Burst(env, t, ps).Broken?
    ensures !Burst(env, t, ps[..i]).Broken?
    decreases |ps|
  {
    hide Step;
    if i < |ps| {
      BurstPrefix(env, t, ps[..|ps| - 1], i);
      assert ps[..|ps| - 1][..i] == ps[..i];
    } else {
      assert ps[..i] == ps;
    }
  }

  /** Once stopped, a burst stays stopped. */
  lemma {:induction false} BurstStops(env: Env, t: Table, ps: seq<Packet>, i: nat)
    requires i <= |ps| && Burst(env, t, ps[..i]).Stopped?
    ensures Burst(env, t, ps) == Burst(env, t, ps[..i])
    decreases |ps|
  {
    hide Step;
    if i < |ps| {
      assert ps[..|ps| - 1][..i] == ps[..i];
      BurstStops(env, t, ps[..|ps| - 1], i);
    } else {
      assert ps[..i] == ps;
    }
  }

  lemma BurstStart(env: Env, t: Table)
    ensures Burst(env, t, []) == Sent(t, [], [])
  {
  }

  /** The next packet of a burst that has not stopped. */
  lemma BurstNext(env: Env, t: Table, ps: seq<Packet>, i: nat)
    requires i < |ps| && !Burst(env, t, ps).Broken? && Burst(env, t, ps[..i]).Sent?
    ensures var b, next := Burst(env, t, ps[..i]), Burst(env, t, ps[..i + 1]);
            match Step(env, b.table, ps[i])
            case Next(t', outs, ops) => next == Sent(t', b.outs + outs, b.ops + ops)
            case Stop => Burst(env, t, ps) == Stopped(b.table, b.ops)
            case Undefined => false
  {
    hide Step;
    BurstPrefix(env, t, ps, i + 1);
    assert ps[..i + 1][..i] == ps[..i];
    if Burst(env, t, ps[..i + 1]).Stopped? {
      BurstStops(env, t, ps, i + 1);
    }
  }

  /** A step sends at most two packets and queues at most one operation. */
  lemma StepSize(env: Env, t: Table, p: Packet)
    requires Step(env, t, p).Next?
    ensures |Step(env, t, p).outs| <= 2 && |Step(env, t, p).ops| <= 1
  {
  }

  class Worker {
    const index: Index<FlowRecord>
    const addQueue: BulkQueue<WirePair>
    const delQueue: BulkQueue<WireKey>
    ghost var records: set<FlowRecord>  // allocated and not freed
    ghost var pkts: set<PktBuf>
    ghost var view: Table

    constructor (index: Index<FlowRecord>, addQueue: BulkQueue<WirePair>, delQueue: BulkQueue<WireKey>)
      requires index.Valid() && index.flat == map[]
      ensures Valid() && view == map[]
      ensures this.index == index && this.addQueue == addQueue && this.delQueue == delQueue
    {
      this.index, this.addQueue, this.delQueue := index, addQueue, delQueue;
      records, pkts, view := {}, {}, map[];
    }

    /** What key `e` refers to is what the view says; a live record caches a live packet. */
    ghost predicate Holds(e: Endpoint)
      reads this, index, index.flat.Values
    {
      && e in index.flat && e in view
      && var r := index.flat[e];
         && r.owner == e
         && (if r in records then
               && view[e] == Live(r.Contents()) && r.state != Init && r.recvPkt in pkts && r.recvPkt.owner == e
             else view[e] == Dangling)
    }

    /** No live record or packet is shared or lost: each belongs to the one key that refers to it. */
    ghost predicate Valid()
      reads this, index, index.crcTable, index.shards, index.flat.Values
    {
      && index.Valid()
      && view.Keys == index.flat.Keys
      && (forall e | e in index.flat :: Holds(e))
      && (forall r | r in records :: r.owner in index.flat && index.flat[r.owner] == r)
      && (forall b | b in pkts ::
            b.owner in index.flat && index.flat[b.owner] in records && index.flat[b.owner].recvPkt == b)
    }

    /** Freeing what is not live is undefined. */
    ghost method FreeRecord(r: FlowRecord)
      requires r in records
      modifies this`records
      ensures records == old(records) - {r}
    {
      records := records - {r};
    }

    ghost method FreePkt(b: PktBuf)
      requires b in pkts
      modifies this`pkts
      ensures pkts == old(pkts) - {b}
    {
      pkts := pkts - {b};
    }

    method RemoveFlow(crc: u8, key: int, r: FlowRecord, ghost e: Endpoint)
      requires Valid() && crc == CrcOf(e) && key == Key64(e) && e in index.flat && index.flat[e] == r && r in records
      modifies this`records, this`pkts, this`view, index, index.shards
      ensures Valid() && view == old(view) - {e} && index.flat == old(index.flat) - {e}
    {
      hide CrcOf, Key64, Index.Valid;
      assert Holds(e);
      index.Erase(crc, key, e);
      FreePkt(r.recvPkt);
      FreeRecord(r);
      view := view - {e};
      forall f | f in index.flat ensures Holds(f) {
        assert old(Holds(f));
      }
    }

    /** The abort of a flow in BACKEND_SYN frees its record and leaves the key. */
    method FreeFlow(r: FlowRecord, ghost e: Endpoint)
      requires Valid() && e in index.flat && index.flat[e] == r && r in records
      modifies this`records, this`pkts, this`view
      ensures Valid() && view == old(view)[e := Dangling]
    {
      hide CrcOf, Key64, Index.Valid;
      assert Holds(e);
      FreePkt(r.recvPkt);
      FreeRecord(r);
      view := view[e := Dangling];
      forall f | f in index.flat ensures Holds(f) {
        assert old(Holds(f));
      }
    }

    method SetState(r: FlowRecord, state: FlowState, ghost e: Endpoint)
      requires Valid() && e in index.flat && index.flat[e] == r && r in records && state != Init
      modifies this`view, r`state
      ensures Valid() && view == old(view)[e := Live(old(r.Contents()).(state := state))]
    {
      hide CrcOf, Key64, Index.Valid;
      assert Holds(e);
      r.state := state;
      view := view[e := Live(r.Contents())];
      forall f | f in index.flat ensures Holds(f) {
        assert old(Holds(f));
      }
    }

    /** A flow moves to another back-end, and caches the request that made it move. */
    method MoveFlow(r: FlowRecord, data: Data, p: Packet, ghost e: Endpoint)
      requires Valid() && e in index.flat && index.flat[e] == r && r in records
      modifies this`pkts, this`view, r
      ensures Valid() && view == old(view)[e := Live(Flow(BackendSyn, data, p))]
    {
      hide CrcOf, Key64, Index.Valid;
      assert Holds(e);
      r.state := BackendSyn;
      r.entryData := data;
      FreePkt(r.recvPkt);
      r.recvPkt := new PktBuf(p, e);
      pkts := pkts + {r.recvPkt};
      view := view[e := Live(r.Contents())];
      forall f | f in index.flat ensures Holds(f) {
        assert old(Holds(f));
      }
    }

    /** A new flow; its key is always absent here. */
    method InsertFlow(crc: u8, key: int, data: Data, p: Packet, ghost e: Endpoint)
      requires Valid() && crc == CrcOf(e) && key == Key64(e) && e !in index.flat
      modifies this`records, this`pkts, this`view, index, index.shards
      ensures Valid() && view == old(view)[e := Live(Flow(BackendSyn, data, p))]
      ensures e in index.flat && fresh(index.flat[e]) && index.flat == old(index.flat)[e := index.flat[e]]
    {
      hide CrcOf, Key64, Index.Valid;
      var buf := new PktBuf(p, e);
      var r := new FlowRecord(BackendSyn, data, buf, e);
      var ok := index.Insert(crc, key, r, e);
      records, pkts := records + {r}, pkts + {buf};
      view := view[e := Live(Flow(BackendSyn, data, p))];
      assert Holds(e);
      forall f | f in index.flat && f != e ensures Holds(f) {
        assert old(Holds(f));
      }
    }

    // ---- One packet ----

    /** What the worker has done since the old state is what outcome `o` says. */
    twostate predicate Did(o: Outcome, status: Status, outs: seq<Out>)
      reads this, addQueue, delQueue
    {
      match o
      case Next(t, os, ops) =>
        && status == Ok && outs == os && view == t
        && addQueue.contents == old(addQueue.contents) + AddsOf(ops)
        && delQueue.contents == old(delQueue.contents) + DelsOf(ops)
      case Stop =>
        && status == InternalError && view == old(view)
        && addQueue.contents == old(addQueue.contents) && delQueue.contents == old(delQueue.contents)
      case Undefined => true
    }

    /** The two keys of an endpoint: checksum and 64-bit index key. */
    method KeysOf(e: Endpoint) returns (crc: u8, key: int)
      requires index.Valid()
      ensures crc == CrcOf(e) && key == Key64(e)
    {
      hide Swap32, Swap16, CrcOf, IsTable;
      SwapTwice32(e.ip);
      SwapTwice16(e.port);
      var ip, port := Swap32(e.ip), Swap16(e.port);
      crc := CalculateCrc8(index.crcTable, ip, port);
      key := ip as int * 0x1_0000_0000 + port as int;
    }

    /** The removal of an OFFLOAD flow is queued before the flow goes. */
    method QueueDel(r: FlowRecord, e: Endpoint)
      modifies delQueue`contents
      ensures delQueue.contents == old(delQueue.contents) + DelsOf(DelIfOffloaded(e, r.Contents()))
    {
      NoOps();
      OneOp(DelOp(e));
      if r.state == Offload {
        delQueue.Enqueue(MyKey(e));
      }
    }

    method ClientEstablished(env: Env, p: Packet, r: FlowRecord, crc: u8, key: int)
      returns (status: Status, outs: seq<Out>)
      requires Valid() && p.h.src in index.flat && index.flat[p.h.src] == r && r in records
      requires r.state in {Complete, Offload} && crc == CrcOf(p.h.src) && key == Key64(p.h.src)
      requires !ClientStep(env, view, p, r.Contents()).Undefined?
      modifies this`records, this`pkts, this`view, index, index.shards, r, addQueue`contents, delQueue`contents
      ensures Valid() && fresh(index.flat.Values - old(index.flat.Values))
      ensures Did(ClientStep(env, old(view), p, old(r.Contents())), status, outs)
    {
      hide Valid, Index.Valid, CrcOf, Key64, Token, CString, TokenFits, RuleFor, ToBackend, AsRst;
      var k, d := p.h.src, r.entryData.dIndex;
      NoOps();
      OneOp(DelOp(k));
      DelOnlyDels(k, r.Contents());
      status, outs := Ok, [];
      if p.h.flags.rst {
        if d !in env.backends { return InternalError, []; }
        outs := outs + [Inbound(ToBackend(p, env.backends[d]))];
        QueueDel(r, k);
        RemoveFlow(crc, key, r, k);
      } else if p.h.flags.fin {
        outs := outs + [RstReply(k)];
        if d !in env.backends { return InternalError, []; }
        outs := outs + [Inbound(ToBackend(AsRst(p), env.backends[d]))];
        QueueDel(r, k);
        RemoveFlow(crc, key, r, k);
      } else if HasPayload(p) {
        status, outs := ClientRequest(env, p, r);
      } else {
        if d !in env.backends { return InternalError, []; }
        outs := outs + [Inbound(ToBackend(p, env.backends[d]))];
      }
    }

    /** A request of an established flow: its rule keeps the flow where it is or moves it. */
    method ClientRequest(env: Env, p: Packet, r: FlowRecord) returns (status: Status, outs: seq<Out>)
      requires Valid() && p.h.src in index.flat && index.flat[p.h.src] == r && r in records
      requires r.state in {Complete, Offload} && !p.h.flags.rst && !p.h.flags.fin && HasPayload(p)
      requires !ClientStep(env, view, p, r.Contents()).Undefined?
      modifies this`pkts, this`view, r, addQueue`contents, delQueue`contents
      ensures Valid()
      ensures Did(ClientStep(env, old(view), p, old(r.Contents())), status, outs)
    {
      hide Valid, Index.Valid, CrcOf, Key64, Token, CString, TokenFits;
      var k, d := p.h.src, r.entryData.dIndex;
      NoOps();
      DelOnlyDels(k, r.Contents());
      status, outs := Ok, [];
      var token := ParsePayload(p.payload);
      var url := CString(token);
      if url in env.rules {
        var newData := env.rules[url];
        if newData.dIndex != d {
          outs := outs + [RstToBackend(d)];
          QueueDel(r, k);
          outs := outs + [Syn(SynFor(p, env.backends[newData.dIndex]))];
          MoveFlow(r, newData, p, k);
        } else {
          status, outs := ClientSameBackend(env, p, r, newData);
        }
      }
    }

    /** A request for the flow's own back-end: forward it, and offload the flow or take it back. */
    method ClientSameBackend(env: Env, p: Packet, r: FlowRecord, newData: Data) returns (status: Status, outs: seq<Out>)
      requires Valid() && p.h.src in index.flat && index.flat[p.h.src] == r && r in records
      requires r.state in {Complete, Offload} && newData.dIndex == r.entryData.dIndex
      requires !p.h.flags.rst && !p.h.flags.fin && HasPayload(p) && TokenFits(p.payload)
      requires RuleFor(env, p.payload) == Some(newData)
      modifies this`view, r, addQueue`contents, delQueue`contents
      ensures Valid()
      ensures Did(ClientStep(env, old(view), p, old(r.Contents())), status, outs)
    {
      hide Valid, Index.Valid, CrcOf, Key64, Token, CString, RuleFor, TokenFits;
      var k, d := p.h.src, r.entryData.dIndex;
      NoOps();
      OneOp(DelOp(k));
      OneOp(AddOp(Pair(k, r.entryData)));
      if d !in env.backends { return InternalError, []; }
      status, outs := Ok, [Inbound(ToBackend(p, env.backends[d]))];
      if r.state == Complete && newData.offloadFlag == 1 {
        SetState(r, Offload, k);
        addQueue.Enqueue(WirePair(MyKey(k), r.entryData));
      } else if r.state == Offload && newData.offloadFlag == 0 {
        SetState(r, Complete, k);
        delQueue.Enqueue(MyKey(k));
      }
    }

    /** A client's packet while its back-end connection is being opened. */
    method ClientOpening(env: Env, p: Packet, r: FlowRecord) returns (status: Status, outs: seq<Out>)
      requires Valid() && p.h.src in index.flat && index.flat[p.h.src] == r && r in records && r.state == BackendSyn
      requires !ClientSynStep(env, view, p, r.Contents()).Undefined?
      modifies this`records, this`pkts, this`view
      ensures Valid()
      ensures Did(ClientSynStep(env, old(view), p, old(r.Contents())), status, outs)
    {
      hide Valid, Index.Valid, CrcOf, Key64;
      NoOps();
      status, outs := Ok, [];
      if p.h.flags.fin || p.h.flags.rst {
        outs := outs + [RstReply(p.h.src)];
        FreeFlow(r, p.h.src);
      } else if r.recvPkt.pkt.h.seqNo == p.h.seqNo {
        outs := outs + [Syn(SynFor(p, env.backends[r.entryData.dIndex]))];
      }
    }

    /** A back-end's packet while its connection is being opened: only its SYN-ACK counts. */
    method BackendOpening(env: Env, p: Packet, r: FlowRecord) returns (status: Status, outs: seq<Out>)
      requires Valid() && p.h.dst in index.flat && index.flat[p.h.dst] == r && r in records && r.state == BackendSyn
      requires !BackendSynStep(env, view, p, r.Contents()).Undefined?
      modifies this`view, r, addQueue`contents
      ensures Valid()
      ensures Did(BackendSynStep(env, old(view), p, old(r.Contents())), status, outs)
    {
      hide Valid, Index.Valid, CrcOf, Key64;
      var k := p.h.dst;
      NoOps();
      OneOp(AddOp(Pair(k, r.entryData)));
      status, outs := Ok, [];
      if p.h.flags == SYN_ACK {
        if r.entryData.offloadFlag == 1 {
          SetState(r, Offload, k);
          addQueue.Enqueue(WirePair(MyKey(k), r.entryData));
        } else {
          SetState(r, Complete, k);
        }
        outs := outs + [Cached(ToBackend(r.recvPkt.pkt, env.backends[r.entryData.dIndex]))];
      }
    }

    method BackendEstablished(env: Env, p: Packet, r: FlowRecord, crc: u8, key: int)
      returns (status: Status, outs: seq<Out>)
      requires Valid() && p.h.dst in index.flat && index.flat[p.h.dst] == r && r in records
      requires r.state in {Complete, Offload} && crc == CrcOf(p.h.dst) && key == Key64(p.h.dst)
      modifies this`records, this`pkts, this`view, index, index.shards, delQueue`contents
      ensures Valid() && fresh(index.flat.Values - old(index.flat.Values))
      ensures Did(BackendStep(env, old(view), p, old(r.Contents())), status, outs)
    {
      hide Valid, Index.Valid, CrcOf, Key64;
      var k := p.h.dst;
      NoOps();
      DelOnlyDels(k, r.Contents());
      status, outs := Ok, [];
      if p.h.flags.rst {
        outs := outs + [Outbound(FromVirtual(p, env.vip))];
        QueueDel(r, k);
        RemoveFlow(crc, key, r, k);
      } else if p.h.flags.fin {
        outs := outs + [RstReply(p.h.src)];
        outs := outs + [Outbound(FromVirtual(AsRst(p), env.vip))];
        QueueDel(r, k);
        RemoveFlow(crc, key, r, k);
      } else {
        outs := outs + [Outbound(FromVirtual(p, env.vip))];
      }
    }

    /** A packet that neither lookup found. */
    method NewFlow(env: Env, p: Packet, crc: u8, key: int) returns (status: Status, outs: seq<Out>)
      requires Valid() && p.h.src !in index.flat && crc == CrcOf(p.h.src) && key == Key64(p.h.src)
      requires !NewStep(env, view, p).Undefined?
      modifies this`records, this`pkts, this`view, index, index.shards
      ensures Valid() && fresh(index.flat.Values - old(index.flat.Values))
      ensures Did(NewStep(env, old(view), p), status, outs)
    {
      hide Index.Valid, CrcOf, Key64, Token, CString, TokenFits, Holds;
      NoOps();
      status, outs := Ok, [];
      if !HasPayload(p) { return; }
      var token := ParsePayload(p.payload);
      var url := CString(token);
      if url in env.rules {
        var newData := env.rules[url];
        outs := outs + [Syn(SynFor(p, env.backends[newData.dIndex]))];
        InsertFlow(crc, key, newData, p, p.h.src);
      }
    }

    lemma HeldEntry(e: Endpoint)
      requires Valid()
      ensures e in view <==> e in index.flat
      ensures e in index.flat ==> (view[e].Live? <==> index.flat[e] in records)
      ensures e in index.flat && view[e].Live? ==>
                view[e].flow == index.flat[e].Contents() && view[e].flow.state != Init
    {
      if e in index.flat { assert Holds(e); }
    }

    /** The lookup by destination, and what follows when it finds nothing. */
    method LookupDst(env: Env, p: Packet, srcCrc: u8, srcKey: int) returns (status: Status, outs: seq<Out>)
      requires Valid() && p.h.src !in index.flat && srcCrc == CrcOf(p.h.src) && srcKey == Key64(p.h.src)
      requires !DstStep(env, view, p).Undefined?
      modifies this`records, this`pkts, this`view, index, index.shards, index.flat.Values
      modifies addQueue`contents, delQueue`contents
      ensures Valid() && fresh(index.flat.Values - old(index.flat.Values))
      ensures Did(DstStep(env, old(view), p), status, outs)
    {
      hide Valid, Index.Valid, CrcOf, Key64, BackendStep, BackendSynStep, NewStep, Step;
      IndexValid();
      HeldEntry(p.h.dst);
      var dstCrc, dstKey := KeysOf(p.h.dst);
      var found := index.Find(dstCrc, dstKey, p.h.dst);
      if found.Some? {
        var r := found.value;
        if r.state == BackendSyn {
          status, outs := BackendOpening(env, p, r);
        } else {
          status, outs := BackendEstablished(env, p, r, dstCrc, dstKey);
        }
      } else {
        status, outs := NewFlow(env, p, srcCrc, srcKey);
      }
    }

    /** One iteration of the loop: lookup by source, then by destination, then a new flow. */
    method ProcessOne(env: Env, p: Packet) returns (status: Status, outs: seq<Out>)
      requires Valid() && !Step(env, view, p).Undefined?
      modifies this`records, this`pkts, this`view, index, index.shards, index.flat.Values
      modifies addQueue`contents, delQueue`contents
      ensures Valid() && fresh(index.flat.Values - old(index.flat.Values))
      ensures Did(Step(env, old(view), p), status, outs)
    {
      hide Valid, Index.Valid, CrcOf, Key64, ClientStep, ClientSynStep, DstStep;
      if !p.isIpv4 || !p.isTcp {
        NoOps();
        return Ok, [];
      }
      IndexValid();
      HeldEntry(p.h.src);
      var srcCrc, srcKey := KeysOf(p.h.src);
      var found := index.Find(srcCrc, srcKey, p.h.src);
      if found.Some? {
        var r := found.value;
        if r.state == BackendSyn {
          status, outs := ClientOpening(env, p, r);
        } else {
          status, outs := ClientEstablished(env, p, r, srcCrc, srcKey);
        }
      } else {
        status, outs := LookupDst(env, p, srcCrc, srcKey);
      }
    }

    lemma IndexValid()
      requires Valid()
      ensures index.Valid()
    {
    }

    // ---- A burst ----

    /** The outputs of one packet go to the next places of the array. */
    method Emit(sendPkts: array<Out>, sendSize: nat, outs: seq<Out>) returns (newSize: nat)
      requires |outs| <= 2 && sendSize + 2 <= sendPkts.Length
      modifies sendPkts
      ensures newSize == sendSize + |outs| && sendPkts[..newSize] == old(sendPkts[..sendSize]) + outs
    {
      newSize := sendSize;
      if |outs| >= 1 {
        sendPkts[newSize] := outs[0];
        newSize := newSize + 1;
      }
      if |outs| >= 2 {
        sendPkts[newSize] := outs[1];
        newSize := newSize + 1;
      }
    }

    /** What burst result `b` says the queues hold since the old state. */
    twostate predicate Queued(ops: seq<Op>)
      reads addQueue, delQueue
    {
      && addQueue.contents == old(addQueue.contents) + AddsOf(ops)
      && delQueue.contents == old(delQueue.contents) + DelsOf(ops)
    }

    /** The loop over a burst. Packets to send fill an array with two places for every packet received;
        on the way out they are transmitted and the other places freed; an early return sends nothing. */
    method ProcessPkts(env: Env, recvPkts: seq<Packet>) returns (status: Status, sent: seq<Out>, freed: seq<Out>)
      requires Valid() && !Burst(env, view, recvPkts).Broken?
      modifies this`records, this`pkts, this`view, index, index.shards, index.flat.Values
      modifies addQueue`contents, delQueue`contents
      ensures Valid()
      ensures match Burst(env, old(view), recvPkts)
              case Sent(t, outs, ops) =>
                status == Ok && view == t && sent == outs && |sent| + |freed| == 2 * |recvPkts| && Queued(ops)
              case Stopped(t, ops) => status == InternalError && view == t && sent == [] && Queued(ops)
              case Broken => true
    {
      hide Valid, Index.Valid, Step, Burst, AddsOf, DelsOf;
      var n := |recvPkts|;
      var sendPkts := new Out[2 * n](_ => Blank);
      var sendSize: nat, i: nat := 0, 0;
      NoOps();
      BurstStart(env, view);
      assert recvPkts[..0] == [];
      ghost var ops := [];
      while i < n
        invariant i <= n && sendSize <= 2 * i
        invariant Valid() && fresh(index.flat.Values - old(index.flat.Values))
        invariant Burst(env, old(view), recvPkts[..i]) == Sent(view, sendPkts[..sendSize], ops)
        invariant Queued(ops)
      {
        BurstNext(env, old(view), recvPkts, i);
        ghost var o := Step(env, view, recvPkts[i]);
        var outs;
        status, outs := ProcessOne(env, recvPkts[i]);
        if status != Ok {
          return status, [], [];
        }
        StepSize(env, Burst(env, old(view), recvPkts[..i]).table, recvPkts[i]);
        OneMoreOp(ops, o.ops);
        ops := ops + o.ops;
        sendSize := Emit(sendPkts, sendSize, outs);
        i := i + 1;
      }
      assert recvPkts[..n] == recvPkts;
      status, sent, freed := Ok, sendPkts[..sendSize], sendPkts[sendSize..];
    }
  }

  lemma NoOps()
    ensures AddsOf([]) == [] && DelsOf([]) == []
  {
  }

  lemma OneOp(op: Op)
    ensures AddsOf([op]) == match op case AddOp(pr) => [WirePair(MyKey(pr.key), pr.data)] case DelOp(_) => []
    ensures DelsOf([op]) == match op case AddOp(_) => [] case DelOp(k) => [MyKey(k)]
  {
    assert [op][..0] == [];
  }

  lemma DelOnlyDels(k: Endpoint, f: Flow)
    ensures AddsOf(DelIfOffloaded(k, f)) == []
  {
    OneOp(DelOp(k));
  }
}
