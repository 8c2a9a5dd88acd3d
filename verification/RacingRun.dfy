/** A run in which no more than one operation of a kind ever waits, and a removal still overtakes its addition:
    a worker handles a SYN-ACK and a RST between the two dequeues of one tick. */
module RacingRun {
  import opened Words
  import opened Packets
  import opened FrontEnd
  import opened Publication
  import opened OffloadWire
  import opened OffloadStream
  import opened EntryController
  import opened PktProcessor
  import opened Crc8
  import opened Pipeline
  import opened OvertakingRun

  function Key(): WireKey {
    MyKey(Client(0))
  }

  function Added(): WirePair {
    WirePair(Key(), DATA)
  }

  function Messages(): seq<WireMsg> {
    [WireMsg([], [Key()])] + [WireMsg([Added()], [])]
  }

  function Opened(): Flow {
    Flow(Offload, DATA, Request(0))
  }

  /** The flow once its request has been handled. */
  function Requested(): Table {
    Step(ENV, map[], Request(0)).table
  }

  const EMPTY: Table := map[]

  /** No more than one operation of a kind waits. */
  predicate Calm(c: Option<Concrete>) {
    c.Some? && |Unsent(c.value)| <= 1 && |c.value.dels| <= 1
  }

  ghost predicate Quiet(vs: seq<Move>) {
    forall i | 0 <= i <= |vs| :: Calm(RunAll(vs[..i]))
  }

  lemma QuietStart()
    ensures Quiet([]) && RunAll([]) == Some(Start())
  {
    hide Perform;
    var none: seq<Move> := [];
    assert none[..0] == none;
  }

  lemma RunSnoc(vs: seq<Move>, c: Concrete, v: Move)
    requires RunAll(vs) == Some(c)
    ensures RunAll(vs + [v]) == Perform(c, v)
  {
    hide Perform;
    assert (vs + [v])[..|vs|] == vs;
  }

  lemma QuietSnoc(vs: seq<Move>, c: Concrete, v: Move, c': Concrete)
    requires Quiet(vs) && RunAll(vs) == Some(c) && Perform(c, v) == Some(c') && Calm(Some(c'))
    ensures Quiet(vs + [v]) && RunAll(vs + [v]) == Some(c')
  {
    hide Perform, RunAll, Calm;
    var all := vs + [v];
    RunSnoc(vs, c, v);
    forall i | 0 <= i <= |all| ensures Calm(RunAll(all[..i])) {
      if i <= |vs| {
        assert all[..i] == vs[..i];
      } else {
        assert all[..i] == all;
      }
    }
  }

  lemma Steps()
    ensures Step(ENV, EMPTY, Request(0)).Next? && Step(ENV, EMPTY, Request(0)).ops == []
    ensures var r := Step(ENV, Requested(), SynAck(0));
            r.Next? && r.ops == [AddOp(Pair(Client(0), DATA))] && r.table == EMPTY[Client(0) := Live(Opened())]
    ensures var r := Step(ENV, EMPTY[Client(0) := Live(Opened())], AsRst(Request(0)));
            r.Next? && r.ops == [DelOp(Client(0))] && r.table == EMPTY
  {
    OpenOne(EMPTY, 0);
    var t := EMPTY[Client(0) := Live(Opened())];
    assert t - {Client(0)} == EMPTY;
  }

  function Live1(): Table {
    EMPTY[Client(0) := Live(Opened())]
  }

  function Asked(): Concrete {
    Start().(view := Requested())
  }

  /** Between the dequeues: no addition has been taken ... */
  function Half(): Concrete {
    Asked().(taken := Some([]))
  }

  /** ... then one is queued, and its removal. The tick takes the removal and leaves the addition behind. */
  function Torn(): Concrete {
    Concrete(Live1(), [Added()], [], Some([]), [], map[])
  }

  function Closed(): Concrete {
    Concrete(EMPTY, [Added()], [Key()], Some([]), [], map[])
  }

  function SentRemoval(): Concrete {
    Concrete(EMPTY, [Added()], [], None, [WireMsg([], [Key()])], map[])
  }

  function Late(): Concrete {
    Concrete(EMPTY, [], [], Some([Added()]), [WireMsg([], [Key()])], map[])
  }

  function Sent(): Concrete {
    Concrete(EMPTY, [], [], None, Messages(), map[])
  }

  lemma Ask()
    ensures Perform(Start(), Work(ENV, Request(0))) == Some(Asked())
  {
    hide Step;
    Steps();
    NoOps();
    var none: seq<WirePair>, noKeys: seq<WireKey> := [], [];
    assert none + none == none && noKeys + noKeys == noKeys;
    assert Worked(Start(), Step(ENV, EMPTY, Request(0))) == Asked();
  }

  lemma Answer()
    ensures Perform(Half(), Work(ENV, SynAck(0))) == Some(Torn())
  {
    hide Step, CrcOf, AddsOf, DelsOf;
    Steps();
    OneOp(AddOp(Pair(Client(0), DATA)));
    var none: seq<WirePair>, noKeys: seq<WireKey> := [], [];
    assert none + [Added()] == [Added()] && noKeys + noKeys == noKeys;
  }

  lemma Reset()
    ensures Perform(Torn(), Work(ENV, AsRst(Request(0)))) == Some(Closed())
  {
    hide Step, CrcOf, AddsOf, DelsOf, Requested;
    Steps();
    OneOp(DelOp(Client(0)));
    var none: seq<WirePair>, noKeys: seq<WireKey> := [], [];
    assert [Added()] + none == [Added()] && noKeys + [Key()] == [Key()];
  }

  lemma TakeNothing()
    ensures Perform(Asked(), TakeAdds) == Some(Half())
  {
    hide Step, Requested;
    var none: seq<WirePair> := [];
    assert FirstOf(none) == [] && none[0..] == [];
  }

  lemma TakeRemoval()
    ensures Perform(Closed(), TakeDels) == Some(SentRemoval())
  {
    hide Step, Key, Added;
    var none: seq<WireMsg> := [];
    assert FirstOf([Key()]) == [Key()] && [Key()][1..] == [];
    assert MessageOf(Closed()) == WireMsg([], [Key()]);
    assert none + [WireMsg([], [Key()])] == [WireMsg([], [Key()])];
  }

  lemma TakeAddition()
    ensures Perform(SentRemoval(), TakeAdds) == Some(Late())
  {
    hide Step, Key, Added;
    assert FirstOf([Added()]) == [Added()] && [Added()][1..] == [];
  }

  lemma TakeNoRemoval()
    ensures Perform(Late(), TakeDels) == Some(Sent())
  {
    hide Step, Key, Added;
    var none: seq<WireKey> := [];
    assert FirstOf(none) == [] && none[0..] == [];
    assert MessageOf(Late()) == WireMsg([Added()], []);
  }

  function Gone(): Concrete {
    AfterReceipt(Sent(), Messages(), Messages())
  }

  lemma Receipt()
    ensures Countable(Messages())
    ensures Perform(Sent(), Receive(Images(Messages()), Messages(), [0])) == Some(Gone())
  {
    hide Step, Key, Added, Images, Decode, Encodes, ApplyAll, StripAll, Concat;
    ImagesEncode(Messages());
    StreamRoundTripExactly(Images(Messages()), Messages(), [0]);
  }

  /** The second message publishes the flow that is gone. */
  lemma Published()
    ensures Client(0) in ApplyAll(map[], StripAll(Messages()))
  {
    hide Key, Added, Step, Client;
    var k := Client(0);
    var m0, m1 := WireMsg([], [Key()]), WireMsg([Added()], []);
    assert StripKey(Key()) == k && Strip(m1) == Msg([Pair(k, DATA)], []) by { Stripped(); }
    StripOne(m0);
    StripOne(m1);
    StripAllAppend([m0], [m1]);
    ApplyAllAppend(map[], [Strip(m0)], [Strip(m1)]);
    var st := ApplyAll(map[], [Strip(m0)]);
    assert [Strip(m1)][1..] == [] && ApplyAll(st, [Strip(m1)]) == Apply(st, Strip(m1));
    AddAllAt(st, [Pair(k, DATA)], k);
    assert [Pair(k, DATA)][0].key == k;
    DelAllAt(AddAll(st, [Pair(k, DATA)]), [], k);
  }

  lemma Stripped()
    ensures StripKey(Key()) == Client(0) && Strip(WireMsg([Added()], [])) == Msg([Pair(Client(0), DATA)], [])
  {
    hide CrcOf;
  }

  lemma Unsafe()
    ensures Client(0) in Gone().entries && Client(0) !in Gone().view && !Safe(Abstract(Gone()), Client(0))
  {
    hide Messages, Client, ApplyAll, Key, Added;
    Published();
    assert Messages()[|Messages()|..] == [];
  }

  /** A flow that is gone is published, and no removal is pending. */
  lemma RacingCounterexample() returns (vs: seq<Move>)
    ensures Quiet(vs) && RunAll(vs).Some? && !Safe(Abstract(RunAll(vs).value), Client(0))
    ensures Client(0) in RunAll(vs).value.entries && Client(0) !in RunAll(vs).value.view
  {
    hide Step, Perform, RunAll, Quiet, Key, Added, Messages, Client, ApplyAll, StripAll, Requested, Request, SynAck,
        Images, Abstract, Safe;
    QuietStart();
    Ask();
    QuietSnoc([], Start(), Work(ENV, Request(0)), Asked());
    vs := [] + [Work(ENV, Request(0))];
    TakeNothing();
    QuietSnoc(vs, Asked(), TakeAdds, Half());
    vs := vs + [TakeAdds];
    Answer();
    QuietSnoc(vs, Half(), Work(ENV, SynAck(0)), Torn());
    vs := vs + [Work(ENV, SynAck(0))];
    Reset();
    QuietSnoc(vs, Torn(), Work(ENV, AsRst(Request(0))), Closed());
    vs := vs + [Work(ENV, AsRst(Request(0)))];
    TakeRemoval();
    QuietSnoc(vs, Closed(), TakeDels, SentRemoval());
    vs := vs + [TakeDels];
    TakeAddition();
    QuietSnoc(vs, SentRemoval(), TakeAdds, Late());
    vs := vs + [TakeAdds];
    TakeNoRemoval();
    QuietSnoc(vs, Late(), TakeDels, Sent());
    vs := vs + [TakeDels];
    Receipt();
    QuietSnoc(vs, Sent(), Receive(Images(Messages()), Messages(), [0]), Gone());
    vs := vs + [Receive(Images(Messages()), Messages(), [0])];
    Unsafe();
  }
}
