/** The bytes, arrays and queues of the publication pipeline carry out the steps of its model. */
module Pipeline {
  import opened Words
  import opened Packets
  import opened FrontEnd
  import opened Publication
  import opened OffloadWire
  import opened OffloadStream
  import opened EntryController
  import opened PktProcessor
  import opened Crc8

  /** The flows, both queues in dequeue order, the additions a tick has taken and not yet sent, the messages
      sent and not received, the switch table. */
  datatype Concrete = Concrete(
    view: Table,
    adds: seq<WirePair>,
    dels: seq<WireKey>,
    taken: Option<seq<WirePair>>,
    wire: seq<WireMsg>,
    entries: SwitchTable)

  /** Additions not yet sent: those a tick has taken still count as queued. */
  function Unsent(c: Concrete): seq<WirePair> {
    if c.taken.Some? then c.taken.value + c.adds else c.adds
  }

  function Abstract(c: Concrete): State {
    State(c.view, multiset(StripPairs(Unsent(c))), multiset(StripKeys(c.dels)), StripAll(c.wire), c.entries)
  }

  lemma StripPairsAppend(a: seq<WirePair>, b: seq<WirePair>)
    ensures StripPairs(a + b) == StripPairs(a) + StripPairs(b)
  {
  }

  lemma StripKeysAppend(a: seq<WireKey>, b: seq<WireKey>)
    ensures StripKeys(a + b) == StripKeys(a) + StripKeys(b)
  {
  }

  lemma {:induction false} StripAllAppend(a: seq<WireMsg>, b: seq<WireMsg>)
    ensures StripAll(a + b) == StripAll(a) + StripAll(b)
    decreases |a|
  {
    hide Strip;
    if a == [] {
      assert a + b == b;
    } else {
      assert (a + b)[1..] == a[1..] + b;
      StripAllAppend(a[1..], b);
    }
  }

  lemma {:induction false} StripAllSize(a: seq<WireMsg>)
    ensures |StripAll(a)| == |a|
  {
    if a != [] { StripAllSize(a[1..]); }
  }

  /** What a worker does with a packet: state and queues after its step, or as they were after an early return. */
  function Worked(c: Concrete, o: Outcome): Concrete {
    match o
    case Next(t, _, ops) => c.(view := t, adds := c.adds + AddsOf(ops), dels := c.dels + DelsOf(ops))
    case _ => c
  }

  lemma ProcessRefines(c: Concrete, env: Env, p: Packet)
    requires !Step(env, c.view, p).Undefined?
    ensures Enabled(Abstract(c), Process(env, p))
    ensures Abstract(Worked(c, Step(env, c.view, p))) == Do(Abstract(c), Process(env, p))
  {
    hide Step, AddsOf, DelsOf;
    var o := Step(env, c.view, p);
    if o.Next? {
      StepSize(env, c.view, p);
      StripPairsAppend(Unsent(c), AddsOf(o.ops));
      UnsentGrows(c, AddsOf(o.ops));
      StripKeysAppend(c.dels, DelsOf(o.ops));
      if o.ops == [] {
        NoOps();
        assert Unsent(c) + [] == Unsent(c) && c.dels + [] == c.dels;
      } else {
        var op := o.ops[0];
        assert o.ops == [op] && [op][1..] == [];
        OneQueued(Abstract(c), o.table, op);
      }
    }
  }

  lemma UnsentGrows(c: Concrete, more: seq<WirePair>)
    ensures Unsent(c.(adds := c.adds + more)) == Unsent(c) + more
  {
    if c.taken.Some? { assert c.taken.value + (c.adds + more) == c.taken.value + c.adds + more; }
  }

  lemma OneQueued(s: State, t: Table, op: Op)
    ensures Enqueue(s, t, [op]) == s.(flows := t,
              addQ := s.addQ + multiset(StripPairs(AddsOf([op]))), delQ := s.delQ + multiset(StripKeys(DelsOf([op]))))
  {
    hide Step, AddsOf, DelsOf, CrcOf;
    OneOp(op);
    OneEnqueued(s, t, op);
    if op.AddOp? {
      assert StripPairs([WirePair(MyKey(op.pair.key), op.pair.data)]) == [op.pair];
      assert StripKeys([]) == [];
    } else {
      assert StripKeys([MyKey(op.key)]) == [op.key];
      assert StripPairs([]) == [];
    }
  }

  lemma OneEnqueued(s: State, t: Table, op: Op)
    ensures op.AddOp? ==>
              Enqueue(s, t, [op]) == s.(flows := t, addQ := s.addQ + multiset([op.pair]), delQ := s.delQ + multiset([]))
    ensures op.DelOp? ==>
              Enqueue(s, t, [op]) == s.(flows := t, addQ := s.addQ + multiset([]), delQ := s.delQ + multiset([op.key]))
  {
    hide Step;
    var noPairs: seq<Pair>, noKeys: seq<Endpoint> := [], [];
    assert s.addQ + multiset(noPairs) == s.addQ && s.delQ + multiset(noKeys) == s.delQ;
    assert [op][1..] == [];
    if op.AddOp? {
      assert multiset([op.pair]) == multiset{op.pair};
    } else {
      assert multiset([op.key]) == multiset{op.key};
    }
  }

  /** The additions taken, with a batch off the front of the removals. */
  lemma TickRefines(c: Concrete, m: WireMsg)
    requires c.taken == Some(m.adds) && m.dels <= c.dels && |m.adds| <= BATCH && |m.dels| <= BATCH
    ensures var c' := c.(dels := c.dels[|m.dels|..], taken := None,
                         wire := if m.adds == [] && m.dels == [] then c.wire else c.wire + [m]);
            var a := Tick(Strip(m).adds, Strip(m).dels);
            Enabled(Abstract(c), a) && Abstract(c') == Do(Abstract(c), a)
  {
    hide Step, Do, Enabled, StripAll, StripPairs, StripKeys;
    var dels := c.dels[|m.dels|..];
    assert c.dels == m.dels + dels;
    StripPairsAppend(m.adds, c.adds);
    StripKeysAppend(m.dels, dels);
    StripAllAppend(c.wire, [m]);
    StripOne(m);
    TickTakes(Abstract(c), Strip(m).adds, Strip(m).dels, multiset(StripPairs(c.adds)), multiset(StripKeys(dels)));
  }

  lemma StripOne(m: WireMsg)
    ensures StripAll([m]) == [Strip(m)]
    ensures Strip(m).adds == [] && Strip(m).dels == [] <==> m.adds == [] && m.dels == []
  {
    assert [m][1..] == [];
  }

  /** What whole messages, received together, decode to. */
  function AfterReceipt(c: Concrete, ms: seq<WireMsg>, decoded: seq<WireMsg>): Concrete
    requires |ms| <= |c.wire|
  {
    c.(wire := c.wire[|ms|..], entries := ApplyAll(c.entries, StripAll(decoded)))
  }

  /** The bytes of the next messages sent, received together, are what is delivered next. */
  lemma DeliverRefines(c: Concrete, bs: seq<seq<u8>>, ms: seq<WireMsg>, rest: seq<u8>)
    requires Arrives(c, bs, ms, rest)
    ensures Decode(Concat(bs) + rest, 0, |Concat(bs)|) == Decoded(ms)
    ensures Enabled(Abstract(c), Deliver(|ms|)) && Abstract(AfterReceipt(c, ms, ms)) == Do(Abstract(c), Deliver(|ms|))
  {
    hide Step, Decode, Concat, Encodes, ApplyAll, Strip, StripAll;
    var later := c.wire[|ms|..];
    assert c.wire == ms + later;
    StripAllAppend(ms, later);
    StripAllSize(ms);
    StreamRoundTripExactly(bs, ms, rest);
    var all := StripAll(c.wire);
    assert all[..|ms|] == StripAll(ms) && all[|ms|..] == StripAll(later);
  }

  // ---- Whole runs ----

  /** The pipeline's own steps. Dequeue order across workers is arbitrary: it may change until a batch is taken.
      A tick dequeues twice, and workers run in between; a receive is what ticks have sent, put together, with
      whatever the buffer holds behind it. */
  datatype Move =
    | Work(env: Env, p: Packet)
    | Reorder(adds: seq<WirePair>, dels: seq<WireKey>)
    | TakeAdds
    | TakeDels
    | Receive(bs: seq<seq<u8>>, ms: seq<WireMsg>, rest: seq<u8>)

  function FirstOf<T>(q: seq<T>): (batch: seq<T>)
    ensures batch <= q && |batch| <= BATCH
  {
    q[..Min(BATCH, |q|)]
  }

  /** The message of a tick, once it takes the removals. */
  function MessageOf(c: Concrete): (m: WireMsg)
    requires c.taken.Some?
  {
    WireMsg(c.taken.value, FirstOf(c.dels))
  }

  /** The bytes of the messages sent next, with no message type behind them. */
  predicate Arrives(c: Concrete, bs: seq<seq<u8>>, ms: seq<WireMsg>, rest: seq<u8>) {
    ms <= c.wire && Encodes(bs, ms) && rest != [] && rest[0] != OFFLOAD_ENTRIES
  }

  function Perform(c: Concrete, v: Move): Option<Concrete> {
    match v
    case Work(env, p) =>
      var o := Step(env, c.view, p);
      if o.Undefined? then None else Some(Worked(c, o))
    case Reorder(adds, dels) =>
      if multiset(adds) == multiset(c.adds) && multiset(dels) == multiset(c.dels) then
        Some(c.(adds := adds, dels := dels))
      else None
    case TakeAdds =>
      if c.taken.Some? then None
      else var batch := FirstOf(c.adds); Some(c.(adds := c.adds[|batch|..], taken := Some(batch)))
    case TakeDels =>
      if c.taken.None? || |c.taken.value| > BATCH then None
      else
        var m := MessageOf(c);
        Some(c.(dels := c.dels[|m.dels|..], taken := None,
                wire := if m.adds == [] && m.dels == [] then c.wire else c.wire + [m]))
    case Receive(bs, ms, rest) =>
      if !Arrives(c, bs, ms, rest) then None
      else
        match Decode(Concat(bs) + rest, 0, |Concat(bs)|)
        case OutOfBounds => None
        case Decoded(decoded) => Some(AfterReceipt(c, ms, decoded))
  }

  function Start(): Concrete {
    Concrete(map[], [], [], None, [], map[])
  }

  function RunAll(vs: seq<Move>): Option<Concrete> {
    if vs == [] then Some(Start())
    else match RunAll(vs[..|vs| - 1]) case None => None case Some(c) => Perform(c, vs[|vs| - 1])
  }

  /** The action of the publication model that a move carries out: none for a reordering, a tick when it sends. */
  function ActionOf(c: Concrete, v: Move): Option<Action> {
    match v
    case Work(env, p) => Some(Process(env, p))
    case Reorder(_, _) => None
    case TakeAdds => None
    case TakeDels => if c.taken.Some? then Some(Tick(Strip(MessageOf(c)).adds, Strip(MessageOf(c)).dels)) else None
    case Receive(_, ms, _) => Some(Deliver(|ms|))
  }

  /** The run of the publication model that a run of the pipeline carries out. */
  function ActionsOf(vs: seq<Move>): seq<Action> {
    if vs == [] then []
    else
      var before := vs[..|vs| - 1];
      match RunAll(before)
      case None => ActionsOf(before)
      case Some(c) =>
        match ActionOf(c, vs[|vs| - 1])
        case None => ActionsOf(before)
        case Some(a) => ActionsOf(before) + [a]
  }

  function Mapped<T, U>(f: T -> U, a: seq<T>): (r: seq<U>)
    ensures |r| == |a|
  {
    seq(|a|, i requires 0 <= i < |a| => f(a[i]))
  }

  /** Taking an element to the front. */
  lemma InFront<T>(low: seq<T>, x: T, high: seq<T>)
    ensures multiset(low + [x] + high) == multiset{x} + multiset(low + high)
  {
    assert multiset(low + [x] + high) == multiset(low) + multiset{x} + multiset(high);
    assert multiset(low + high) == multiset(low) + multiset(high);
  }

  lemma Cancel<T>(x: T, a: multiset<T>, b: multiset<T>)
    requires multiset{x} + a == multiset{x} + b
    ensures a == b
  {
    assert a == (multiset{x} + a) - multiset{x} && b == (multiset{x} + b) - multiset{x};
  }

  lemma MappedParts<T, U>(f: T -> U, low: seq<T>, x: T, high: seq<T>)
    ensures multiset(Mapped(f, low + [x] + high)) == multiset{f(x)} + multiset(Mapped(f, low + high))
  {
    assert Mapped(f, low + [x] + high) == Mapped(f, low) + [f(x)] + Mapped(f, high);
    assert Mapped(f, low + high) == Mapped(f, low) + Mapped(f, high);
    InFront(Mapped(f, low), f(x), Mapped(f, high));
  }

  /** Sequences that are permutations of each other are so after a mapping. */
  lemma {:induction false} MappedBag<T, U>(f: T -> U, a: seq<T>, b: seq<T>)
    requires multiset(a) == multiset(b)
    ensures multiset(Mapped(f, a)) == multiset(Mapped(f, b))
    decreases |a|
  {
    hide Mapped;
    if a == [] {
      assert |b| == |multiset(b)| == 0;
    } else {
      var x, none, rest := a[0], a[..0], a[1..];
      assert x in multiset(b);
      var i :| 0 <= i < |b| && b[i] == x;
      var low, high := b[..i], b[i + 1..];
      assert a == none + [x] + rest && none + rest == rest && b == low + [x] + high;
      InFront(none, x, rest);
      InFront(low, x, high);
      Cancel(x, multiset(rest), multiset(low + high));
      MappedBag(f, rest, low + high);
      MappedParts(f, none, x, rest);
      MappedParts(f, low, x, high);
    }
  }

  lemma Reordered(adds: seq<WirePair>, adds': seq<WirePair>, dels: seq<WireKey>, dels': seq<WireKey>)
    requires multiset(adds') == multiset(adds) && multiset(dels') == multiset(dels)
    ensures multiset(StripPairs(adds')) == multiset(StripPairs(adds))
    ensures multiset(StripKeys(dels')) == multiset(StripKeys(dels))
  {
    var f, g := (p: WirePair) => Pair(StripKey(p.key), p.data), (k: WireKey) => StripKey(k);
    MappedBag(f, adds', adds);
    MappedBag(g, dels', dels);
    assert StripPairs(adds') == Mapped(f, adds') && StripPairs(adds) == Mapped(f, adds);
    assert StripKeys(dels') == Mapped(g, dels') && StripKeys(dels) == Mapped(g, dels);
  }

  /** One move carries out its action. */
  lemma MoveRefines(c: Concrete, v: Move)
    requires Perform(c, v).Some?
    ensures var s, s', a := Abstract(c), Abstract(Perform(c, v).value), ActionOf(c, v);
            if a.None? then s' == s else Enabled(s, a.value) && s' == Do(s, a.value)
  {
    hide Step, Do, Enabled, Decode, StripPairs, StripKeys, Strip, ApplyAll, Encodes, Concat;
    match v
    case Work(env, p) => ProcessRefines(c, env, p);
    case Reorder(adds, dels) =>
      assert multiset(Unsent(c.(adds := adds))) == multiset(Unsent(c));
      Reordered(Unsent(c), Unsent(c.(adds := adds)), c.dels, dels);
    case TakeAdds =>
      assert FirstOf(c.adds) + c.adds[|FirstOf(c.adds)|..] == c.adds;
    case TakeDels => TickRefines(c, MessageOf(c));
    case Receive(bs, ms, rest) => DeliverRefines(c, bs, ms, rest);
  }

  /** Every run of the pipeline is a run of the publication model. */
  lemma {:induction false} RunRefines(vs: seq<Move>)
    requires RunAll(vs).Some?
    ensures Exec(ActionsOf(vs)) == Some(Abstract(RunAll(vs).value))
  {
    hide Perform, Do, Enabled, ActionOf;
    if vs != [] {
      var before, v := vs[..|vs| - 1], vs[|vs| - 1];
      RunRefines(before);
      var c := RunAll(before).value;
      MoveRefines(c, v);
      if ActionOf(c, v).Some? { ExecSnoc(ActionsOf(before), ActionOf(c, v).value); }
    } else {
      NothingRun();
    }
  }

  lemma NothingRun()
    ensures Abstract(Start()) == State(map[], multiset{}, multiset{}, [], map[])
  {
    assert StripPairs([]) == [] && StripKeys([]) == [];
  }

  /** The removals a tick takes and the additions it leaves behind have no key in common. */
  ghost predicate TakesCleanly(c: Concrete) {
    forall i, j | 0 <= i < |FirstOf(c.dels)| && 0 <= j < |c.adds| ::
      StripKey(FirstOf(c.dels)[i]) != StripKey(c.adds[j].key)
  }

  /** Every tick of the run takes its removals cleanly. */
  ghost predicate AlwaysClean(vs: seq<Move>) {
    forall i {:trigger vs[i]} | 0 <= i < |vs| && vs[i].TakeDels? && RunAll(vs[..i]).Some? ::
      TakesCleanly(RunAll(vs[..i]).value)
  }

  lemma AlwaysCleanPrefix(vs: seq<Move>)
    requires AlwaysClean(vs) && vs != []
    ensures AlwaysClean(vs[..|vs| - 1])
    ensures vs[|vs| - 1].TakeDels? && RunAll(vs[..|vs| - 1]).Some? ==> TakesCleanly(RunAll(vs[..|vs| - 1]).value)
  {
    hide RunAll, TakesCleanly;
    var n := |vs| - 1;
    assert vs[n] == vs[|vs| - 1];
    forall i | 0 <= i < n && vs[..n][i].TakeDels? && RunAll(vs[..n][..i]).Some?
      ensures TakesCleanly(RunAll(vs[..n][..i]).value)
    {
      assert vs[..n][..i] == vs[..i] && vs[..n][i] == vs[i];
    }
  }

  /** A clean tick overtakes nothing. */
  lemma CleanOvertakesNothing(c: Concrete, k: Endpoint)
    requires c.taken.Some? && TakesCleanly(c)
    ensures !Overtakes(Abstract(c), Strip(MessageOf(c)).adds, Strip(MessageOf(c)).dels, k)
  {
    hide StripAll, FirstOf;
    var m, left := MessageOf(c), multiset(StripPairs(c.adds));
    StripPairsAppend(m.adds, c.adds);
    assert multiset(StripPairs(m.adds)) + left - multiset(StripPairs(m.adds)) == left;
    if k in StripKeys(m.dels) {
      var i :| 0 <= i < |m.dels| && StripKey(m.dels[i]) == k;
      forall pr | pr in left ensures pr.key != k {
        assert pr in StripPairs(c.adds);
        var j :| 0 <= j < |c.adds| && StripPairs(c.adds)[j] == pr;
        assert StripKey(FirstOf(c.dels)[i]) != StripKey(c.adds[j].key);
      }
    }
  }

  /** A run of clean ticks overtakes nothing. */
  lemma {:induction false} CleanRuns(vs: seq<Move>)
    requires RunAll(vs).Some? && AlwaysClean(vs)
    ensures NoOvertaking(ActionsOf(vs))
  {
    hide Perform, AlwaysClean, Exec, MessageOf, Strip, Abstract, NoOvertaking, TakesCleanly, Overtakes;
    if vs == [] {
      NoActionsOvertake();
    } else {
      var before, v := vs[..|vs| - 1], vs[|vs| - 1];
      AlwaysCleanPrefix(vs);
      CleanRuns(before);
      RunRefines(before);
      var c := RunAll(before).value;
      if v.TakeDels? && c.taken.Some? {
        forall k ensures !Overtakes(Abstract(c), Strip(MessageOf(c)).adds, Strip(MessageOf(c)).dels, k) {
          CleanOvertakesNothing(c, k);
        }
      }
      if ActionOf(c, v).Some? { NoOvertakingSnoc(ActionsOf(before), ActionOf(c, v).value); }
    }
  }

  /** In every run of workers, queues, bytes and switch in which no tick takes a removal of a key and leaves an
      addition of it behind, each entry of the switch has its removal pending, or is current with no addition
      pending. */
  lemma PipelineSafety(vs: seq<Move>, k: Endpoint)
    requires RunAll(vs).Some? && AlwaysClean(vs)
    ensures Safe(Abstract(RunAll(vs).value), k)
  {
    hide RunAll, AlwaysClean, Exec, NoOvertaking;
    RunRefines(vs);
    CleanRuns(vs);
    PublicationSafety(ActionsOf(vs), k);
  }
}
