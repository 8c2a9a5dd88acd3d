/** Publishing OFFLOAD flows to the switch: two unordered queues, a channel of messages that each
    apply additions before removals, and a table that ignores failed additions and removals. */
module Publication {
  import opened Words
  import opened Packets
  import opened FrontEnd

  const BATCH: nat := 40

  datatype Msg = Msg(adds: seq<Pair>, dels: seq<Endpoint>)

  type SwitchTable = map<Endpoint, u8>

  /** An addition to a present key fails and keeps the old entry. */
  function AddEntry(st: SwitchTable, pr: Pair): SwitchTable {
    if pr.key in st then st else st[pr.key := pr.data.dIndex]
  }

  function AddAll(st: SwitchTable, adds: seq<Pair>): SwitchTable
    decreases |adds|
  {
    if adds == [] then st else AddAll(AddEntry(st, adds[0]), adds[1..])
  }

  function DelAll(st: SwitchTable, dels: seq<Endpoint>): SwitchTable
    decreases |dels|
  {
    if dels == [] then st else DelAll(st - {dels[0]}, dels[1..])
  }

  function Apply(st: SwitchTable, m: Msg): SwitchTable {
    DelAll(AddAll(st, m.adds), m.dels)
  }

  function ApplyAll(st: SwitchTable, ms: seq<Msg>): SwitchTable
    decreases |ms|
  {
    if ms == [] then st else ApplyAll(Apply(st, ms[0]), ms[1..])
  }

  /** Workers fill the queues; their order across producers is arbitrary, so a queue is a multiset. */
  datatype State = State(
    flows: Table,
    addQ: multiset<Pair>,
    delQ: multiset<Endpoint>,
    channel: seq<Msg>,
    switchTable: SwitchTable)

  datatype Action =
    | Process(env: Env, p: Packet)             // a worker handles one packet
    | Tick(adds: seq<Pair>, dels: seq<Endpoint>)  // the timer sends a batch
    | Deliver(n: nat)                          // the controller receives n whole messages

  function Enqueue(s: State, t: Table, ops: seq<Op>): State
    decreases |ops|
  {
    if ops == [] then s.(flows := t)
    else match ops[0]
      case AddOp(pr) => Enqueue(s.(addQ := s.addQ + multiset{pr}), t, ops[1..])
      case DelOp(k) => Enqueue(s.(delQ := s.delQ + multiset{k}), t, ops[1..])
  }

  /** A tick dequeues at most a batch of each queue. */
  predicate CanTick(s: State, adds: seq<Pair>, dels: seq<Endpoint>) {
    && |adds| <= BATCH && |dels| <= BATCH
    && multiset(adds) <= s.addQ && multiset(dels) <= s.delQ
  }

  predicate Enabled(s: State, a: Action) {
    match a
    case Process(env, p) => !Step(env, s.flows, p).Undefined?
    case Tick(adds, dels) => CanTick(s, adds, dels)
    case Deliver(n) => n <= |s.channel|
  }

  function Do(s: State, a: Action): State
    requires Enabled(s, a)
  {
    match a
    case Process(env, p) =>
      (match Step(env, s.flows, p)
       case Next(t, _, ops) => Enqueue(s, t, ops)
       case _ => s)
    case Tick(adds, dels) =>
      s.(addQ := s.addQ - multiset(adds), delQ := s.delQ - multiset(dels),
         channel := if adds == [] && dels == [] then s.channel else s.channel + [Msg(adds, dels)])
    case Deliver(n) =>
      s.(channel := s.channel[n..], switchTable := ApplyAll(s.switchTable, s.channel[..n]))
  }

  /** A tick takes its batch out of the queues. */
  lemma TickTakes(s: State, adds: seq<Pair>, dels: seq<Endpoint>,
                  restAdds: multiset<Pair>, restDels: multiset<Endpoint>)
    requires |adds| <= BATCH && |dels| <= BATCH
    requires s.addQ == multiset(adds) + restAdds && s.delQ == multiset(dels) + restDels
    ensures Enabled(s, Tick(adds, dels))
    ensures Do(s, Tick(adds, dels))
         == State(s.flows, restAdds, restDels,
                  if adds == [] && dels == [] then s.channel else s.channel + [Msg(adds, dels)], s.switchTable)
  {
    hide Step;
    assert s.addQ - multiset(adds) == restAdds && s.delQ - multiset(dels) == restDels;
  }

  // ---- The safety property and its invariant ----

  ghost predicate NoAddQueued(q: multiset<Pair>, k: Endpoint) {
    forall pr | pr in q :: pr.key != k
  }

  /** At most one addition for `k` is queued, and it describes the flow as it is now. */
  ghost predicate OnlyCurrentQueued(flows: Table, q: multiset<Pair>, k: Endpoint) {
    forall pr | pr in q && pr.key == k :: OffloadedTo(flows, k, pr.data.dIndex) && NoAddQueued(q - multiset{pr}, k)
  }

  ghost predicate Removes(ms: seq<Msg>, k: Endpoint) {
    exists i :: 0 <= i < |ms| && k in ms[i].dels
  }

  ghost predicate HasAdd(m: Msg, k: Endpoint) {
    exists j :: 0 <= j < |m.adds| && m.adds[j].key == k
  }

  ghost predicate NoAddIn(ms: seq<Msg>, k: Endpoint) {
    forall i | 0 <= i < |ms| :: !HasAdd(ms[i], k)
  }

  /** A removal of `k` is queued or on its way. */
  ghost predicate DelPending(s: State, k: Endpoint) {
    k in s.delQ || Removes(s.channel, k)
  }

  /** An addition of `k` is queued or on its way. */
  ghost predicate AddPending(s: State, k: Endpoint) {
    !NoAddQueued(s.addQ, k) || !NoAddIn(s.channel, k)
  }

  /** No published entry is stale unless its removal is pending, and none has an addition pending beside it. */
  ghost predicate Safe(s: State, k: Endpoint) {
    k in s.switchTable ==>
      DelPending(s, k) || (OffloadedTo(s.flows, k, s.switchTable[k]) && !AddPending(s, k))
  }

  /** What the switch table will hold once the channel is empty. */
  function Settled(s: State): SwitchTable {
    ApplyAll(s.switchTable, s.channel)
  }

  ghost predicate Good(s: State, k: Endpoint) {
    || k in s.delQ
    || (k !in Settled(s) && OnlyCurrentQueued(s.flows, s.addQ, k))
    || (k in Settled(s) && OffloadedTo(s.flows, k, Settled(s)[k]) && NoAddQueued(s.addQ, k))
  }

  /** Wherever in the messages `k` is in the table and no later message removes it, none adds it. */
  ghost predicate Clean(st: SwitchTable, ms: seq<Msg>, k: Endpoint)
    decreases |ms|
  {
    ms == [] ||
    (&& (k in st && !Removes(ms, k) ==> NoAddIn(ms, k))
     && Clean(Apply(st, ms[0]), ms[1..], k))
  }

  /** The messages on their way add no key that stays published. */
  ghost predicate Tidy(s: State, k: Endpoint) {
    k in s.delQ || Clean(s.switchTable, s.channel, k)
  }

  /** The tick takes the last queued removals of `k` and leaves behind an addition other than
      the one that describes the flow as it is now. */
  ghost predicate Overtakes(s: State, adds: seq<Pair>, dels: seq<Endpoint>, k: Endpoint) {
    k in dels && s.delQ[k] == multiset(dels)[k] && !OnlyCurrentQueued(s.flows, s.addQ - multiset(adds), k)
  }

  // ---- What messages do to one key ----

  lemma {:induction false} AddAllAt(st: SwitchTable, adds: seq<Pair>, k: Endpoint)
    ensures k in st ==> k in AddAll(st, adds) && AddAll(st, adds)[k] == st[k]
    ensures k !in st && k in AddAll(st, adds) ==>
              exists i :: 0 <= i < |adds| && adds[i].key == k && AddAll(st, adds)[k] == adds[i].data.dIndex
    ensures (exists i :: 0 <= i < |adds| && adds[i].key == k) ==> k in AddAll(st, adds)
    decreases |adds|
  {
    if adds != [] {
      var st', rest := AddEntry(st, adds[0]), adds[1..];
      AddAllAt(st', rest, k);
      if k !in st && k in AddAll(st, adds) && k !in st' {
        var i :| 0 <= i < |rest| && rest[i].key == k && AddAll(st', rest)[k] == rest[i].data.dIndex;
        assert adds[i + 1] == rest[i];
      }
      if i :| 0 <= i < |adds| && adds[i].key == k {
        if i > 0 { assert rest[i - 1] == adds[i]; }
      }
    }
  }

  lemma {:induction false} DelAllAt(st: SwitchTable, dels: seq<Endpoint>, k: Endpoint)
    ensures k in DelAll(st, dels) <==> k in st && k !in dels
    ensures k in DelAll(st, dels) ==> DelAll(st, dels)[k] == st[k]
    decreases |dels|
  {
    if dels != [] {
      DelAllAt(st - {dels[0]}, dels[1..], k);
    }
  }

  /** What one message makes of a key: a removal wins over everything, a present entry over an addition. */
  lemma MessageExactly(st: SwitchTable, m: Msg, k: Endpoint)
    ensures k in Apply(st, m) <==> k !in m.dels && (k in st || HasAdd(m, k))
    ensures k in Apply(st, m) && k in st ==> Apply(st, m)[k] == st[k]
    ensures k in Apply(st, m) && k !in st ==>
              exists i :: 0 <= i < |m.adds| && m.adds[i].key == k && Apply(st, m)[k] == m.adds[i].data.dIndex
  {
    AddAllAt(st, m.adds, k);
    DelAllAt(AddAll(st, m.adds), m.dels, k);
  }

  /** A key that some message adds and none removes is in the table in the end. */
  lemma {:induction false} AdditionStays(st: SwitchTable, ms: seq<Msg>, k: Endpoint)
    requires !Removes(ms, k) && (k in st || !NoAddIn(ms, k))
    ensures k in ApplyAll(st, ms)
    decreases |ms|
  {
    hide Apply, HasAdd;
    if ms != [] {
      assert k !in ms[0].dels;
      MessageExactly(st, ms[0], k);
      assert forall i | 0 <= i < |ms[1..]| :: ms[1..][i] == ms[i + 1];
      if k !in st && !HasAdd(ms[0], k) {
        var i :| 0 <= i < |ms| && HasAdd(ms[i], k);
        assert ms[1..][i - 1] == ms[i];
      }
      AdditionStays(Apply(st, ms[0]), ms[1..], k);
    }
  }

  lemma {:induction false} ApplyAllAppend(st: SwitchTable, a: seq<Msg>, b: seq<Msg>)
    ensures ApplyAll(st, a + b) == ApplyAll(ApplyAll(st, a), b)
    decreases |a|
  {
    if a == [] {
      assert a + b == b;
    } else {
      assert (a + b)[1..] == a[1..] + b;
      ApplyAllAppend(Apply(st, a[0]), a[1..], b);
    }
  }

  /** A present entry survives messages that do not remove it. */
  lemma {:induction false} Survives(st: SwitchTable, ms: seq<Msg>, k: Endpoint)
    requires k in st && forall i | 0 <= i < |ms| :: k !in ms[i].dels
    ensures k in ApplyAll(st, ms) && ApplyAll(st, ms)[k] == st[k]
    decreases |ms|
  {
    if ms != [] {
      assert k !in ms[0].dels;
      AddAllAt(st, ms[0].adds, k);
      DelAllAt(AddAll(st, ms[0].adds), ms[0].dels, k);
      Survives(Apply(st, ms[0]), ms[1..], k);
    }
  }

  /** An empty message settles nothing; any other is applied last. */
  lemma SettledTick(s: State, adds: seq<Pair>, dels: seq<Endpoint>)
    requires CanTick(s, adds, dels)
    ensures Settled(Do(s, Tick(adds, dels))) == Apply(Settled(s), Msg(adds, dels))
  {
    if adds != [] || dels != [] {
      ApplyAllAppend(s.switchTable, s.channel, [Msg(adds, dels)]);
      assert [Msg(adds, dels)][1..] == [];
    }
  }

  lemma GoodIsSafe(s: State, k: Endpoint)
    requires Good(s, k) && Tidy(s, k)
    ensures Safe(s, k)
  {
    if k in s.switchTable && !DelPending(s, k) {
      Survives(s.switchTable, s.channel, k);
    }
  }

  // ---- The invariant over steps ----

  lemma ProcessKeepsGood(s: State, env: Env, p: Packet, k: Endpoint)
    requires Enabled(s, Process(env, p)) && Good(s, k)
    ensures Good(Do(s, Process(env, p)), k)
  {
    match Step(env, s.flows, p)
    case Next(t, _, ops) =>
      StepAccounts(env, s.flows, p);
      AccountedKeepsGood(s, t, ops, k);
    case Stop =>
  }

  lemma AccountedKeepsGood(s: State, t: Table, ops: seq<Op>, k: Endpoint)
    requires Accounts(s.flows, t, ops) && Good(s, k)
    ensures Good(Enqueue(s, t, ops), k)
  {
    if ops == [] || KeyOf(ops[0]) != k {
      assert SameOffload(s.flows, t, k);
    }
    if ops == [] {
      assert Settled(s.(flows := t)) == Settled(s);
    } else {
      assert ops[1..] == [];
      if ops[0].AddOp? {
        if ops[0].pair.key == k {
          AdditionKeepsGood(s, t, ops[0].pair);
        } else {
          OtherAdditionKeepsGood(s, t, ops[0].pair, k);
        }
      } else {
        RemovalKeepsGood(s, t, ops[0].key, k);
      }
    }
  }

  /** A flow that was not OFFLOAD had nothing queued or published, unless its removal is queued. */
  lemma AdditionKeepsGood(s: State, t: Table, pr: Pair)
    requires !Offloaded(s.flows, pr.key) && OffloadedTo(t, pr.key, pr.data.dIndex)
    requires Good(s, pr.key)
    ensures Good(s.(addQ := s.addQ + multiset{pr}, flows := t), pr.key)
  {
    var s' := s.(addQ := s.addQ + multiset{pr}, flows := t);
    assert Settled(s') == Settled(s);
    if pr.key !in s.delQ {
      assert forall q | q in s.addQ && q.key == pr.key :: OffloadedTo(s.flows, pr.key, q.data.dIndex);
      assert NoAddQueued(s.addQ, pr.key);
      assert s'.addQ - multiset{pr} == s.addQ;
      assert OnlyCurrentQueued(t, s'.addQ, pr.key);
    }
  }

  lemma OtherAdditionKeepsGood(s: State, t: Table, pr: Pair, k: Endpoint)
    requires pr.key != k && SameOffload(s.flows, t, k)
    requires Good(s, k)
    ensures Good(s.(addQ := s.addQ + multiset{pr}, flows := t), k)
  {
    var s' := s.(addQ := s.addQ + multiset{pr}, flows := t);
    assert Settled(s') == Settled(s);
    forall q | q in s'.addQ && q.key == k && NoAddQueued(s.addQ - multiset{q}, k)
      ensures NoAddQueued(s'.addQ - multiset{q}, k)
    {
      assert s'.addQ - multiset{q} == (s.addQ - multiset{q}) + multiset{pr};
    }
  }

  lemma RemovalKeepsGood(s: State, t: Table, d: Endpoint, k: Endpoint)
    requires d == k || SameOffload(s.flows, t, k)
    requires Good(s, k)
    ensures Good(s.(delQ := s.delQ + multiset{d}, flows := t), k)
  {
    var s' := s.(delQ := s.delQ + multiset{d}, flows := t);
    assert Settled(s') == Settled(s);
  }

  lemma DeliverKeepsGood(s: State, n: nat, k: Endpoint)
    requires Enabled(s, Deliver(n)) && Good(s, k)
    ensures Good(Do(s, Deliver(n)), k)
  {
    ApplyAllAppend(s.switchTable, s.channel[..n], s.channel[n..]);
    assert s.channel[..n] + s.channel[n..] == s.channel;
  }

  /** A tick keeps the invariant for a key exactly when it does not overtake it. */
  lemma TickKeepsGoodExactly(s: State, adds: seq<Pair>, dels: seq<Endpoint>, k: Endpoint)
    requires CanTick(s, adds, dels) && Good(s, k)
    ensures Good(Do(s, Tick(adds, dels)), k) <==> !Overtakes(s, adds, dels, k)
  {
    var s' := Do(s, Tick(adds, dels));
    SettledTick(s, adds, dels);
    var mid := AddAll(Settled(s), adds);
    AddAllAt(Settled(s), adds, k);
    DelAllAt(mid, dels, k);
    if k in dels {
      assert multiset(dels)[k] > 0;
    } else if k !in s.delQ {
      QuietTick(s, adds, dels, k);
    }
  }

  /** A tick without removals of `k`, queued or sent. */
  lemma QuietTick(s: State, adds: seq<Pair>, dels: seq<Endpoint>, k: Endpoint)
    requires CanTick(s, adds, dels) && Good(s, k) && k !in dels && k !in s.delQ
    ensures Good(Do(s, Tick(adds, dels)), k)
  {
    hide Step, Apply, ApplyAll, AddAll, DelAll;
    if i :| 0 <= i < |adds| && adds[i].key == k {
      assert adds[i] in multiset(adds);
      SentAddition(s, adds, dels, adds[i]);
    } else {
      SettledAt(s, adds, dels, k);
    }
  }

  /** What a message without removals of `k` settles for `k`. */
  lemma SettledAt(s: State, adds: seq<Pair>, dels: seq<Endpoint>, k: Endpoint)
    requires CanTick(s, adds, dels) && k !in dels
    ensures var st, st' := Settled(s), Settled(Do(s, Tick(adds, dels)));
            && (k in st ==> k in st' && st'[k] == st[k])
            && (k !in st && k in st' ==>
                  exists i :: 0 <= i < |adds| && adds[i].key == k && st'[k] == adds[i].data.dIndex)
            && ((exists i :: 0 <= i < |adds| && adds[i].key == k) ==> k in st')
  {
    SettledTick(s, adds, dels);
    AddAllAt(Settled(s), adds, k);
    DelAllAt(AddAll(Settled(s), adds), dels, k);
  }

  /** The only addition of its key is sent: it settles, and none is left. */
  lemma SentAddition(s: State, adds: seq<Pair>, dels: seq<Endpoint>, pr: Pair)
    requires CanTick(s, adds, dels) && Good(s, pr.key) && pr.key !in dels && pr.key !in s.delQ
    requires pr in multiset(adds)
    ensures Good(Do(s, Tick(adds, dels)), pr.key)
  {
    hide Step, Apply, ApplyAll, AddAll, DelAll;
    var k := pr.key;
    SettledAt(s, adds, dels, k);
    var others := s.addQ - multiset{pr};
    assert pr in s.addQ && NoAddQueued(others, k);
    assert forall q | q in s.addQ && q != pr :: q in others;
    assert s.addQ[pr] > 1 ==> pr in others;
    assert forall q | q in multiset(adds) && q.key == k :: q in s.addQ && q == pr;
    assert forall i | 0 <= i < |adds| :: adds[i] in multiset(adds);
    assert forall q | q in s.addQ - multiset(adds) :: q in s.addQ;
  }

  // ---- The messages on their way ----

  /** One more message keeps the others clean if it removes `k`, does not add it, or finds it absent. */
  lemma {:induction false} CleanAppend(st: SwitchTable, ms: seq<Msg>, m: Msg, k: Endpoint)
    requires Clean(st, ms, k) && (k in m.dels || !HasAdd(m, k) || k !in ApplyAll(st, ms))
    ensures Clean(st, ms + [m], k)
    decreases |ms|
  {
    hide Apply, HasAdd;
    var all := ms + [m];
    assert all[|ms|] == m;
    if k in st && !Removes(all, k) {
      assert forall i | 0 <= i < |ms| :: all[i] == ms[i];
      Survives(st, ms, k);
      assert NoAddIn(all, k);
    }
    if ms == [] {
      assert all[1..] == [];
    } else {
      assert all[1..] == ms[1..] + [m];
      CleanAppend(Apply(st, ms[0]), ms[1..], m, k);
    }
  }

  /** A last message that removes `k` makes all of them clean. */
  lemma {:induction false} CleanRemoval(st: SwitchTable, ms: seq<Msg>, m: Msg, k: Endpoint)
    requires k in m.dels
    ensures Clean(st, ms + [m], k)
    decreases |ms|
  {
    hide Apply, HasAdd;
    var all := ms + [m];
    assert all[|ms|] == m;
    if ms == [] {
      assert all[1..] == [];
    } else {
      assert all[1..] == ms[1..] + [m];
      CleanRemoval(Apply(st, ms[0]), ms[1..], m, k);
    }
  }

  lemma {:induction false} CleanSuffix(st: SwitchTable, ms: seq<Msg>, n: nat, k: Endpoint)
    requires Clean(st, ms, k) && n <= |ms|
    ensures Clean(ApplyAll(st, ms[..n]), ms[n..], k)
    decreases n
  {
    hide Apply;
    if n == 0 {
      assert ms[0..] == ms;
    } else {
      CleanSuffix(Apply(st, ms[0]), ms[1..], n - 1, k);
      assert ms[..n][1..] == ms[1..][..n - 1] && ms[1..][n - 1..] == ms[n..];
    }
  }

  lemma {:induction false} EnqueueKeeps(s: State, t: Table, ops: seq<Op>, k: Endpoint)
    ensures var s' := Enqueue(s, t, ops);
            s'.switchTable == s.switchTable && s'.channel == s.channel && (k in s.delQ ==> k in s'.delQ)
    decreases |ops|
  {
    if ops != [] {
      match ops[0] {
        case AddOp(pr) => EnqueueKeeps(s.(addQ := s.addQ + multiset{pr}), t, ops[1..], k);
        case DelOp(d) => EnqueueKeeps(s.(delQ := s.delQ + multiset{d}), t, ops[1..], k);
      }
    }
  }

  lemma ProcessKeepsTidy(s: State, env: Env, p: Packet, k: Endpoint)
    requires Enabled(s, Process(env, p)) && Tidy(s, k)
    ensures Tidy(Do(s, Process(env, p)), k)
  {
    hide Step, Clean;
    match Step(env, s.flows, p)
    case Next(t, _, ops) => EnqueueKeeps(s, t, ops, k);
    case Stop =>
  }

  lemma DeliverKeepsTidy(s: State, n: nat, k: Endpoint)
    requires Enabled(s, Deliver(n)) && Tidy(s, k)
    ensures Tidy(Do(s, Deliver(n)), k)
  {
    hide Clean;
    if k !in s.delQ { CleanSuffix(s.switchTable, s.channel, n, k); }
  }

  /** Even an overtaking tick leaves the messages tidy. */
  lemma TickKeepsTidy(s: State, adds: seq<Pair>, dels: seq<Endpoint>, k: Endpoint)
    requires CanTick(s, adds, dels) && Good(s, k) && Tidy(s, k)
    ensures Tidy(Do(s, Tick(adds, dels)), k)
  {
    hide Clean, Step, ApplyAll;
    var m, s' := Msg(adds, dels), Do(s, Tick(adds, dels));
    if k !in s'.delQ && (adds != [] || dels != []) {
      if k in s.delQ {
        assert k in multiset(dels);
        CleanRemoval(s.switchTable, s.channel, m, k);
      } else {
        if HasAdd(m, k) {
          var j :| 0 <= j < |adds| && adds[j].key == k;
          assert adds[j] in multiset(adds);
        }
        CleanAppend(s.switchTable, s.channel, m, k);
      }
    }
  }

  // ---- Exactness of the invariant and of the overtaking condition ----

  /** The state once every message sent has been received. */
  function Delivered(s: State): State {
    Do(s, Deliver(|s.channel|))
  }

  lemma DeliveredHolds(s: State)
    ensures Delivered(s) == s.(channel := [], switchTable := Settled(s))
  {
    assert s.channel[..|s.channel|] == s.channel;
  }

  /** From a good state, any one tick leaves the delivered state safe. */
  lemma OneTickIsSafe(s: State, adds: seq<Pair>, dels: seq<Endpoint>, k: Endpoint)
    requires CanTick(s, adds, dels) && Good(s, k)
    ensures Safe(Delivered(Do(s, Tick(adds, dels))), k)
  {
    var s' := Do(s, Tick(adds, dels));
    DeliveredHolds(s');
    TickKeepsGoodExactly(s, adds, dels, k);
    if Overtakes(s, adds, dels, k) {
      SettledTick(s, adds, dels);
      DelAllAt(AddAll(Settled(s), adds), dels, k);
    } else {
      DeliverKeepsGood(s', |s'.channel|, k);
      GoodIsSafe(Delivered(s'), k);
    }
  }

  /** After a tick that drains both queues and its delivery, a flow is published exactly when an entry or addition
      of it was there and no removal: a removal in the same message also takes a newer addition with it. */
  lemma DrainPublishesExactly(s: State, adds: seq<Pair>, dels: seq<Endpoint>, k: Endpoint)
    requires CanTick(s, adds, dels) && multiset(adds) == s.addQ && multiset(dels) == s.delQ
    ensures k in Delivered(Do(s, Tick(adds, dels))).switchTable
      <==> k !in s.delQ && (k in Settled(s) || !NoAddQueued(s.addQ, k))
  {
    hide ApplyAll, Apply, Step;
    var s', m := Do(s, Tick(adds, dels)), Msg(adds, dels);
    DeliveredHolds(s');
    SettledTick(s, adds, dels);
    MessageExactly(Settled(s), m, k);
    assert k in dels <==> k in multiset(dels);
    if HasAdd(m, k) {
      var j :| 0 <= j < |adds| && adds[j].key == k;
      assert adds[j] in multiset(adds);
    }
    if pr :| pr in multiset(adds) && pr.key == k {
      assert pr in adds;
    }
  }

  lemma AfterOvertaking(s: State, adds: seq<Pair>, dels: seq<Endpoint>, k: Endpoint)
    requires CanTick(s, adds, dels) && Overtakes(s, adds, dels, k)
    ensures var s' := Do(s, Tick(adds, dels));
            k !in s'.delQ && k !in Settled(s') && !OnlyCurrentQueued(s'.flows, s'.addQ, k)
  {
    SettledTick(s, adds, dels);
    DelAllAt(AddAll(Settled(s), adds), dels, k);
  }

  /** An addition that may not be published makes the switch stale when a tick sends it alone. */
  lemma LoneAdditionUnsafe(s: State, k: Endpoint) returns (x: Pair)
    requires k !in s.delQ && k !in Settled(s) && !OnlyCurrentQueued(s.flows, s.addQ, k)
    ensures CanTick(s, [x], []) && !Safe(Delivered(Do(s, Tick([x], []))), k)
  {
    hide Do, Apply, ApplyAll, CanTick;
    x :| x in s.addQ && x.key == k && !(OffloadedTo(s.flows, k, x.data.dIndex) && NoAddQueued(s.addQ - multiset{x}, k));
    LoneAdditionSettles(s, x);
    DeliveredHolds(Do(s, Tick([x], [])));
  }

  lemma EmptyTick(s: State)
    ensures CanTick(s, [], []) && Do(s, Tick([], [])) == s
  {
    hide Step;
    var noAdds: seq<Pair>, noDels: seq<Endpoint> := [], [];
    assert multiset(noAdds) == multiset{} && multiset(noDels) == multiset{};
    assert s.addQ - multiset(noAdds) == s.addQ && s.delQ - multiset(noDels) == s.delQ;
  }

  /** The invariant for a key holds of exactly the states from which every tick, once delivered, is safe for it. */
  lemma GoodExactly(s: State, k: Endpoint)
    ensures Good(s, k)
      <==> forall adds, dels | CanTick(s, adds, dels) :: Safe(Delivered(Do(s, Tick(adds, dels))), k)
  {
    hide Do, Apply, ApplyAll, CanTick;
    if Good(s, k) {
      forall adds, dels | CanTick(s, adds, dels) ensures Safe(Delivered(Do(s, Tick(adds, dels))), k) {
        OneTickIsSafe(s, adds, dels, k);
      }
    } else if k !in Settled(s) {
      var x := LoneAdditionUnsafe(s, k);
    } else {
      EmptyTick(s);
      DeliveredHolds(s);
      assert !Safe(Delivered(Do(s, Tick([], []))), k);
    }
  }

  /** After an overtaking tick, one more addition makes the switch stale for `k`. */
  lemma OvertakenBecomesUnsafe(s: State, adds: seq<Pair>, dels: seq<Endpoint>, k: Endpoint) returns (x: Pair)
    requires CanTick(s, adds, dels) && Overtakes(s, adds, dels, k)
    ensures CanTick(Do(s, Tick(adds, dels)), [x], [])
    ensures !Safe(Delivered(Do(Do(s, Tick(adds, dels)), Tick([x], []))), k)
  {
    hide Do, Apply, ApplyAll, CanTick;
    AfterOvertaking(s, adds, dels, k);
    x := LoneAdditionUnsafe(Do(s, Tick(adds, dels)), k);
  }

  /** The message of a lone addition publishes it. */
  lemma LoneAdditionSettles(s: State, x: Pair)
    requires x in s.addQ && x.key !in Settled(s)
    ensures CanTick(s, [x], [])
    ensures var s' := Do(s, Tick([x], []));
            && s'.flows == s.flows && s'.delQ == s.delQ && s'.addQ == s.addQ - multiset{x}
            && Settled(s') == Settled(s)[x.key := x.data.dIndex]
  {
    var none: seq<Endpoint> := [];
    assert multiset([x]) == multiset{x} && multiset(none) == multiset{};
    SettledTick(s, [x], []);
    assert [x][1..] == [];
    assert AddAll(Settled(s), [x]) == AddAll(AddEntry(Settled(s), x), []);
    assert s.delQ - multiset(none) == s.delQ;
  }

  /** A tick from a good state overtakes nothing about `k` exactly when every later tick,
      once delivered, still finds the switch safe for `k`. */
  lemma OvertakingExactly(s: State, adds: seq<Pair>, dels: seq<Endpoint>, k: Endpoint)
    requires CanTick(s, adds, dels) && Good(s, k)
    ensures var s' := Do(s, Tick(adds, dels));
            !Overtakes(s, adds, dels, k) <==>
            forall adds2, dels2 | CanTick(s', adds2, dels2) :: Safe(Delivered(Do(s', Tick(adds2, dels2))), k)
  {
    TickKeepsGoodExactly(s, adds, dels, k);
    GoodExactly(Do(s, Tick(adds, dels)), k);
  }

  /** A tick that drains both queues overtakes nothing. */
  lemma DrainNeverOvertakes(s: State, adds: seq<Pair>, dels: seq<Endpoint>, k: Endpoint)
    requires multiset(adds) == s.addQ && multiset(dels) == s.delQ
    ensures !Overtakes(s, adds, dels, k)
  {
    assert forall pr :: pr !in s.addQ - multiset(adds);
  }

  // ---- Whole runs ----

  function Exec(trace: seq<Action>): Option<State> {
    if trace == [] then Some(State(map[], multiset{}, multiset{}, [], map[]))
    else match Exec(trace[..|trace| - 1])
      case None => None
      case Some(s) => if Enabled(s, trace[|trace| - 1]) then Some(Do(s, trace[|trace| - 1])) else None
  }

  /** No tick of the run overtakes any key. */
  ghost predicate NoOvertaking(trace: seq<Action>) {
    trace == [] ||
    var before, a := trace[..|trace| - 1], trace[|trace| - 1];
    && NoOvertaking(before)
    && (Exec(before).Some? && a.Tick? ==> forall k :: !Overtakes(Exec(before).value, a.adds, a.dels, k))
  }

  /** Each tick of the run empties both queues. */
  ghost predicate AlwaysDrains(trace: seq<Action>) {
    trace == [] ||
    var before, a := trace[..|trace| - 1], trace[|trace| - 1];
    && AlwaysDrains(before)
    && (Exec(before).Some? && a.Tick? ==>
          multiset(a.adds) == Exec(before).value.addQ && multiset(a.dels) == Exec(before).value.delQ)
  }

  lemma ExecSnoc(trace: seq<Action>, a: Action)
    requires Exec(trace).Some? && Enabled(Exec(trace).value, a)
    ensures Exec(trace + [a]) == Some(Do(Exec(trace).value, a))
  {
    assert (trace + [a])[..|trace|] == trace;
  }

  lemma NoActionsDrain()
    ensures AlwaysDrains([])
  {
  }

  lemma NoActionsOvertake()
    ensures NoOvertaking([])
  {
  }

  lemma NoOvertakingSnoc(trace: seq<Action>, a: Action)
    requires NoOvertaking(trace) && Exec(trace).Some?
    requires a.Tick? ==> forall k :: !Overtakes(Exec(trace).value, a.adds, a.dels, k)
    ensures NoOvertaking(trace + [a])
  {
    hide Exec;
    assert (trace + [a])[..|trace|] == trace;
  }

  lemma DrainsSnoc(trace: seq<Action>, a: Action)
    requires AlwaysDrains(trace) && Exec(trace).Some?
    requires a.Tick? ==> multiset(a.adds) == Exec(trace).value.addQ && multiset(a.dels) == Exec(trace).value.delQ
    ensures AlwaysDrains(trace + [a])
  {
    assert (trace + [a])[..|trace|] == trace;
  }

  lemma {:induction false} DrainingRunsNeverOvertake(trace: seq<Action>)
    requires AlwaysDrains(trace)
    ensures NoOvertaking(trace)
  {
    if trace != [] {
      var before, a := trace[..|trace| - 1], trace[|trace| - 1];
      DrainingRunsNeverOvertake(before);
      if Exec(before).Some? && a.Tick? {
        forall k ensures !Overtakes(Exec(before).value, a.adds, a.dels, k) {
          DrainNeverOvertakes(Exec(before).value, a.adds, a.dels, k);
        }
      }
    }
  }

  lemma {:induction false} RunIsGood(trace: seq<Action>, k: Endpoint)
    requires Exec(trace).Some? && NoOvertaking(trace)
    ensures Good(Exec(trace).value, k) && Tidy(Exec(trace).value, k)
  {
    if trace != [] {
      var before, a := trace[..|trace| - 1], trace[|trace| - 1];
      RunIsGood(before, k);
      var s := Exec(before).value;
      match a {
        case Process(env, p) =>
          ProcessKeepsGood(s, env, p, k);
          ProcessKeepsTidy(s, env, p, k);
        case Tick(adds, dels) =>
          TickKeepsGoodExactly(s, adds, dels, k);
          TickKeepsTidy(s, adds, dels, k);
        case Deliver(n) =>
          DeliverKeepsGood(s, n, k);
          DeliverKeepsTidy(s, n, k);
      }
    }
  }

  /** In every run without overtaking, each entry of the switch has its removal pending, or is current with
      no addition pending. */
  lemma PublicationSafety(trace: seq<Action>, k: Endpoint)
    requires Exec(trace).Some? && NoOvertaking(trace)
    ensures Safe(Exec(trace).value, k)
  {
    RunIsGood(trace, k);
    GoodIsSafe(Exec(trace).value, k);
  }
}
