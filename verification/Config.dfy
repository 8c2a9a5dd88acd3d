/** Configuration messages: what the switch's controller encodes for a new front-end, and the
    front-end's decoder. Both count entries in one byte. */
module Config {
  import opened Words
  import opened Packets
  import opened FrontEnd
  import opened OffloadWire
  import opened OffloadStream
  import opened EntryController

  const UPDATE_RULE: u8 := 0
  const UPDATE_D_INDEX: u8 := 1
  const UPDATE_V_INFO: u8 := 2
  const TABLE_SIZE: nat := 256
  const SERVER_SIZE: nat := 16
  const SEND_SIZE: nat := 1024

  type Mac = m: seq<u8> | |m| == 6 witness [0, 0, 0, 0, 0, 0]

  datatype Rule = Rule(name: string, data: Data)
  datatype ServerInfo = ServerInfo(mac: Mac, ip: u32, port: u16)
  datatype Backend = Backend(index: u8, server: ServerInfo)

  type Rules = map<string, Data>
  type Backends = map<u8, ServerInfo>

  datatype Configuration = Configuration(rules: Rules, backends: Backends, virtualServer: ServerInfo)

  // ---- What a list configures ----

  function AddRules(m: Rules, rs: seq<Rule>): Rules {
    if rs == [] then m else var last := rs[|rs| - 1]; AddRules(m, rs[..|rs| - 1])[last.name := last.data]
  }

  function DelRules(m: Rules, names: seq<string>): Rules {
    if names == [] then m else DelRules(m, names[..|names| - 1]) - {names[|names| - 1]}
  }

  function AddBackends(m: Backends, ds: seq<Backend>): Backends {
    if ds == [] then m else var last := ds[|ds| - 1]; AddBackends(m, ds[..|ds| - 1])[last.index := last.server]
  }

  function DelBackends(m: Backends, indices: seq<u8>): Backends {
    if indices == [] then m else DelBackends(m, indices[..|indices| - 1]) - {indices[|indices| - 1]}
  }

  /** Of several rules for one name the last one counts. */
  lemma {:induction false} LastRuleWins(m: Rules, rs: seq<Rule>, name: string)
    ensures forall i | 0 <= i < |rs| && rs[i].name == name && (forall j | i < j < |rs| :: rs[j].name != name) ::
              name in AddRules(m, rs) && AddRules(m, rs)[name] == rs[i].data
  {
    if rs != [] && rs[|rs| - 1].name != name {
      var init := rs[..|rs| - 1];
      LastRuleWins(m, init, name);
      assert forall i | 0 <= i < |init| :: init[i] == rs[i];
    }
  }

  lemma {:induction false} RulesNamed(m: Rules, rs: seq<Rule>, name: string)
    ensures name in AddRules(m, rs) <==> name in m || exists i :: 0 <= i < |rs| && rs[i].name == name
  {
    if rs != [] {
      var init, last := rs[..|rs| - 1], |rs| - 1;
      RulesNamed(m, init, name);
      assert forall i | 0 <= i < |init| :: init[i] == rs[i];
      assert rs[last].name == name ==> exists i :: 0 <= i < |rs| && rs[i].name == name;
    }
  }

  lemma {:induction false} LastBackendWins(m: Backends, ds: seq<Backend>, index: u8)
    ensures forall i | 0 <= i < |ds| && ds[i].index == index && (forall j | i < j < |ds| :: ds[j].index != index) ::
              index in AddBackends(m, ds) && AddBackends(m, ds)[index] == ds[i].server
  {
    if ds != [] && ds[|ds| - 1].index != index {
      var init := ds[..|ds| - 1];
      LastBackendWins(m, init, index);
      assert forall i | 0 <= i < |init| :: init[i] == ds[i];
    }
  }

  lemma {:induction false} BackendsNamed(m: Backends, ds: seq<Backend>, index: u8)
    ensures index in AddBackends(m, ds) <==> index in m || exists i :: 0 <= i < |ds| && ds[i].index == index
  {
    if ds != [] {
      var init, last := ds[..|ds| - 1], |ds| - 1;
      BackendsNamed(m, init, index);
      assert forall i | 0 <= i < |init| :: init[i] == ds[i];
      assert ds[last].index == index ==> exists i :: 0 <= i < |ds| && ds[i].index == index;
    }
  }

  // ---- Layout ----

  /** Non-NUL characters of one byte. */
  predicate Encodable(name: string) {
    forall i | 0 <= i < |name| :: 0 < name[i] as int < 0x100
  }

  predicate HoldsName(b: seq<u8>, at: nat, name: string) {
    && at + |name| < |b|
    && (forall j | 0 <= j < |name| :: b[at + j] == name[j] as int)
    && b[at + |name|] == 0
  }

  function RuleSize(r: Rule): nat {
    |r.name| + 3
  }

  function RulesSize(rs: seq<Rule>): nat {
    if rs == [] then 0 else RulesSize(rs[..|rs| - 1]) + RuleSize(rs[|rs| - 1])
  }

  predicate AllEncodable(rs: seq<Rule>) {
    forall i | 0 <= i < |rs| :: Encodable(rs[i].name)
  }

  function NameBytes(name: string): (b: seq<u8>)
    requires Encodable(name)
    ensures |b| == |name|
  {
    seq(|name|, i requires 0 <= i < |name| => name[i] as int)
  }

  /** A name and its NUL, the back-end index, the offload flag. */
  function RuleBytes(r: Rule): (b: seq<u8>)
    requires Encodable(r.name)
    ensures |b| == RuleSize(r)
  {
    NameBytes(r.name) + [0, r.data.dIndex, r.data.offloadFlag]
  }

  function RulesBytes(rs: seq<Rule>): (b: seq<u8>)
    requires AllEncodable(rs)
    ensures |b| == RulesSize(rs)
  {
    if rs == [] then [] else RulesBytes(rs[..|rs| - 1]) + RuleBytes(rs[|rs| - 1])
  }

  /** Nothing to remove, and the number of rules modulo 256. */
  function RuleMessage(rs: seq<Rule>): (b: seq<u8>)
    requires AllEncodable(rs)
    ensures |b| == 3 + RulesSize(rs)
  {
    var header: seq<u8> := [UPDATE_RULE, |rs| % 0x100, 0];
    header + RulesBytes(rs)
  }

  /** The message the encoder sends, unless it overruns its buffer. */
  function RulesSent(rs: seq<Rule>): Option<seq<u8>>
    requires AllEncodable(rs)
  {
    if 3 + RulesSize(rs) <= SEND_SIZE then Some(RuleMessage(rs)) else None
  }

  function ServerAt(b: seq<u8>, at: nat): ServerInfo
    requires at + SERVER_SIZE <= |b|
  {
    ServerInfo(b[at..at + 6], Le32(b, at + 8), Le16(b, at + 12))
  }

  predicate HoldsBackends(b: seq<u8>, at: nat, ds: seq<Backend>) {
    && at + 17 * |ds| <= |b|
    && forall j | 0 <= j < |ds| :: b[at + 17 * j] == ds[j].index && ServerAt(b, at + 17 * j + 1) == ds[j].server
  }

  /** The two counts after a message type; nothing to remove, and the number of entries modulo 256. */
  predicate HoldsCounts(b: seq<u8>, op: u8, count: nat) {
    |b| >= 3 && b[0] == op && b[1] == count % 0x100 && b[2] == 0
  }

  // ---- The decoder, on any bytes ----

  /** The NUL-terminated string at `at`, if it ends inside the buffer. */
  function NameAt(b: seq<u8>, at: nat): (name: Option<string>)
    ensures name.Some? ==> Encodable(name.value) && HoldsName(b, at, name.value)
    decreases |b| - at
  {
    if at >= |b| then None
    else if b[at] == 0 then Some([])
    else match NameAt(b, at + 1) case None => None case Some(rest) => Some([b[at] as char] + rest)
  }

  datatype Parsed<T> = Parsed(items: seq<T>, next: nat) | Beyond

  function RulesAt(b: seq<u8>, at: nat, count: nat): Parsed<Rule> {
    if count == 0 then Parsed([], at)
    else
      match RulesAt(b, at, count - 1)
      case Beyond => Beyond
      case Parsed(rs, pos) =>
        match NameAt(b, pos)
        case None => Beyond
        case Some(name) =>
          var end := pos + |name| + 3;
          if end > |b| then Beyond else Parsed(rs + [Rule(name, Data(b[end - 1], b[end - 2]))], end)
  }

  function NamesAt(b: seq<u8>, at: nat, count: nat): Parsed<string> {
    if count == 0 then Parsed([], at)
    else
      match NamesAt(b, at, count - 1)
      case Beyond => Beyond
      case Parsed(names, pos) =>
        match NameAt(b, pos)
        case None => Beyond
        case Some(name) => Parsed(names + [name], pos + |name| + 1)
  }

  function BackendsAt(b: seq<u8>, at: nat, count: nat): (ds: seq<Backend>)
    requires at + 17 * count <= |b|
    ensures |ds| == count && HoldsBackends(b, at, ds)
  {
    seq(count, j requires 0 <= j < count => Backend(b[at + 17 * j], ServerAt(b, at + 17 * j + 1)))
  }

  /** The new configuration and where decoding ends, or `None` when it would read past the buffer. */
  type Updated = Option<(Configuration, nat)>

  function UpdateRules(c: Configuration, b: seq<u8>): Updated
    requires |b| >= 3
  {
    match RulesAt(b, 3, b[1])
    case Beyond => None
    case Parsed(rs, pos) =>
      match NamesAt(b, pos, b[2])
      case Beyond => None
      case Parsed(names, end) => Some((c.(rules := DelRules(AddRules(c.rules, rs), names)), end))
  }

  function BackendsEnd(b: seq<u8>): nat
    requires |b| >= 3
  {
    3 + 17 * b[1] as int
  }

  function UpdateBackends(c: Configuration, b: seq<u8>): Updated
    requires |b| >= 3
  {
    var pos, end := BackendsEnd(b), BackendsEnd(b) + b[2] as int;
    if end > |b| then None
    else Some((c.(backends := DelBackends(AddBackends(c.backends, BackendsAt(b, 3, b[1])), b[pos..end])), end))
  }

  function Update(c: Configuration, b: seq<u8>): Updated
    requires b != []
  {
    if b[0] == UPDATE_RULE then if |b| < 3 then None else UpdateRules(c, b)
    else if b[0] == UPDATE_D_INDEX then if |b| < 3 then None else UpdateBackends(c, b)
    else if b[0] == UPDATE_V_INFO then
      if |b| < 1 + SERVER_SIZE then None else Some((c.(virtualServer := ServerAt(b, 1)), 1 + SERVER_SIZE))
    else Some((c, 1))
  }

  // ---- Round trips ----

  lemma {:induction false} HeldNameIsRead(b: seq<u8>, at: nat, name: string)
    requires Encodable(name) && HoldsName(b, at, name)
    ensures NameAt(b, at) == Some(name)
    decreases |name|
  {
    if name != [] {
      var rest := name[1..];
      assert b[at + 0] == name[0] as int;
      forall j | 0 <= j < |rest| ensures b[at + 1 + j] == rest[j] as int {
        var i := j + 1;
        assert b[at + i] == name[i] as int;
      }
      HeldNameIsRead(b, at + 1, rest);
      assert [name[0]] + rest == name;
    }
  }

  lemma RuleHeld(pre: seq<u8>, r: Rule, rest: seq<u8>)
    requires Encodable(r.name)
    ensures var b, end := pre + RuleBytes(r) + rest, |pre| + RuleSize(r);
            HoldsName(b, |pre|, r.name) && b[end - 2] == r.data.dIndex && b[end - 1] == r.data.offloadFlag
  {
    var b := pre + RuleBytes(r) + rest;
    assert forall j | 0 <= j < RuleSize(r) :: b[|pre| + j] == RuleBytes(r)[j];
  }

  /** One encoded rule is read back. */
  lemma RuleRead(pre: seq<u8>, r: Rule, rest: seq<u8>)
    requires Encodable(r.name)
    ensures NameAt(pre + RuleBytes(r) + rest, |pre|) == Some(r.name)
  {
    hide RuleBytes, HoldsName;
    RuleHeld(pre, r, rest);
    HeldNameIsRead(pre + RuleBytes(r) + rest, |pre|, r.name);
  }

  /** Encoded rules are read back, wherever they stand. */
  lemma {:induction false} RulesRead(pre: seq<u8>, rs: seq<Rule>, rest: seq<u8>)
    requires AllEncodable(rs)
    ensures RulesAt(pre + RulesBytes(rs) + rest, |pre|, |rs|) == Parsed(rs, |pre| + RulesSize(rs))
    decreases |rs|
  {
    hide NameAt, HoldsName, Encodable, RuleBytes, RuleSize, RulesAt;
    if rs == [] {
      NoRulesRead(pre + rest, |pre|);
      assert pre + RulesBytes(rs) + rest == pre + rest;
    } else {
      var init, last := rs[..|rs| - 1], rs[|rs| - 1];
      assert AllEncodable(init) && Encodable(last.name);
      var head := pre + RulesBytes(init);
      Regroup(pre, RulesBytes(init), RuleBytes(last), rest);
      RulesRead(pre, init, RuleBytes(last) + rest);
      NextRead(head + RuleBytes(last) + rest, |pre|, init, head, last, rest);
      assert rs == init + [last];
    }
  }

  lemma Regroup(a: seq<u8>, b: seq<u8>, c: seq<u8>, d: seq<u8>)
    ensures a + (b + c) + d == a + b + c + d == a + b + (c + d)
  {
  }

  lemma NoRulesRead(b: seq<u8>, at: nat)
    ensures RulesAt(b, at, 0) == Parsed([], at)
  {
  }

  lemma NextRead(b: seq<u8>, at: nat, init: seq<Rule>, head: seq<u8>, last: Rule, rest: seq<u8>)
    requires Encodable(last.name) && b == head + RuleBytes(last) + rest
    requires RulesAt(b, at, |init|) == Parsed(init, |head|)
    ensures RulesAt(b, at, |init| + 1) == Parsed(init + [last], |head| + RuleSize(last))
  {
    hide NameAt, HoldsName, Encodable, RuleBytes;
    RuleHeld(head, last, rest);
    RuleRead(head, last, rest);
  }

  /** A message of fewer than 256 rules configures them all. */
  lemma RulesUpdate(c: Configuration, rs: seq<Rule>, rest: seq<u8>)
    requires |rs| < TABLE_SIZE && AllEncodable(rs)
    ensures Update(c, RuleMessage(rs) + rest) == Some((c.(rules := AddRules(c.rules, rs)), |RuleMessage(rs)|))
  {
    hide RulesAt, RulesBytes, AddRules, Encodable, UpdateBackends, ServerAt;
    var header: seq<u8> := [UPDATE_RULE, |rs| % 0x100, 0];
    var b := RuleMessage(rs) + rest;
    assert b == header + RulesBytes(rs) + rest;
    assert b[0] == UPDATE_RULE && b[1] == |rs| && b[2] == 0;
    RulesRead(header, rs, rest);
    assert NamesAt(b, 3 + RulesSize(rs), 0) == Parsed([], 3 + RulesSize(rs));
  }

  /** 256 rules, which the switch's table holds, are announced as none. */
  lemma FullUpdate(c: Configuration, rs: seq<Rule>, rest: seq<u8>)
    requires |rs| == TABLE_SIZE && AllEncodable(rs)
    ensures Update(c, RuleMessage(rs) + rest) == Some((c, 3)) && |RuleMessage(rs)| > 3
  {
    hide RulesBytes, Encodable, UpdateBackends, ServerAt, NameAt;
    var b := RuleMessage(rs) + rest;
    assert b[0] == UPDATE_RULE && b[1] == 0 && b[2] == 0;
    assert RulesAt(b, 3, 0) == Parsed([], 3) && NamesAt(b, 3, 0) == Parsed([], 3);
  }

  /** A rule list of the switch's table is rebuilt, and its message consumed to the last byte, exactly when it has
      fewer than 256 rules and fits the send buffer. */
  lemma RuleRoundTripExactly(c: Configuration, rs: seq<Rule>, rest: seq<u8>)
    requires |rs| <= TABLE_SIZE && AllEncodable(rs)
    ensures (&& RulesSent(rs).Some?
             && Update(c, RulesSent(rs).value + rest)
                == Some((c.(rules := AddRules(c.rules, rs)), |RulesSent(rs).value|)))
        <==> |rs| < TABLE_SIZE && 3 + RulesSize(rs) <= SEND_SIZE
  {
    hide Update, RuleMessage, RulesSize, AddRules;
    if |rs| < TABLE_SIZE { RulesUpdate(c, rs, rest); } else { FullUpdate(c, rs, rest); }
  }

  function Repeated(r: Rule, n: nat): (rs: seq<Rule>)
    ensures |rs| == n && forall i | 0 <= i < n :: rs[i] == r
  {
    seq(n, _ => r)
  }

  lemma {:induction false} RepeatedSize(r: Rule, n: nat)
    ensures RulesSize(Repeated(r, n)) == n * RuleSize(r)
  {
    hide RuleSize;
    if n > 0 {
      RepeatedSize(r, n - 1);
      assert Repeated(r, n)[..n - 1] == Repeated(r, n - 1);
      assert (n - 1) * RuleSize(r) + RuleSize(r) == n * RuleSize(r);
    }
  }

  /** Both conditions matter: 256 rules with empty names are sent and lost; 47 rules with names of 19
      characters, the longest the table holds, overrun the buffer. */
  lemma RoundTripCounterexamples(c: Configuration, rest: seq<u8>) returns (full: seq<Rule>, wide: seq<Rule>)
    ensures |full| == TABLE_SIZE && AllEncodable(full) && RulesSent(full).Some?
    ensures Update(c, RulesSent(full).value + rest) == Some((c, 3))
    ensures |wide| == 47 && AllEncodable(wide) && RulesSent(wide).None?
    ensures forall i | 0 <= i < |wide| :: |wide[i].name| == 19
  {
    hide Update, RuleMessage, RulesSize, Encodable, Repeated;
    var short, name := Rule([], Data(0, 0)), seq(19, _ => 'a');
    EmptyEncodable();
    RepeatedSize(short, TABLE_SIZE);
    full := Repeated(short, TABLE_SIZE);
    FullUpdate(c, full, rest);
    LettersEncodable(name);
    RepeatedSize(Rule(name, Data(0, 0)), 47);
    wide := Repeated(Rule(name, Data(0, 0)), 47);
  }

  lemma EmptyEncodable()
    ensures Encodable([])
  {
  }

  lemma LettersEncodable(name: string)
    requires forall i | 0 <= i < |name| :: name[i] == 'a'
    ensures Encodable(name)
  {
  }

  lemma HeldBackendsAreRead(b: seq<u8>, at: nat, ds: seq<Backend>)
    requires HoldsBackends(b, at, ds)
    ensures BackendsAt(b, at, |ds|) == ds
  {
    hide ServerAt;
    var read := BackendsAt(b, at, |ds|);
    assert forall j | 0 <= j < |ds| :: read[j] == ds[j];
  }

  /** A buffer with the message of a back-end list in it, which the encoder fills without overrunning its own. */
  predicate BackendsSent(b: seq<u8>, ds: seq<Backend>) {
    && 3 + 17 * |ds| <= SEND_SIZE
    && HoldsCounts(b, UPDATE_D_INDEX, |ds|) && HoldsBackends(b, 3, ds)
  }

  lemma BackendsUpdate(c: Configuration, b: seq<u8>, ds: seq<Backend>)
    requires BackendsSent(b, ds)
    ensures Update(c, b) == Some((c.(backends := AddBackends(c.backends, ds)), 3 + 17 * |ds|))
  {
    hide ServerAt, AddBackends, RulesAt, NamesAt;
    assert b[1] == |ds|;
    HeldBackendsAreRead(b, 3, ds);
    var end := BackendsEnd(b);
    assert b[end..end + b[2] as int] == [];
  }

  function BackendImage(d: Backend): (b: seq<u8>)
    ensures |b| == 17
  {
    [d.index] + d.server.mac + [0, 0] + Image32(d.server.ip) + Image16(d.server.port) + [0, 0]
  }

  lemma BackendImageRead(d: Backend, b: seq<u8>, i: nat)
    requires i + 17 <= |b| && b[i..i + 17] == BackendImage(d)
    ensures b[i] == d.index && ServerAt(b, i + 1) == d.server
  {
    hide Image32, Image16, Le32, Le16;
    var x := BackendImage(d);
    assert x[1..7] == d.server.mac && x[9..13] == Image32(d.server.ip) && x[13..15] == Image16(d.server.port);
    assert b[i..i + 17][0] == b[i];
    SliceOfSlice(b, i, 17, 1, 6);
    SliceOfSlice(b, i, 17, 9, 4);
    SliceOfSlice(b, i, 17, 13, 2);
    Image32Read(d.server.ip, b, i + 9);
    Image16Read(d.server.port, b, i + 13);
  }

  function BackendImages(ds: seq<Backend>): (b: seq<u8>)
    ensures |b| == 17 * |ds|
  {
    if ds == [] then [] else BackendImages(ds[..|ds| - 1]) + BackendImage(ds[|ds| - 1])
  }

  lemma {:induction false} BackendImageAt(ds: seq<Backend>, k: nat)
    requires k < |ds|
    ensures BackendImages(ds)[17 * k..17 * k + 17] == BackendImage(ds[k])
    decreases |ds|
  {
    hide BackendImage;
    var init := ds[..|ds| - 1];
    if k < |init| {
      BackendImageAt(init, k);
      assert BackendImages(ds)[17 * k..17 * k + 17] == BackendImages(init)[17 * k..17 * k + 17];
    }
  }

  /** Every list that fits is sent in some buffer. */
  lemma BackendsHaveBytes(ds: seq<Backend>) returns (b: seq<u8>)
    requires 3 + 17 * |ds| <= SEND_SIZE
    ensures BackendsSent(b, ds)
  {
    hide BackendImages, BackendImage, ServerAt;
    var header: seq<u8> := [UPDATE_D_INDEX, |ds|, 0];
    b := header + BackendImages(ds);
    assert b[3..] == BackendImages(ds) && b[0] == UPDATE_D_INDEX && b[1] == |ds| && b[2] == 0;
    forall j | 0 <= j < |ds| ensures b[3 + 17 * j] == ds[j].index && ServerAt(b, 3 + 17 * j + 1) == ds[j].server {
      BackendImageAt(ds, j);
      assert b[3 + 17 * j..3 + 17 * j + 17] == BackendImages(ds)[17 * j..17 * j + 17];
      BackendImageRead(ds[j], b, 3 + 17 * j);
    }
  }

  /** A back-end list of the switch's table is sent, rebuilt, and its message consumed to the last byte, exactly when
      it fits the send buffer; however it is sent, it is then rebuilt. */
  lemma BackendRoundTripExactly(c: Configuration, ds: seq<Backend>)
    requires |ds| <= TABLE_SIZE
    ensures (exists b :: BackendsSent(b, ds)
                      && Update(c, b) == Some((c.(backends := AddBackends(c.backends, ds)), 3 + 17 * |ds|)))
        <==> 3 + 17 * |ds| <= SEND_SIZE
    ensures forall b | BackendsSent(b, ds) ::
              Update(c, b) == Some((c.(backends := AddBackends(c.backends, ds)), 3 + 17 * |ds|))
  {
    hide Update, AddBackends, HoldsBackends;
    forall b | BackendsSent(b, ds)
      ensures Update(c, b) == Some((c.(backends := AddBackends(c.backends, ds)), 3 + 17 * |ds|))
    {
      BackendsUpdate(c, b, ds);
    }
    if 3 + 17 * |ds| <= SEND_SIZE {
      var b := BackendsHaveBytes(ds);
      assert BackendsSent(b, ds);
    }
  }

  // ---- The encoders ----

  /** A name and its terminator. */
  method PutName(buf: array<u8>, at: nat, name: string)
    requires Encodable(name) && at + |name| < buf.Length
    modifies buf
    ensures buf[..] == old(buf[..at]) + NameBytes(name) + [0] + old(buf[at + |name| + 1..])
  {
    ghost var was := buf[..];
    for j := 0 to |name|
      invariant forall i | 0 <= i < buf.Length :: buf[i] == if at <= i < at + j then name[i - at] as int else was[i]
    {
      buf[at + j] := name[j] as int;
    }
    buf[at + |name|] := 0;
  }

  lemma {:induction false} RulesSizeMonotone(rs: seq<Rule>, i: nat)
    requires i <= |rs|
    ensures RulesSize(rs[..i]) <= RulesSize(rs)
    decreases |rs|
  {
    if i < |rs| {
      assert rs[..|rs| - 1][..i] == rs[..i];
      RulesSizeMonotone(rs[..|rs| - 1], i);
    } else {
      assert rs[..i] == rs;
    }
  }

  method PutRule(buf: array<u8>, at: nat, rule: Rule) returns (nowBytes: nat)
    requires at + RuleSize(rule) <= buf.Length && Encodable(rule.name)
    modifies buf
    ensures nowBytes == at + RuleSize(rule) && buf[..nowBytes] == old(buf[..at]) + RuleBytes(rule)
  {
    nowBytes := at;
    PutName(buf, nowBytes, rule.name);
    nowBytes := nowBytes + |rule.name| + 1;
    buf[nowBytes] := rule.data.dIndex;
    nowBytes := nowBytes + 1;
    buf[nowBytes] := rule.data.offloadFlag;
    nowBytes := nowBytes + 1;
  }

  /** `Overrun` when the encoder would write past its buffer. */
  datatype Encoded = Sent(size: nat) | Overrun

  method EncodeRules(buf: array<u8>, rules: array<Rule>, ruleSize: nat) returns (r: Encoded)
    requires ruleSize <= rules.Length && buf.Length == SEND_SIZE && AllEncodable(rules[..ruleSize])
    modifies buf
    ensures r.Sent? <==> RulesSent(rules[..ruleSize]).Some?
    ensures r.Sent? ==> r.size <= SEND_SIZE && Some(buf[..r.size]) == RulesSent(rules[..ruleSize])
  {
    hide RuleBytes, RuleSize, Encodable, RulesBytes, RulesSize, AllEncodable;
    ghost var all := rules[..ruleSize];
    buf[0] := UPDATE_RULE;
    buf[1] := ruleSize % 0x100;
    buf[2] := 0;
    var nowBytes: nat := 3;
    ghost var header: seq<u8> := [UPDATE_RULE, ruleSize % 0x100, 0];
    NoRules();
    assert all[..0] == [];
    for i := 0 to ruleSize
      invariant nowBytes == 3 + RulesSize(all[..i]) <= SEND_SIZE
      invariant AllEncodable(all[..i]) && buf[..nowBytes] == header + RulesBytes(all[..i])
    {
      OneMoreRule(all, i);
      RulesSizeMonotone(all, i + 1);
      if nowBytes + RuleSize(rules[i]) > buf.Length { return Overrun; }
      nowBytes := PutRule(buf, nowBytes, rules[i]);
    }
    assert all[..ruleSize] == all;
    r := Sent(nowBytes);
  }

  lemma OneMoreRule(rs: seq<Rule>, i: nat)
    requires i < |rs| && AllEncodable(rs)
    ensures Encodable(rs[i].name) && AllEncodable(rs[..i]) && AllEncodable(rs[..i + 1])
    ensures RulesSize(rs[..i + 1]) == RulesSize(rs[..i]) + RuleSize(rs[i])
    ensures RulesBytes(rs[..i + 1]) == RulesBytes(rs[..i]) + RuleBytes(rs[i])
  {
    hide Encodable, RuleBytes, RuleSize;
    assert rs[..i + 1][..i] == rs[..i];
  }

  lemma NoRules()
    ensures AllEncodable([]) && RulesSize([]) == 0 && RulesBytes([]) == []
  {
  }

  /** The memory image of a server; its padding bytes are arbitrary. */
  method PutServer(buf: array<u8>, at: nat, s: ServerInfo)
    requires at + SERVER_SIZE <= buf.Length
    modifies buf
    ensures ServerAt(buf[..], at) == s
    ensures forall i | 0 <= i < buf.Length && !(at <= i < at + SERVER_SIZE) :: buf[i] == old(buf[i])
  {
    for j := 0 to 6
      invariant forall i | 0 <= i < j :: buf[at + i] == s.mac[i]
      invariant forall i | 0 <= i < buf.Length && !(at <= i < at + j) :: buf[i] == old(buf[i])
    {
      buf[at + j] := s.mac[j];
    }
    buf[at + 6], buf[at + 7], buf[at + 14], buf[at + 15] := *, *, *, *;
    PutLe32(buf, at + 8, s.ip);
    ghost var mid := buf[..];
    PutLe16(buf, at + 12, s.port);
    assert Le32(buf[..], at + 8) == Le32(mid, at + 8);
    assert buf[..][at..at + 6] == s.mac;
  }

  lemma HeldBackendsKept(b: seq<u8>, b': seq<u8>, at: nat, ds: seq<Backend>)
    requires HoldsBackends(b, at, ds) && at + 17 * |ds| <= |b'|
    requires forall i | at <= i < at + 17 * |ds| :: b'[i] == b[i]
    ensures HoldsBackends(b', at, ds)
  {
    forall j | 0 <= j < |ds| ensures b'[at + 17 * j] == ds[j].index && ServerAt(b', at + 17 * j + 1) == ds[j].server {
      var s := at + 17 * j + 1;
      assert b'[s..s + 6] == b[s..s + 6];
      assert ServerAt(b', s) == ServerAt(b, s);
    }
  }

  method EncodeBackends(buf: array<u8>, table: array<Backend>, dIndexSize: nat) returns (r: Encoded)
    requires dIndexSize <= table.Length && buf.Length == SEND_SIZE
    modifies buf
    ensures r == if 3 + 17 * dIndexSize <= SEND_SIZE then Sent(3 + 17 * dIndexSize) else Overrun
    ensures r.Sent? ==> BackendsSent(buf[..], table[..dIndexSize])
  {
    hide ServerAt;
    buf[0] := UPDATE_D_INDEX;
    buf[1] := dIndexSize % 0x100;
    buf[2] := 0;
    var nowBytes: nat := 3;
    for i := 0 to dIndexSize
      invariant nowBytes == 3 + 17 * i <= SEND_SIZE && HoldsCounts(buf[..], UPDATE_D_INDEX, dIndexSize)
      invariant HoldsBackends(buf[..], 3, table[..i])
    {
      if nowBytes + 1 + SERVER_SIZE > buf.Length { return Overrun; }
      ghost var was := buf[..];
      buf[nowBytes] := table[i].index;
      nowBytes := nowBytes + 1;
      PutServer(buf, nowBytes, table[i].server);
      nowBytes := nowBytes + SERVER_SIZE;
      HeldBackendsKept(was, buf[..], 3, table[..i]);
      assert table[..i + 1] == table[..i] + [table[i]];
    }
    r := Sent(nowBytes);
  }

  // ---- The decoder ----

  lemma {:induction false} RulesPrefix(b: seq<u8>, at: nat, count: nat, i: nat)
    requires i < count && RulesAt(b, at, count).Parsed?
    ensures RulesAt(b, at, i + 1).Parsed?
    decreases count
  {
    hide NameAt;
    if i + 1 < count { RulesPrefix(b, at, count - 1, i); }
  }

  /** One rule more. */
  lemma NextRule(b: seq<u8>, at: nat, i: nat)
    requires RulesAt(b, at, i + 1).Parsed?
    ensures RulesAt(b, at, i).Parsed?
    ensures var pos := RulesAt(b, at, i).next;
            && NameAt(b, pos).Some?
            && var end := pos + |NameAt(b, pos).value| + 3;
               && end <= |b|
               && RulesAt(b, at, i + 1)
                    == Parsed(RulesAt(b, at, i).items + [Rule(NameAt(b, pos).value, Data(b[end - 1], b[end - 2]))], end)
  {
    hide NameAt;
  }

  lemma AddOneMore(m: Rules, rs: seq<Rule>, r: Rule)
    ensures AddRules(m, rs + [r]) == AddRules(m, rs)[r.name := r.data]
  {
    assert (rs + [r])[..|rs|] == rs;
  }

  lemma {:induction false} NamesPrefix(b: seq<u8>, at: nat, count: nat, i: nat)
    requires i < count && NamesAt(b, at, count).Parsed?
    ensures NamesAt(b, at, i + 1).Parsed?
    decreases count
  {
    if i + 1 < count { NamesPrefix(b, at, count - 1, i); }
  }

  /** The front-end's configuration, updated in place. */
  class RuleController {
    var rules: Rules
    var backends: Backends
    var virtualServer: ServerInfo

    constructor ()
      ensures Current() == Configuration(map[], map[], ServerInfo([0, 0, 0, 0, 0, 0], 0, 0))
    {
      rules, backends, virtualServer := map[], map[], ServerInfo([0, 0, 0, 0, 0, 0], 0, 0);
    }

    function Current(): Configuration
      reads this
    {
      Configuration(rules, backends, virtualServer)
    }

    /** The string a pointer into the buffer denotes. */
    method ReadName(buf: array<u8>, at: nat) returns (name: string)
      requires NameAt(buf[..], at).Some?
      ensures Some(name) == NameAt(buf[..], at)
    {
      var end := at;
      name := [];
      while buf[end] != 0
        invariant NameAt(buf[..], end).Some?
        invariant name + NameAt(buf[..], end).value == NameAt(buf[..], at).value
        decreases buf.Length - end
      {
        assert name + NameAt(buf[..], end).value == name + [buf[end] as char] + NameAt(buf[..], end + 1).value;
        name := name + [buf[end] as char];
        end := end + 1;
      }
      assert name + NameAt(buf[..], end).value == name;
    }

    method ReceiveAdded(buf: array<u8>, at: nat, addSize: nat) returns (nowBytes: nat)
      requires RulesAt(buf[..], at, addSize).Parsed?
      modifies this`rules
      ensures Parsed(RulesAt(buf[..], at, addSize).items, nowBytes) == RulesAt(buf[..], at, addSize)
      ensures rules == AddRules(old(rules), RulesAt(buf[..], at, addSize).items)
    {
      hide RulesAt, NameAt, AddRules, HoldsName, Encodable;
      ghost var b := buf[..];
      NothingRead(b, at, rules);
      nowBytes := at;
      for i := 0 to addSize
        invariant RulesAt(b, at, i).Parsed? && nowBytes == RulesAt(b, at, i).next
        invariant rules == AddRules(old(rules), RulesAt(b, at, i).items)
      {
        RulesPrefix(b, at, addSize, i);
        NextRule(b, at, i);
        var key := ReadName(buf, nowBytes);
        nowBytes := nowBytes + |key| + 1;
        var dIndex := buf[nowBytes];
        nowBytes := nowBytes + 1;
        var offloadFlag := buf[nowBytes];
        nowBytes := nowBytes + 1;
        rules := rules[key := Data(offloadFlag, dIndex)];
        AddOneMore(old(rules), RulesAt(b, at, i).items, Rule(key, Data(offloadFlag, dIndex)));
      }
    }

    lemma NothingRead(b: seq<u8>, at: nat, m: Rules)
      ensures RulesAt(b, at, 0) == Parsed([], at) && AddRules(m, []) == m
    {
    }

    method ReceiveRemoved(buf: array<u8>, at: nat, delSize: nat) returns (nowBytes: nat)
      requires NamesAt(buf[..], at, delSize).Parsed?
      modifies this`rules
      ensures Parsed(NamesAt(buf[..], at, delSize).items, nowBytes) == NamesAt(buf[..], at, delSize)
      ensures rules == DelRules(old(rules), NamesAt(buf[..], at, delSize).items)
    {
      nowBytes := at;
      for i := 0 to delSize
        invariant NamesAt(buf[..], at, i).Parsed? && nowBytes == NamesAt(buf[..], at, i).next
        invariant rules == DelRules(old(rules), NamesAt(buf[..], at, i).items)
      {
        NamesPrefix(buf[..], at, delSize, i);
        var key := ReadName(buf, nowBytes);
        rules := rules - {key};
        nowBytes := nowBytes + |key| + 1;
      }
    }

    method ReceiveRules(buf: array<u8>) returns (nowBytes: nat)
      requires buf.Length >= 3 && UpdateRules(Current(), buf[..]).Some?
      modifies this`rules
      ensures Some((Current(), nowBytes)) == UpdateRules(old(Current()), buf[..])
    {
      hide RulesAt, NamesAt, AddRules, DelRules;
      var addSize, delSize := buf[1], buf[2];
      nowBytes := ReceiveAdded(buf, 3, addSize);
      nowBytes := ReceiveRemoved(buf, nowBytes, delSize);
    }

    method ReceiveAddedBackends(buf: array<u8>, at: nat, addSize: nat) returns (nowBytes: nat)
      requires at + 17 * addSize <= buf.Length
      modifies this`backends
      ensures nowBytes == at + 17 * addSize
      ensures backends == AddBackends(old(backends), BackendsAt(buf[..], at, addSize))
    {
      hide ServerAt, HoldsBackends;
      ghost var all := BackendsAt(buf[..], at, addSize);
      nowBytes := at;
      for i := 0 to addSize
        invariant nowBytes == at + 17 * i && backends == AddBackends(old(backends), all[..i])
      {
        assert all[..i + 1][..i] == all[..i];
        var index := buf[nowBytes];
        nowBytes := nowBytes + 1;
        backends := backends[index := ServerAt(buf[..], nowBytes)];
        nowBytes := nowBytes + SERVER_SIZE;
      }
      assert all[..addSize] == all;
    }

    lemma DelOneMore(m: Backends, indices: seq<u8>, index: u8)
      ensures DelBackends(m, indices + [index]) == DelBackends(m, indices) - {index}
    {
      assert (indices + [index])[..|indices|] == indices;
    }

    method ReceiveRemovedBackends(buf: array<u8>, at: nat, delSize: nat) returns (nowBytes: nat)
      requires at + delSize <= buf.Length
      modifies this`backends
      ensures nowBytes == at + delSize
      ensures backends == DelBackends(old(backends), buf[at..at + delSize])
    {
      ghost var indices := buf[at..at + delSize];
      nowBytes := at;
      for i := 0 to delSize
        invariant nowBytes == at + i && backends == DelBackends(old(backends), indices[..i])
      {
        assert indices[..i + 1] == indices[..i] + [indices[i]];
        DelOneMore(old(backends), indices[..i], indices[i]);
        backends := backends - {buf[nowBytes]};
        nowBytes := nowBytes + 1;
      }
      assert indices[..delSize] == indices;
    }

    method ReceiveBackends(buf: array<u8>) returns (nowBytes: nat)
      requires buf.Length >= 3 && UpdateBackends(Current(), buf[..]).Some?
      modifies this`backends
      ensures Some((Current(), nowBytes)) == UpdateBackends(old(Current()), buf[..])
    {
      hide BackendsAt, AddBackends, DelBackends;
      var addSize, delSize := buf[1], buf[2];
      nowBytes := ReceiveAddedBackends(buf, 3, addSize);
      nowBytes := ReceiveRemovedBackends(buf, nowBytes, delSize);
    }

    /** One receive: one message, read inside its buffer; an unknown type changes nothing. */
    method Receive(buf: array<u8>)
      requires buf.Length > 0 && Update(Current(), buf[..]).Some?
      modifies this
      ensures Current() == Update(old(Current()), buf[..]).value.0
    {
      if buf[0] == UPDATE_RULE {
        var _ := ReceiveRules(buf);
      } else if buf[0] == UPDATE_D_INDEX {
        var _ := ReceiveBackends(buf);
      } else if buf[0] == UPDATE_V_INFO {
        virtualServer := ServerAt(buf[..], 1);
      }
    }
  }
}
