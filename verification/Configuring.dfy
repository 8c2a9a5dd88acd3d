/** A new front-end's configuration: the three messages of the switch's controller, in order, and what any update
    message, additions and removals, makes of a configuration. */
module Configuring {
  import opened Words
  import opened Packets
  import opened FrontEnd
  import opened OffloadWire
  import opened OffloadStream
  import opened Config

  // ---- The virtual server ----

  /** The memory image of server `s` at `at`: six bytes of address, IP and port in little-endian order; padding at
      6, 7, 14 and 15 is arbitrary. */
  predicate CarriesServer(b: seq<u8>, at: nat, s: ServerInfo) {
    && at + 16 <= |b| && b[at..at + 6] == s.mac
    && b[at + 8..at + 12] == Image32(s.ip) && b[at + 12..at + 14] == Image16(s.port)
  }

  lemma Image16Exactly(b: seq<u8>, i: nat, v: u16)
    requires i + 2 <= |b|
    ensures b[i..i + 2] == Image16(v) <==> Le16(b, i) == v
  {
    var x := b[i..i + 2];
    assert x[0] == b[i] && x[1] == b[i + 1];
    if Le16(b, i) == v { assert v % 0x100 == b[i] && v / 0x100 == b[i + 1] && x == Image16(v); }
    if x == Image16(v) { Image16Read(v, b, i); }
  }

  lemma Image32Exactly(b: seq<u8>, i: nat, v: u32)
    requires i + 4 <= |b|
    ensures b[i..i + 4] == Image32(v) <==> Le32(b, i) == v
  {
    hide Image16;
    var low, high := Le16(b, i), Le16(b, i + 2);
    if Le32(b, i) == v {
      assert v % 0x1_0000 == low && v / 0x1_0000 == high;
      Image16Exactly(b, i, low);
      Image16Exactly(b, i + 2, high);
      assert b[i..i + 4] == b[i..i + 2] + b[i + 2..i + 4];
    }
    if b[i..i + 4] == Image32(v) { Image32Read(v, b, i); }
  }

  lemma ServerExactly(b: seq<u8>, at: nat, s: ServerInfo)
    requires at + 16 <= |b|
    ensures CarriesServer(b, at, s) <==> ServerAt(b, at) == s
  {
    hide Image32, Image16, Le32, Le16;
    Image32Exactly(b, at + 8, s.ip);
    Image16Exactly(b, at + 12, s.port);
  }

  /** The message of the virtual server, as sent. */
  predicate VirtualSent(b: seq<u8>, s: ServerInfo) {
    |b| >= 20 && b[0] == 2 && CarriesServer(b, 1, s) && b[17] == 0 && b[18] == 0 && b[19] == 0
  }

  method EncodeVirtual(buf: array<u8>, s: ServerInfo) returns (nowBytes: nat)
    requires buf.Length == SEND_SIZE
    modifies buf
    ensures nowBytes == 20 && VirtualSent(buf[..], s)
  {
    hide CarriesServer, ServerAt;
    buf[0] := UPDATE_V_INFO;
    PutServer(buf, 1, s);
    ghost var mid := buf[..];
    ServerExactly(mid, 1, s);
    buf[17], buf[18], buf[19] := 0, 0, 0;
    nowBytes := 20;
    ServerKept(mid, buf[..], s);
  }

  lemma ServerKept(b: seq<u8>, b': seq<u8>, s: ServerInfo)
    requires CarriesServer(b, 1, s) && |b'| == |b| && forall i | 1 <= i < 17 :: b'[i] == b[i]
    ensures CarriesServer(b', 1, s)
  {
    assert b'[1..7] == b[1..7] && b'[9..13] == b[9..13] && b'[13..15] == b[13..15];
  }

  /** A front-end stores the virtual server it receives, and nothing else changes. */
  lemma VirtualStored(c: Configuration, b: seq<u8>, s: ServerInfo)
    requires b != [] && b[0] == 2 && CarriesServer(b, 1, s)
    ensures Update(c, b) == Some((Configuration(c.rules, c.backends, s), 17))
  {
    hide CarriesServer, ServerAt;
    assert |b| >= 17 by { Room(b, s); }
    ServerExactly(b, 1, s);
  }

  lemma Room(b: seq<u8>, s: ServerInfo)
    requires CarriesServer(b, 1, s)
    ensures |b| >= 17
  {
  }

  lemma UnknownIgnored(c: Configuration, b: seq<u8>)
    requires b != [] && b[0] > 2
    ensures Update(c, b) == Some((c, 1))
  {
  }

  // ---- Removals ----

  function NamesBytes(names: seq<string>): (b: seq<u8>)
    requires forall i | 0 <= i < |names| :: Encodable(names[i])
  {
    if names == [] then [] else NamesBytes(names[..|names| - 1]) + NameBytes(names[|names| - 1]) + [0]
  }

  lemma NameRead(pre: seq<u8>, name: string, rest: seq<u8>)
    requires Encodable(name)
    ensures NameAt(pre + NameBytes(name) + [0] + rest, |pre|) == Some(name)
  {
    var b := pre + NameBytes(name) + [0] + rest;
    assert forall j | 0 <= j < |name| :: b[|pre| + j] == NameBytes(name)[j];
    assert b[|pre| + |name|] == 0;
    HeldNameIsRead(b, |pre|, name);
  }

  lemma RegroupFive(a: seq<u8>, b: seq<u8>, c: seq<u8>, d: seq<u8>, e: seq<u8>)
    ensures a + (b + c + d) + e == (a + b) + c + d + e == a + b + (c + d + e)
  {
  }

  /** Encoded names are read back, wherever they stand. */
  lemma {:induction false} NamesRead(pre: seq<u8>, names: seq<string>, rest: seq<u8>)
    requires forall i | 0 <= i < |names| :: Encodable(names[i])
    ensures NamesAt(pre + NamesBytes(names) + rest, |pre|, |names|) == Parsed(names, |pre| + |NamesBytes(names)|)
    decreases |names|
  {
    hide NameAt, HoldsName, Encodable, NameBytes, NamesAt;
    if names == [] {
      NoNamesRead(pre + rest, |pre|);
      assert pre + NamesBytes(names) + rest == pre + rest;
    } else {
      var init, last := names[..|names| - 1], names[|names| - 1];
      var head := pre + NamesBytes(init);
      RegroupFive(pre, NamesBytes(init), NameBytes(last), [0], rest);
      NamesRead(pre, init, NameBytes(last) + [0] + rest);
      NextName(head + NameBytes(last) + [0] + rest, |pre|, init, head, last, rest);
      assert names == init + [last];
    }
  }

  lemma NoNamesRead(b: seq<u8>, at: nat)
    ensures NamesAt(b, at, 0) == Parsed([], at)
  {
  }

  lemma NextName(b: seq<u8>, at: nat, init: seq<string>, head: seq<u8>, last: string, rest: seq<u8>)
    requires Encodable(last) && b == head + NameBytes(last) + [0] + rest
    requires NamesAt(b, at, |init|) == Parsed(init, |head|)
    ensures NamesAt(b, at, |init| + 1) == Parsed(init + [last], |head| + |NameBytes(last)| + 1)
  {
    hide NameAt, HoldsName, Encodable;
    NameRead(head, last, rest);
  }

  /** A message that adds the rules `rs` and then removes those of `names`. */
  function RuleChange(rs: seq<Rule>, names: seq<string>): (b: seq<u8>)
    requires AllEncodable(rs) && forall i | 0 <= i < |names| :: Encodable(names[i])
    requires |rs| < 0x100 && |names| < 0x100
  {
    var header: seq<u8> := [0, |rs|, |names|];
    header + RulesBytes(rs) + NamesBytes(names)
  }

  lemma {:induction false} RemovedExactly(m: Rules, names: seq<string>, name: string)
    ensures name in DelRules(m, names) <==> name in m && name !in names
    ensures name in DelRules(m, names) ==> DelRules(m, names)[name] == m[name]
  {
    if names != [] {
      var init, last := names[..|names| - 1], names[|names| - 1];
      RemovedExactly(m, init, name);
      assert name in names <==> name in init || name == last by { assert names == init + [last]; }
    }
  }

  /** After a change each name has the data of its last added rule, or what it had before, or is gone when removed; the
      message is consumed to its last byte, and nothing else changes. */
  lemma RuleChangeDone(c: Configuration, rs: seq<Rule>, names: seq<string>, rest: seq<u8>)
    requires AllEncodable(rs) && (forall i | 0 <= i < |names| :: Encodable(names[i])) && |rs| < 0x100 && |names| < 0x100
    ensures Update(c, RuleChange(rs, names) + rest).Some?
    ensures var (c', end) := Update(c, RuleChange(rs, names) + rest).value;
            && end == |RuleChange(rs, names)| && c'.backends == c.backends && c'.virtualServer == c.virtualServer
            && c'.rules == DelRules(AddRules(c.rules, rs), names)
  {
    hide RulesAt, NamesAt, RulesBytes, NamesBytes, AddRules, DelRules, Encodable, UpdateBackends, ServerAt;
    var header: seq<u8> := [0, |rs|, |names|];
    var b := RuleChange(rs, names) + rest;
    assert b == header + RulesBytes(rs) + (NamesBytes(names) + rest);
    assert b == (header + RulesBytes(rs)) + NamesBytes(names) + rest;
    assert b[0] == 0 && b[1] == |rs| && b[2] == |names|;
    RulesRead(header, rs, NamesBytes(names) + rest);
    NamesRead(header + RulesBytes(rs), names, rest);
  }

  lemma {:induction false} IndexRemovedExactly(m: Backends, indices: seq<u8>, index: u8)
    ensures index in DelBackends(m, indices) <==> index in m && index !in indices
    ensures index in DelBackends(m, indices) ==> DelBackends(m, indices)[index] == m[index]
  {
    if indices != [] {
      var init, last := indices[..|indices| - 1], indices[|indices| - 1];
      IndexRemovedExactly(m, init, index);
      assert index in indices <==> index in init || index == last by { assert indices == init + [last]; }
    }
  }

  /** Likewise for back-ends: entries of 17 bytes, then the indices to remove. */
  lemma BackendChangeDone(c: Configuration, b: seq<u8>, ds: seq<Backend>, indices: seq<u8>)
    requires |ds| < 0x100 && |indices| < 0x100 && |b| >= 3 + 17 * |ds| + |indices|
    requires b[0] == 1 && b[1] == |ds| && b[2] == |indices|
    requires forall j | 0 <= j < |ds| ::
               b[3 + 17 * j] == ds[j].index && CarriesServer(b, 3 + 17 * j + 1, ds[j].server)
    requires b[3 + 17 * |ds|..3 + 17 * |ds| + |indices|] == indices
    ensures Update(c, b)
         == Some((c.(backends := DelBackends(AddBackends(c.backends, ds), indices)), 3 + 17 * |ds| + |indices|))
  {
    hide ServerAt, CarriesServer, AddBackends, DelBackends, RulesAt, NamesAt;
    forall j | 0 <= j < |ds| ensures b[3 + 17 * j] == ds[j].index && ServerAt(b, 3 + 17 * j + 1) == ds[j].server {
      ServerExactly(b, 3 + 17 * j + 1, ds[j].server);
    }
    HeldBackendsAreRead(b, 3, ds);
    assert BackendsEnd(b) == 3 + 17 * |ds|;
  }

  // ---- A new connection ----

  /** One send, received whole: the bytes go to the front of the receive buffer. */
  method Transfer(send: array<u8>, n: nat, recv: array<u8>)
    requires n <= send.Length && n <= recv.Length && send != recv
    modifies recv
    ensures recv[..n] == send[..n]
  {
    for i := 0 to n
      invariant forall j | 0 <= j < i :: recv[j] == send[j]
    {
      recv[i] := send[i];
    }
  }

  lemma Arrived(a: seq<u8>, b: seq<u8>, n: nat)
    requires n <= |a| && n <= |b| && a[..n] == b[..n]
    ensures forall i | 0 <= i < n :: a[i] == b[i]
  {
    forall i | 0 <= i < n ensures a[i] == b[i] {
      assert a[..n][i] == b[..n][i];
    }
  }

  lemma BackendsArrived(a: seq<u8>, b: seq<u8>, ds: seq<Backend>)
    requires BackendsSent(a, ds) && 3 + 17 * |ds| <= |b| && a[..3 + 17 * |ds|] == b[..3 + 17 * |ds|]
    ensures BackendsSent(b, ds)
  {
    Arrived(a, b, 3 + 17 * |ds|);
    HeldBackendsKept(a, b, 3, ds);
  }

  lemma VirtualArrived(a: seq<u8>, b: seq<u8>, s: ServerInfo)
    requires VirtualSent(a, s) && 20 <= |b| && a[..20] == b[..20]
    ensures VirtualSent(b, s)
  {
    hide Image32, Image16;
    Arrived(a, b, 20);
    assert b[1..7] == a[1..7] && b[9..13] == a[9..13] && b[13..15] == a[13..15];
  }

  const RECEIVE_SIZE: nat := 1514

  /** The three messages of a new connection, each received by itself. They build exactly the controller's
      configuration, unless a list overruns the send buffer or 256 rules are announced as none. */
  method Announce(rules: array<Rule>, ruleSize: nat, table: array<Backend>, dIndexSize: nat, virtual: ServerInfo,
                  front: RuleController) returns (sent: bool)
    requires ruleSize <= rules.Length && ruleSize <= TABLE_SIZE
    requires dIndexSize <= table.Length && dIndexSize <= TABLE_SIZE
    requires AllEncodable(rules[..ruleSize])
    requires front.Current() == Configuration(map[], map[], ServerInfo([0, 0, 0, 0, 0, 0], 0, 0))
    modifies front
    ensures sent <==> 3 + RulesSize(rules[..ruleSize]) <= SEND_SIZE && 3 + 17 * dIndexSize <= SEND_SIZE
    ensures sent && ruleSize < TABLE_SIZE ==>
              front.Current()
                == Configuration(AddRules(map[], rules[..ruleSize]), AddBackends(map[], table[..dIndexSize]), virtual)
    ensures sent && ruleSize == TABLE_SIZE ==>
              front.Current() == Configuration(map[], AddBackends(map[], table[..dIndexSize]), virtual)
  {
    hide Update, AddRules, AddBackends, RuleMessage, RulesSize, AllEncodable, BackendsSent, VirtualSent;
    ghost var rs, ds := rules[..ruleSize], table[..dIndexSize];
    var sendBuffer, recvBuffer := new u8[SEND_SIZE](_ => 0), new u8[RECEIVE_SIZE](_ => 0);
    var r := EncodeRules(sendBuffer, rules, ruleSize);
    if r.Overrun? { return false; }
    Transfer(sendBuffer, r.size, recvBuffer);
    ghost var b := recvBuffer[..];
    assert b == RuleMessage(rs) + b[r.size..];
    RulesAnnounced(front.Current(), rs, b[r.size..]);
    front.Receive(recvBuffer);
    r := EncodeBackends(sendBuffer, table, dIndexSize);
    if r.Overrun? { return false; }
    Transfer(sendBuffer, r.size, recvBuffer);
    BackendsArrived(sendBuffer[..], recvBuffer[..], ds);
    BackendsMessage(recvBuffer[..], ds);
    BackendsUpdate(front.Current(), recvBuffer[..], ds);
    front.Receive(recvBuffer);
    var n := EncodeVirtual(sendBuffer, virtual);
    Transfer(sendBuffer, n, recvBuffer);
    VirtualArrived(sendBuffer[..], recvBuffer[..], virtual);
    VirtualMessage(recvBuffer[..], virtual);
    VirtualStored(front.Current(), recvBuffer[..], virtual);
    front.Receive(recvBuffer);
    sent := true;
  }

  lemma RulesAnnounced(c: Configuration, rs: seq<Rule>, rest: seq<u8>)
    requires |rs| <= TABLE_SIZE && AllEncodable(rs)
    ensures |RuleMessage(rs)| > 0
    ensures |rs| < TABLE_SIZE ==>
              Update(c, RuleMessage(rs) + rest) == Some((c.(rules := AddRules(c.rules, rs)), |RuleMessage(rs)|))
    ensures |rs| == TABLE_SIZE ==> Update(c, RuleMessage(rs) + rest) == Some((c, 3))
  {
    hide Update, AddRules;
    if |rs| < TABLE_SIZE { RulesUpdate(c, rs, rest); } else { FullUpdate(c, rs, rest); }
  }

  lemma BackendsMessage(b: seq<u8>, ds: seq<Backend>)
    requires BackendsSent(b, ds)
    ensures b != []
  {
  }

  lemma VirtualMessage(b: seq<u8>, s: ServerInfo)
    requires VirtualSent(b, s)
    ensures b != [] && b[0] == 2 && CarriesServer(b, 1, s)
  {
  }
}
