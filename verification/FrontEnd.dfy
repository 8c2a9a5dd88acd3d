/** The front-end: one packet is one atomic step on the table of client flows. */
module FrontEnd {
  import opened Words
  import opened Packets

  datatype FlowState = Init | BackendSyn | Offload | Complete

  /** A balancing decision: the back-end index, and 1 when the flow may be offloaded. */
  datatype Data = Data(offloadFlag: u8, dIndex: u8)

  /** A flow record and the request packet it caches. */
  datatype Flow = Flow(state: FlowState, data: Data, cached: Packet)

  /** What a table key refers to: a live record, or one that has been freed. */
  datatype Entry = Live(flow: Flow) | Dangling

  type Table = map<Endpoint, Entry>

  /** The rule controller's view at the moment of one step. */
  datatype Env = Env(rules: map<string, Data>, backends: map<u8, Endpoint>, vip: Endpoint)

  datatype Pair = Pair(key: Endpoint, data: Data)

  /** What a step puts on one of the two queues to the switch. */
  datatype Op = AddOp(pair: Pair) | DelOp(key: Endpoint)

  datatype Out =
    | Blank
    | Inbound(pkt: Packet)
    | Outbound(pkt: Packet)
    | Syn(pkt: Packet)
    | Cached(pkt: Packet)
    | RstReply(to: Endpoint)
    | RstToBackend(dIndex: u8)

  /** `Stop` is the early return with an error status; `Undefined` is a freed record,
      a missing server behind an unchecked pointer, or a token longer than its buffer. */
  datatype Outcome = Next(table: Table, outs: seq<Out>, ops: seq<Op>) | Stop | Undefined

  /** Capacity of the buffer for a token and its terminator. */
  const URL_CAPACITY: nat := 20

  predicate HasPayload(p: Packet) {
    HeaderSize(p) < p.totalLen
  }

  /** The run of characters up to a space, a carriage return or the end. */
  function Word(s: string): (w: string)
    ensures w <= s
  {
    if s == [] || s[0] == ' ' || s[0] == '\r' then [] else [s[0]] + Word(s[1..])
  }

  /** The word after the first slash; empty without a slash. */
  function Token(s: string): (w: string)
    ensures |w| <= |s|
  {
    if s == [] then [] else if s[0] == '/' then Word(s[1..]) else Token(s[1..])
  }

  /** A character that ends a token. */
  predicate EndsToken(c: char) {
    c == ' ' || c == '\r'
  }

  /** The token is the run between the first slash and the next space, carriage return or end. */
  lemma {:induction false} TokenBetween(before: string, w: string, after: string)
    requires '/' !in before && (forall c | c in w :: !EndsToken(c)) && (after != [] ==> EndsToken(after[0]))
    ensures Token(before) == [] && Token(before + ['/'] + w + after) == w
    decreases |before|
  {
    if before == [] {
      assert (before + ['/'] + w + after)[1..] == w + after;
      WordBefore(w, after);
    } else {
      assert (before + ['/'] + w + after)[1..] == before[1..] + ['/'] + w + after;
      TokenBetween(before[1..], w, after);
    }
  }

  lemma {:induction false} WordBefore(w: string, after: string)
    requires (forall c | c in w :: !EndsToken(c)) && (after != [] ==> EndsToken(after[0]))
    ensures Word(w + after) == w
    decreases |w|
  {
    if w == [] {
      assert w + after == after;
    } else {
      assert w[0] in w && forall c | c in w[1..] :: c in w;
      assert (w + after)[0] == w[0] && (w + after)[1..] == w[1..] + after;
      WordBefore(w[1..], after);
    }
  }

  /** A C string ends at its first NUL. */
  function CString(s: string): (c: string)
    ensures c <= s
    ensures '\0' !in c
  {
    if s == [] || s[0] == '\0' then [] else [s[0]] + CString(s[1..])
  }

  /** The rule for a request, for tokens that fit the buffer. */
  function RuleFor(env: Env, payload: string): Option<Data> {
    var key := CString(Token(payload));
    if key in env.rules then Some(env.rules[key]) else None
  }

  /** ... and reaches up to it. */
  lemma {:induction false} CStringUntil(c: string, rest: string)
    requires '\0' !in c && (rest != [] ==> rest[0] == '\0')
    ensures CString(c + rest) == c
    decreases |c|
  {
    if c == [] {
      assert c + rest == rest;
    } else {
      assert c[0] in c && forall x | x in c[1..] :: x in c;
      assert (c + rest)[0] == c[0] && (c + rest)[1..] == c[1..] + rest;
      CStringUntil(c[1..], rest);
    }
  }

  /** A request between `before` and `after` is for the rule of the characters after its first slash, up to the first
      space, carriage return or NUL; 20 characters before space, carriage return or end are too many. */
  lemma RuleOfRequest(env: Env, before: string, c: string, rest: string, after: string)
    requires '/' !in before && (forall x | x in c :: !EndsToken(x) && x != '\0')
    requires (rest != [] ==> rest[0] == '\0') && (forall x | x in rest :: !EndsToken(x))
    requires after != [] ==> EndsToken(after[0])
    ensures var payload := before + ['/'] + (c + rest) + after;
            && RuleFor(env, payload) == (if c in env.rules then Some(env.rules[c]) else None)
            && (TokenFits(payload) <==> |c| + |rest| < 20)
  {
    TokenBetween(before, c + rest, after);
    CStringUntil(c, rest);
  }

  predicate TokenFits(payload: string) {
    |Token(payload)| < URL_CAPACITY
  }

  function DelIfOffloaded(k: Endpoint, f: Flow): seq<Op> {
    if f.state == Offload then [DelOp(k)] else []
  }

  /** A packet whose source is a live COMPLETE or OFFLOAD flow. */
  function ClientStep(env: Env, t: Table, p: Packet, f: Flow): Outcome {
    var k := p.h.src;
    if p.h.flags.rst then
      if f.data.dIndex !in env.backends then Stop
      else Next(t - {k}, [Inbound(ToBackend(p, env.backends[f.data.dIndex]))], DelIfOffloaded(k, f))
    else if p.h.flags.fin then
      if f.data.dIndex !in env.backends then Stop
      else Next(t - {k}, [RstReply(k), Inbound(ToBackend(AsRst(p), env.backends[f.data.dIndex]))], DelIfOffloaded(k, f))
    else if HasPayload(p) then
      if !TokenFits(p.payload) then Undefined
      else match RuleFor(env, p.payload)
        case None => Next(t, [], [])
        case Some(d) =>
          if d.dIndex != f.data.dIndex then
            if f.data.dIndex !in env.backends || d.dIndex !in env.backends then Undefined
            else Next(t[k := Live(Flow(BackendSyn, d, p))],
                      [RstToBackend(f.data.dIndex), Syn(SynFor(p, env.backends[d.dIndex]))], DelIfOffloaded(k, f))
          else if f.data.dIndex !in env.backends then Stop
          else
            var outs := [Inbound(ToBackend(p, env.backends[f.data.dIndex]))];
            if f.state == Complete && d.offloadFlag == 1 then
              Next(t[k := Live(f.(state := Offload))], outs, [AddOp(Pair(k, f.data))])
            else if f.state == Offload && d.offloadFlag == 0 then
              Next(t[k := Live(f.(state := Complete))], outs, [DelOp(k)])
            else Next(t, outs, [])
    else if f.data.dIndex !in env.backends then Stop
    else Next(t, [Inbound(ToBackend(p, env.backends[f.data.dIndex]))], [])
  }

  /** A packet whose source is a live BACKEND_SYN flow. The abort frees the record and keeps its key. */
  function ClientSynStep(env: Env, t: Table, p: Packet, f: Flow): Outcome {
    var k := p.h.src;
    if p.h.flags.fin || p.h.flags.rst then Next(t[k := Dangling], [RstReply(k)], [])
    else if f.cached.h.seqNo == p.h.seqNo then
      if f.data.dIndex !in env.backends then Undefined
      else Next(t, [Syn(SynFor(p, env.backends[f.data.dIndex]))], [])
    else Next(t, [], [])
  }

  /** A packet whose destination is a live BACKEND_SYN flow. */
  function BackendSynStep(env: Env, t: Table, p: Packet, f: Flow): Outcome {
    var k := p.h.dst;
    if p.h.flags != SYN_ACK then Next(t, [], [])
    else if f.data.dIndex !in env.backends then Undefined
    else
      var outs := [Cached(ToBackend(f.cached, env.backends[f.data.dIndex]))];
      if f.data.offloadFlag == 1 then Next(t[k := Live(f.(state := Offload))], outs, [AddOp(Pair(k, f.data))])
      else Next(t[k := Live(f.(state := Complete))], outs, [])
  }

  /** A packet whose destination is a live COMPLETE or OFFLOAD flow. */
  function BackendStep(env: Env, t: Table, p: Packet, f: Flow): Outcome {
    var k := p.h.dst;
    if p.h.flags.rst then
      Next(t - {k}, [Outbound(FromVirtual(p, env.vip))], DelIfOffloaded(k, f))
    else if p.h.flags.fin then
      Next(t - {k}, [RstReply(p.h.src), Outbound(FromVirtual(AsRst(p), env.vip))], DelIfOffloaded(k, f))
    else Next(t, [Outbound(FromVirtual(p, env.vip))], [])
  }

  /** A packet of no known flow. An insertion never replaces an existing record. */
  function NewStep(env: Env, t: Table, p: Packet): Outcome {
    if !HasPayload(p) then Next(t, [], [])
    else if !TokenFits(p.payload) then Undefined
    else match RuleFor(env, p.payload)
      case None => Next(t, [], [])
      case Some(d) =>
        if d.dIndex !in env.backends then Undefined
        else
          var k := p.h.src;
          Next(if k in t then t else t[k := Live(Flow(BackendSyn, d, p))], [Syn(SynFor(p, env.backends[d.dIndex]))], [])
  }

  /** The lookup by destination, and what follows when it finds nothing. */
  function DstStep(env: Env, t: Table, p: Packet): Outcome {
    var k := p.h.dst;
    if k !in t then NewStep(env, t, p)
    else match t[k]
      case Dangling => Undefined
      case Live(f) =>
        match f.state
        case BackendSyn => BackendSynStep(env, t, p, f)
        case Init => NewStep(env, t, p)
        case _ => BackendStep(env, t, p, f)
  }

  /** One iteration of the packet loop. */
  function Step(env: Env, t: Table, p: Packet): Outcome {
    if !p.isIpv4 || !p.isTcp then Next(t, [], [])
    else
      var k := p.h.src;
      if k !in t then DstStep(env, t, p)
      else match t[k]
        case Dangling => Undefined
        case Live(f) =>
          match f.state
          case BackendSyn => ClientSynStep(env, t, p, f)
          case Init => DstStep(env, t, p)
          case _ => ClientStep(env, t, p, f)
  }

  // ---- Offload accounting ----

  /** Flow `k` is OFFLOAD. */
  predicate Offloaded(t: Table, k: Endpoint) {
    k in t && t[k].Live? && t[k].flow.state == Offload
  }

  /** Flow `k` is OFFLOAD to back-end `d`. */
  predicate OffloadedTo(t: Table, k: Endpoint, d: u8) {
    Offloaded(t, k) && t[k].flow.data.dIndex == d
  }

  function KeyOf(op: Op): Endpoint {
    match op case AddOp(pair) => pair.key case DelOp(key) => key
  }

  /** Flow `k` is OFFLOAD in both tables, with one record, or in neither. */
  predicate SameOffload(t: Table, t': Table, k: Endpoint) {
    Offloaded(t', k) == Offloaded(t, k) && (Offloaded(t, k) ==> t'[k] == t[k])
  }

  /** An addition puts its flow, which was not OFFLOAD, into OFFLOAD with its data; a removal takes one out. */
  predicate Edits(t: Table, t': Table, op: Op) {
    match op
    case AddOp(pr) => !Offloaded(t, pr.key) && Offloaded(t', pr.key) && t'[pr.key].flow.data == pr.data
    case DelOp(k) => Offloaded(t, k) && !Offloaded(t', k)
  }

  /** The queued operations are exactly the edits between two tables: none, or the one edit of one flow. */
  ghost predicate Accounts(t: Table, t': Table, ops: seq<Op>) {
    && |ops| <= 1
    && (ops != [] ==> Edits(t, t', ops[0]))
    && forall k | ops == [] || KeyOf(ops[0]) != k :: SameOffload(t, t', k)
  }

  lemma ClientAccounts(env: Env, t: Table, p: Packet, f: Flow)
    requires p.h.src in t && t[p.h.src] == Live(f) && f.state in {Complete, Offload}
    requires ClientStep(env, t, p, f).Next?
    ensures Accounts(t, ClientStep(env, t, p, f).table, ClientStep(env, t, p, f).ops)
  {
  }

  lemma DstAccounts(env: Env, t: Table, p: Packet)
    requires p.h.src in t ==> t[p.h.src].Live? && t[p.h.src].flow.state == Init
    requires DstStep(env, t, p).Next?
    ensures Accounts(t, DstStep(env, t, p).table, DstStep(env, t, p).ops)
  {
  }

  /** Every defined step accounts for its queue operations, whichever lookup found the flow. */
  lemma StepAccounts(env: Env, t: Table, p: Packet)
    requires Step(env, t, p).Next?
    ensures Accounts(t, Step(env, t, p).table, Step(env, t, p).ops)
  {
    if p.isIpv4 && p.isTcp {
      if p.h.src in t && t[p.h.src].Live? && t[p.h.src].flow.state in {Complete, Offload} {
        ClientAccounts(env, t, p, t[p.h.src].flow);
      } else if p.h.src !in t || t[p.h.src].flow.state == Init {
        DstAccounts(env, t, p);
      }
    }
  }
}
