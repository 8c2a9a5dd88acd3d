/** What the back-end agent does to headers and to its two maps, per segment. */
module Splice {
  import opened Words
  import opened Packets

  /** Per client: the sequence number its stream starts from, and what to add to its acknowledgments. */
  datatype Splices = Splices(seqs: map<Endpoint, u32>, diffs: map<Endpoint, u32>)

  /** A segment from client `h.src` to the back-end. */
  function IngressHeader(m: Splices, h: Header): Header {
    if h.src in m.diffs then h.(ackNo := Add32(h.ackNo, m.diffs[h.src]))
    else if h.flags.syn then h.(ackNo := 0)
    else h
  }

  function IngressSplices(m: Splices, h: Header): Splices {
    if h.src !in m.diffs && h.flags.syn then m.(seqs := m.seqs[h.src := h.ackNo]) else m
  }

  /** A segment from the back-end to client `h.dst`. */
  function EgressHeader(m: Splices, h: Header): Header {
    if h.dst in m.diffs then h.(seqNo := Sub32(h.seqNo, m.diffs[h.dst])) else h
  }

  function EgressSplices(m: Splices, h: Header): Splices {
    if h.dst in m.diffs then
      if h.flags.rst then Splices(m.seqs - {h.dst}, m.diffs - {h.dst}) else m
    else if h.flags.syn && h.flags.ack && h.dst in m.seqs then
      m.(diffs := m.diffs[h.dst := Sub32(h.seqNo, m.seqs[h.dst])])
    else m
  }

  // ---- Whole runs ----

  datatype Event = Ingress(h: Header) | Egress(h: Header)

  function Handle(m: Splices, e: Event): Splices {
    match e case Ingress(h) => IngressSplices(m, h) case Egress(h) => EgressSplices(m, h)
  }

  function HandleAll(m: Splices, es: seq<Event>): Splices
    decreases |es|
  {
    if es == [] then m else HandleAll(Handle(m, es[0]), es[1..])
  }

  /** The back-end resets client `k`. */
  predicate Resets(e: Event, k: Endpoint) {
    e.Egress? && e.h.dst == k && e.h.flags.rst
  }

  /** A splice lives on with one difference until the back-end resets its client, and is gone after it. */
  lemma SpliceEndsExactly(m: Splices, e: Event, k: Endpoint)
    requires k in m.diffs
    ensures (k in Handle(m, e).diffs && Handle(m, e).diffs[k] == m.diffs[k]) <==> !Resets(e, k)
    ensures Resets(e, k) ==> k !in Handle(m, e).diffs && k !in Handle(m, e).seqs
  {
  }

  /** A difference appears only when a SYN-ACK answers a recorded SYN. */
  predicate Opens(m: Splices, e: Event, k: Endpoint) {
    e.Egress? && e.h.dst == k && e.h.flags.syn && e.h.flags.ack && k in m.seqs
  }

  lemma SpliceStartsExactly(m: Splices, e: Event, k: Endpoint)
    requires k !in m.diffs
    ensures k in Handle(m, e).diffs <==> Opens(m, e, k)
    ensures Opens(m, e, k) ==> Handle(m, e).diffs[k] == Sub32(e.h.seqNo, m.seqs[k])
  {
  }

  /** Between its start and a reset by the back-end every segment of a client meets one difference. */
  lemma {:induction false} OneDifference(m: Splices, es: seq<Event>, k: Endpoint)
    requires k in m.diffs && forall i | 0 <= i < |es| :: !Resets(es[i], k)
    ensures k in HandleAll(m, es).diffs && HandleAll(m, es).diffs[k] == m.diffs[k]
    decreases |es|
  {
    if es != [] {
      assert !Resets(es[0], k);
      assert forall i | 0 <= i < |es[1..]| :: es[1..][i] == es[i + 1];
      SpliceEndsExactly(m, es[0], k);
      OneDifference(Handle(m, es[0]), es[1..], k);
    }
  }

  lemma {:induction false} HandleLast(m: Splices, es: seq<Event>)
    requires es != []
    ensures HandleAll(m, es) == Handle(HandleAll(m, es[..|es| - 1]), es[|es| - 1])
    decreases |es|
  {
    hide Handle;
    if |es| > 1 {
      HandleLast(Handle(m, es[0]), es[1..]);
      assert es[1..][..|es| - 2] == es[..|es| - 1][1..];
    } else {
      assert es[..0] == [] && es[1..] == [];
    }
  }

  /** Event `i` of the run starts a splice for `k`, with difference `d`, that the back-end has not reset since. */
  ghost predicate Origin(m: Splices, es: seq<Event>, k: Endpoint, i: nat, d: u32) {
    && i < |es| && (forall j | i < j < |es| :: !Resets(es[j], k))
    && var before := HandleAll(m, es[..i]);
       k !in before.diffs && Opens(before, es[i], k) && d == Sub32(es[i].h.seqNo, before.seqs[k])
  }

  lemma OriginShorter(m: Splices, es: seq<Event>, k: Endpoint, i: nat, d: u32)
    requires i < |es| - 1
    ensures Origin(m, es, k, i, d) <==> Origin(m, es[..|es| - 1], k, i, d) && !Resets(es[|es| - 1], k)
  {
    hide HandleAll, Resets;
    var init := es[..|es| - 1];
    assert init[..i] == es[..i] && init[i] == es[i];
    if Origin(m, init, k, i, d) && !Resets(es[|es| - 1], k) {
      forall j | i < j < |es| ensures !Resets(es[j], k) {
        if j < |init| { assert !Resets(init[j], k); }
      }
    }
    if Origin(m, es, k, i, d) {
      assert !Resets(es[|es| - 1], k);
      forall j | i < j < |init| ensures !Resets(init[j], k) { assert !Resets(es[j], k); }
    }
  }

  /** After any run a client has a splice with difference `d` exactly when some event started it with that
      difference and the back-end has not reset the client since. */
  lemma {:induction false} SpliceOriginExactly(m: Splices, es: seq<Event>, k: Endpoint, d: u32)
    requires k !in m.diffs
    ensures k in HandleAll(m, es).diffs && HandleAll(m, es).diffs[k] == d <==> exists i :: Origin(m, es, k, i, d)
    decreases |es|
  {
    hide HandleAll, Handle, Origin, Opens, Resets;
    if es == [] {
      NoEvents(m, k, d);
    } else {
      var n := |es| - 1;
      var init, last := es[..n], es[n];
      var s := HandleAll(m, init);
      HandleLast(m, es);
      SpliceOriginExactly(m, init, k, d);
      LastOrigin(m, es, k, d);
      if k in s.diffs { SpliceEndsExactly(s, last, k); } else { SpliceStartsExactly(s, last, k); }
      forall i: nat
        ensures i < n ==> (Origin(m, es, k, i, d) <==> Origin(m, init, k, i, d) && !Resets(last, k))
        ensures i > n ==> !Origin(m, es, k, i, d)
        ensures i >= n ==> !Origin(m, init, k, i, d)
      {
        if i < n { OriginShorter(m, es, k, i, d); }
        OriginInside(m, es, k, i, d);
        OriginInside(m, init, k, i, d);
      }
    }
  }

  /** Event `i` of the run records `x` for client `k`, and nothing has replaced it since. */
  ghost predicate Recorded(m: Splices, es: seq<Event>, k: Endpoint, i: nat, x: u32) {
    && i < |es| && Records(HandleAll(m, es[..i]), es[i], k) && x == es[i].h.ackNo
    && forall j | i < j < |es| ::
         !Records(HandleAll(m, es[..j]), es[j], k) && !(k in HandleAll(m, es[..j]).diffs && Resets(es[j], k))
  }

  /** A client's SYN that meets no splice. */
  predicate Records(m: Splices, e: Event, k: Endpoint) {
    e.Ingress? && e.h.src == k && e.h.flags.syn && k !in m.diffs
  }

  lemma RecordStep(m: Splices, e: Event, k: Endpoint)
    ensures Records(m, e, k) ==> k in Handle(m, e).seqs && Handle(m, e).seqs[k] == e.h.ackNo
    ensures !Records(m, e, k) ==>
              var gone := k in m.diffs && Resets(e, k);
              && (k in Handle(m, e).seqs <==> k in m.seqs && !gone)
              && (k in m.seqs && !gone ==> Handle(m, e).seqs[k] == m.seqs[k])
  {
  }

  /** After any run the agent has number `x` on record for a client exactly when the client's last SYN that met
      no splice acknowledged `x`, and the back-end has not reset a splice of the client since. */
  lemma {:induction false} RecordExactly(m: Splices, es: seq<Event>, k: Endpoint, x: u32)
    requires k !in m.seqs
    ensures k in HandleAll(m, es).seqs && HandleAll(m, es).seqs[k] == x <==> exists i :: Recorded(m, es, k, i, x)
    decreases |es|
  {
    hide HandleAll, Handle, Records, Resets, Recorded;
    if es == [] {
      NothingRecorded(m, k, x);
    } else {
      var n := |es| - 1;
      var init, last := es[..n], es[n];
      var s := HandleAll(m, init);
      HandleLast(m, es);
      RecordExactly(m, init, k, x);
      RecordStep(s, last, k);
      LastRecorded(m, es, k, x);
      var over := Records(s, last, k) || (k in s.diffs && Resets(last, k));
      forall i: nat
        ensures i < n ==> (Recorded(m, es, k, i, x) <==> Recorded(m, init, k, i, x) && !over)
        ensures i > n ==> !Recorded(m, es, k, i, x)
        ensures i >= n ==> !Recorded(m, init, k, i, x)
      {
        if i < n { RecordedShorter(m, es, k, i, x); }
        RecordedInside(m, es, k, i, x);
        RecordedInside(m, init, k, i, x);
      }
    }
  }

  lemma NothingRecorded(m: Splices, k: Endpoint, x: u32)
    ensures HandleAll(m, []) == m && forall i :: !Recorded(m, [], k, i, x)
  {
  }

  lemma RecordedInside(m: Splices, es: seq<Event>, k: Endpoint, i: nat, x: u32)
    ensures Recorded(m, es, k, i, x) ==> i < |es|
  {
  }

  lemma LastRecorded(m: Splices, es: seq<Event>, k: Endpoint, x: u32)
    requires es != []
    ensures var n := |es| - 1;
            Recorded(m, es, k, n, x) <==> Records(HandleAll(m, es[..n]), es[n], k) && x == es[n].h.ackNo
  {
    hide HandleAll, Records, Resets;
  }

  lemma RecordedShorter(m: Splices, es: seq<Event>, k: Endpoint, i: nat, x: u32)
    requires i < |es| - 1
    ensures var n := |es| - 1;
            var s := HandleAll(m, es[..n]);
            Recorded(m, es, k, i, x) <==>
            Recorded(m, es[..n], k, i, x) && !Records(s, es[n], k) && !(k in s.diffs && Resets(es[n], k))
  {
    hide HandleAll, Records, Resets;
    var n := |es| - 1;
    var init := es[..n];
    assert forall j | 0 <= j < n :: init[..j] == es[..j] && init[j] == es[j];
    if Recorded(m, init, k, i, x) && !Records(HandleAll(m, init), es[n], k)
       && !(k in HandleAll(m, init).diffs && Resets(es[n], k)) {
      forall j | i < j < |es|
        ensures !Records(HandleAll(m, es[..j]), es[j], k) && !(k in HandleAll(m, es[..j]).diffs && Resets(es[j], k))
      {
        if j < n { assert init[..j] == es[..j] && init[j] == es[j]; }
      }
    }
    if Recorded(m, es, k, i, x) {
      forall j | i < j < n
        ensures !Records(HandleAll(m, init[..j]), init[j], k)
        ensures !(k in HandleAll(m, init[..j]).diffs && Resets(init[j], k))
      {
        assert init[..j] == es[..j] && init[j] == es[j];
      }
    }
  }

  lemma NoEvents(m: Splices, k: Endpoint, d: u32)
    ensures HandleAll(m, []) == m && forall i :: !Origin(m, [], k, i, d)
  {
  }

  lemma OriginInside(m: Splices, es: seq<Event>, k: Endpoint, i: nat, d: u32)
    ensures Origin(m, es, k, i, d) ==> i < |es|
  {
  }

  lemma LastOrigin(m: Splices, es: seq<Event>, k: Endpoint, d: u32)
    requires es != []
    ensures var n, s := |es| - 1, HandleAll(m, es[..|es| - 1]);
            Origin(m, es, k, n, d) <==> k !in s.diffs && Opens(s, es[n], k) && d == Sub32(es[n].h.seqNo, s.seqs[k])
  {
    hide HandleAll, Resets;
  }

  /** Whatever passes between, the client's acknowledgment of the byte `n` places after a back-end
      segment arrives as the acknowledgment of the byte `n` places after what the back-end sent. */
  lemma AcknowledgmentsReturn(m: Splices, out: Header, es: seq<Event>, back: Header, n: int)
    requires out.dst in m.diffs && !out.flags.rst && back.src == out.dst
    requires forall i | 0 <= i < |es| :: !Resets(es[i], out.dst)
    requires back.ackNo == Advance(EgressHeader(m, out).seqNo, n)
    ensures IngressHeader(HandleAll(EgressSplices(m, out), es), back).ackNo == Advance(out.seqNo, n)
  {
    OneDifference(m, es, out.dst);
    ShiftBack(out.seqNo, m.diffs[out.dst], n);
  }

  lemma ShiftBack(y: u32, d: u32, n: int)
    ensures Add32(Advance(Sub32(y, d), n), d) == Advance(y, n)
  {
    var s: int := Sub32(y, d);
    var q := (y - d) / TWO_32;
    assert y - d == s + TWO_32 * q;
    var a: int := Advance(s, n);
    var r := (s + n) / TWO_32;
    assert s + n == a + TWO_32 * r;
    assert a + d == y + n - TWO_32 * (q + r);
    ModShift(y + n, -(q + r));
  }

  lemma ModShift(a: int, q: int)
    ensures (a + TWO_32 * q) % TWO_32 == a % TWO_32
  {
    var b := a + TWO_32 * q;
    assert b - a == TWO_32 * q;
    var x, y := b / TWO_32, a / TWO_32;
    assert b % TWO_32 - a % TWO_32 == TWO_32 * (q - x + y);
  }

  lemma DistanceKept(a: u32, b: u32, d: int)
    ensures Sub32((b + d) % TWO_32, (a + d) % TWO_32) == Sub32(b, a)
  {
    var q, r := (b + d) / TWO_32, (a + d) / TWO_32;
    var x, y: int := (b + d) % TWO_32, (a + d) % TWO_32;
    assert x - y == (b - a) + TWO_32 * (r - q);
    ModShift(b - a, r - q);
  }

  /** Translation by one difference keeps the circular order of sequence numbers. */
  lemma OrderPreserved(a: u32, b: u32, d: u32)
    ensures SeqBefore(Sub32(a, d), Sub32(b, d)) <==> SeqBefore(a, b)
    ensures SeqBefore(Add32(a, d), Add32(b, d)) <==> SeqBefore(a, b)
  {
    var e: int := d;
    DistanceKept(a, b, -e);
    DistanceKept(a, b, e);
  }
}
