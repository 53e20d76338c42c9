/** Whole runs of the receiver: what is delivered, what is lost, and the window. */
module TcpRuns {
  import opened Bits
  import opened TcpSeq
  import opened TcpQueue
  import opened Tcp

  /** What happens to a connection: a cut of the peer's stream arrives, or the application reads. */
  datatype Event = Arrival(off: nat, len: nat, fin: bool, copied: bool) | Reading(read: U16)

  ghost predicate Possible(e: Event, stream: seq<U8>) {
    e.Arrival? ==> e.len < 0xFFFF && e.off + e.len <= |stream| && (e.fin ==> e.off + e.len == |stream|)
  }

  /** Any cuts of one stream, in any order, repeated, overlapping, lost for want of memory: the application gets
      exactly a prefix of the stream and sees its end only when it has all of it. The stream may be longer than the
      sequence space; the network only does not hold a segment back until its sequence number has come round. */
  method Run(irs: U32, stream: seq<U8>, events: seq<Event>) returns (delivered: seq<U8>, ended: bool)
    requires forall i :: 0 <= i < |events| ==> Possible(events[i], stream)
    ensures delivered <= stream && (ended ==> delivered == stream)
  {
    var pcb := new Pcb(irs, stream);
    delivered, ended := [], false;
    for i := 0 to |events|
      invariant fresh(pcb) && pcb.Valid() && pcb.irs == irs && pcb.stream == stream
      invariant delivered == pcb.delivered && ended == pcb.closing
    {
      match events[i] {
        case Arrival(off, len, fin, copied) =>
          assert Possible(events[i], stream);
          var n := |delivered| + if ended then 1 else 0;
          if n + 0xFFFF <= off + M && off + len + 1 <= n + M {
            var seg := Seg(Plus(irs, off), stream[off..off + len], fin);
            var data, gotFin, after := pcb.Input(seg, copied, off);
            delivered, ended := delivered + data, ended || gotFin;
          }
        case Reading(read) =>
          pcb.Recved(read);
      }
    }
  }

  /** An arrival that keeps to the right edge announced before it, and for which there is memory. */
  ghost predicate Sent(e: Event, edge: int) {
    e.Arrival? && e.copied && e.off + e.len + (if e.fin then 1 else 0) <= edge
  }

  /** Position p of the stream has come in with one of the first k arrivals. */
  ghost predicate Arrived(events: seq<Event>, edges: seq<int>, k: nat, p: int)
    requires k <= |events| && k <= |edges|
  {
    exists j :: 0 <= j < k && Sent(events[j], edges[j]) && events[j].off <= p < events[j].off + events[j].len
  }

  /** Two arrivals that start at the same place are the same; one that starts inside another does not end before it. */
  ghost predicate Agree(a: Event, b: Event) {
    a.Arrival? && b.Arrival? ==>
      && (a.off == b.off ==> a.len == b.len && a.fin == b.fin)
      && (a.off < b.off < a.off + a.len ==> a.off + a.len <= b.off + b.len)
  }

  /** A peer that sends the same pieces again when it repeats something. */
  ghost predicate Steady(events: seq<Event>) {
    forall i, j :: 0 <= i < |events| && 0 <= j < |events| ==> Agree(events[i], events[j])
  }

  /** All that arrival e brought has been delivered or is queued. */
  ghost predicate Holds(v: View, e: Event)
    requires e.Arrival?
  {
    && (forall p :: e.off <= p < e.off + e.len ==> p < v.n || HeldAt(v.q, v.r, v.n, p))
    && (e.fin ==> v.closing || HasFin(v.q))
  }

  ghost predicate HoldsAll(v: View, events: seq<Event>, edges: seq<int>, k: nat)
    requires k <= |events| && k <= |edges|
  {
    forall j :: 0 <= j < k && Sent(events[j], edges[j]) ==> Holds(v, events[j])
  }

  /** x is what is left of arrival e. */
  ghost predicate PartOf(x: Seg, v: View, e: Event)
    requires e.Arrival?
  {
    v.n + Rel(x.seqno, v.r) == e.off && |x.data| <= e.len
  }

  ghost predicate Known(x: Seg, v: View, events: seq<Event>, edges: seq<int>, k: nat)
    requires k <= |events| && k <= |edges|
  {
    exists j :: 0 <= j < k && Sent(events[j], edges[j]) && PartOf(x, v, events[j])
  }

  /** Every segment in the queue is what is left of one of the first k arrivals. */
  ghost predicate AllKnown(v: View, events: seq<Event>, edges: seq<int>, k: nat)
    requires k <= |events| && k <= |edges|
  {
    forall i :: 0 <= i < |v.q| ==> Known(v.q[i], v, events, edges, k)
  }

  /** The segment that stands for an arrival. */
  ghost predicate Carries(seg: Seg, e: Event, v: View, stream: seq<U8>) {
    && e.Arrival? && Cut(seg, 0, e.off, stream) && |seg.data| == e.len && seg.fin == e.fin
    && seg.seqno == Plus(v.r, e.off - v.n) && seg.TcpLen() <= 0xFFFF && e.off + seg.TcpLen() <= v.n + v.wnd
  }

  /** A steady peer does not interrupt what is queued. */
  lemma NoInterrupt(v: View, seg: Seg, events: seq<Event>, edges: seq<int>, k: nat, stream: seq<U8>)
    requires k < |events| && k <= |edges| && Steady(events) && AllKnown(v, events, edges, k)
    requires Carries(seg, events[k], v, stream) && v.n <= events[k].off
    ensures !Interrupts(v.q, seg, v.r, v.wnd)
  {
    var e := events[k];
    RelIs(v.r, seg.seqno, e.off - v.n);
    forall i | 0 <= i < |v.q| ensures !Splits(v.q, i, seg, v.r, v.wnd) {
      assert Known(v.q[i], v, events, edges, k);
      var j :| 0 <= j < k && Sent(events[j], edges[j]) && PartOf(v.q[i], v, events[j]);
      assert Agree(events[j], e);
    }
  }

  /** An out-of-sequence arrival leaves everything in place that was there. */
  lemma QueueingHoldsOld(a: View, b: View, seg: Seg, events: seq<Event>, edges: seq<int>, k: nat, stream: seq<U8>)
    requires k < |events| && k <= |edges| && Steady(events) && AllKnown(a, events, edges, k)
    requires Carries(seg, events[k], a, stream) && a.n < events[k].off && seg.TcpLen() > 0
    requires Queue(a.q, a.r, a.n, stream) && b == a.(q := b.q)
    requires Taken(b.q, a.q, seg, a.r, a.wnd, events[k].copied) && HoldsAll(a, events, edges, k)
    ensures HoldsAll(b, events, edges, k)
  {
    GoodHere(a, seg, events[k], stream);
    NoInterrupt(a, seg, events, edges, k, stream);
    KeepsHeldIff(b.q, a.q, seg, a.r, a.wnd, events[k].copied, a.n, stream);
    forall j | 0 <= j < k && Sent(events[j], edges[j]) ensures Holds(b, events[j]) {
      assert Holds(a, events[j]);
      forall p | events[j].off <= p < events[j].off + events[j].len ensures p < b.n || HeldAt(b.q, b.r, b.n, p) {
        assert p < a.n || HeldAt(a.q, a.r, a.n, p);
      }
    }
  }

  lemma GoodHere(a: View, seg: Seg, e: Event, stream: seq<U8>)
    requires Carries(seg, e, a, stream) && a.n <= e.off && seg.TcpLen() > 0
    ensures Rel(seg.seqno, a.r) == e.off - a.n < a.wnd && Good(seg, a.r, a.n, stream)
  {
    RelIs(a.r, seg.seqno, e.off - a.n);
  }

  /** ... and is there itself. */
  lemma QueueingHoldsNew(a: View, b: View, seg: Seg, events: seq<Event>, edges: seq<int>, k: nat, stream: seq<U8>)
    requires k < |events| && k < |edges| && Steady(events) && AllKnown(a, events, edges, k)
    requires Carries(seg, events[k], a, stream) && a.n < events[k].off && seg.TcpLen() > 0 && events[k].copied
    requires Queue(a.q, a.r, a.n, stream) && b == a.(q := b.q) && !a.closing
    requires Taken(b.q, a.q, seg, a.r, a.wnd, true) && HoldsAll(a, events, edges, k) && HoldsAll(b, events, edges, k)
    ensures Holds(b, events[k])
  {
    var e := events[k];
    GoodHere(a, seg, e, stream);
    if |a.q| > 0 && a.q[|a.q| - 1].seqno == seg.seqno {
      assert Known(a.q[|a.q| - 1], a, events, edges, k);
      var j :| 0 <= j < k && Sent(events[j], edges[j]) && PartOf(a.q[|a.q| - 1], a, events[j]);
      assert Agree(events[j], e) && Holds(b, events[j]);
    } else {
      KeepsNewIff(b.q, a.q, seg, a.r, a.wnd, a.n, stream);
      if e.fin { KeepsFinIff(b.q, a.q, seg, a.r, a.wnd, a.n, stream); }
      forall p | e.off <= p < e.off + e.len ensures HeldAt(b.q, b.r, b.n, p) {
        assert In(seg, a.r, p - a.n);
      }
    }
  }

  /** An arrival in sequence. */
  lemma AdvancingHolds(a: View, b: View, seg: Seg, events: seq<Event>, edges: seq<int>, k: nat, stream: seq<U8>)
    requires k < |events| && k < |edges| && Carries(seg, events[k], a, stream) && HoldsAll(a, events, edges, k)
    requires Advanced(a, b, |stream|, events[k].off + events[k].len, seg.fin) && !a.closing
    ensures HoldsAll(b, events, edges, k) && Holds(b, events[k])
  {
    forall j | 0 <= j < k && Sent(events[j], edges[j]) ensures Holds(b, events[j]) {
      assert Holds(a, events[j]);
    }
  }

  /** Every arrival is delivered or queued, and nothing that was queued before is lost. */
  lemma ArrivalHolds(a: View, b: View, seg: Seg, events: seq<Event>, edges: seq<int>, k: nat, stream: seq<U8>)
    requires k < |events| && k < |edges| && Steady(events) && AllKnown(a, events, edges, k)
    requires Carries(seg, events[k], a, stream) && Received(a, b, seg, events[k].off, events[k].copied, |stream|)
    requires Queue(a.q, a.r, a.n, stream) && a.n <= |stream| + 1 && (a.closing <==> a.n == |stream| + 1)
    requires HoldsAll(a, events, edges, k)
    ensures HoldsAll(b, events, edges, k) && (events[k].copied ==> Holds(b, events[k]))
  {
    var e := events[k];
    if !a.closing && InSequence(e.off, seg, a.n, a.wnd) {
      AdvancingHolds(a, b, seg, events, edges, k, stream);
    } else if !a.closing && AheadOf(e.off, seg, a.n, a.wnd) {
      QueueingHoldsOld(a, b, seg, events, edges, k, stream);
      if e.copied { QueueingHoldsNew(a, b, seg, events, edges, k, stream); }
    } else {
      assert b == a;
    }
  }

  /** A segment keeps its place in the stream when the receiver moves on. */
  lemma SamePlace(x: U32, a: View, b: View)
    requires a.n <= b.n < a.n + 0x1_0000 && b.r == Plus(a.r, b.n - a.n) && Rel(x, a.r) <= REACH && Rel(x, b.r) <= REACH
    ensures b.n + Rel(x, b.r) == a.n + Rel(x, a.r)
  {
    PlusRel(a.r, x);
    PlusPlus(a.r, b.n - a.n, Rel(x, a.r) - (b.n - a.n));
    RelOffsets(a.r, Rel(x, a.r), b.n - a.n);
    NearMod(Rel(x, a.r) - (b.n - a.n));
  }

  lemma ArrivalKnown(a: View, b: View, seg: Seg, events: seq<Event>, edges: seq<int>, k: nat, stream: seq<U8>)
    requires k < |events| && k < |edges| && AllKnown(a, events, edges, k) && Carries(seg, events[k], a, stream)
    requires Received(a, b, seg, events[k].off, events[k].copied, |stream|) && Stemmed(a, b, seg, events[k].off)
    requires Queue(a.q, a.r, a.n, stream) && Queue(b.q, b.r, b.n, stream)
    requires a.n <= b.n < a.n + 0x1_0000 && b.r == Plus(a.r, b.n - a.n)
    requires events[k].copied ==> Sent(events[k], edges[k])
    ensures AllKnown(b, events, edges, k + 1)
  {
    forall i | 0 <= i < |b.q| ensures Known(b.q[i], b, events, edges, k + 1) {
      SegmentKnown(a, b, seg, events, edges, k, stream, i);
    }
  }

  lemma StillPart(x: Seg, t: Seg, a: View, b: View, events: seq<Event>, edges: seq<int>, k: nat)
    requires k < |events| && k < |edges| && Known(t, a, events, edges, k) && From(x, t)
    requires b.n + Rel(x.seqno, b.r) == a.n + Rel(x.seqno, a.r)
    ensures Known(x, b, events, edges, k + 1)
  {
    var j :| 0 <= j < k && Sent(events[j], edges[j]) && PartOf(t, a, events[j]);
    assert PartOf(x, b, events[j]);
  }

  lemma SegmentKnown(a: View, b: View, seg: Seg, events: seq<Event>, edges: seq<int>, k: nat, stream: seq<U8>, i: nat)
    requires k < |events| && k < |edges| && AllKnown(a, events, edges, k) && Carries(seg, events[k], a, stream)
    requires Received(a, b, seg, events[k].off, events[k].copied, |stream|) && Stemmed(a, b, seg, events[k].off)
    requires Queue(a.q, a.r, a.n, stream) && Queue(b.q, b.r, b.n, stream)
    requires a.n <= b.n < a.n + 0x1_0000 && b.r == Plus(a.r, b.n - a.n) && i < |b.q|
    requires events[k].copied ==> Sent(events[k], edges[k])
    ensures Known(b.q[i], b, events, edges, k + 1)
  {
    var x, e := b.q[i], events[k];
    var inSeq := !a.closing && InSequence(e.off, seg, a.n, a.wnd);
    var src := if inSeq || b.q == a.q then a.q else a.q + [seg];
    if b.q == a.q { StemsFrom(x, a.q, i); }
    assert Stems(x, src);
    var t :| 0 <= t < |src| && From(x, src[t]);
    assert Good(x, b.r, b.n, stream);
    if t < |a.q| {
      assert Good(a.q[t], a.r, a.n, stream) && Known(a.q[t], a, events, edges, k);
      SamePlace(x.seqno, a, b);
      StillPart(x, a.q[t], a, b, events, edges, k);
    } else {
      GoodHere(a, seg, e, stream);
      assert PartOf(x, b, e);
    }
  }

  /** An arrival from too long ago to be looked at has been delivered. */
  lemma LongAgo(v: View, e: Event, stream: seq<U8>)
    requires e.Arrival? && Possible(e, stream) && v.n + 0xFFFF > e.off + M && v.n <= |stream| + 1
    ensures Holds(v, e)
  {
  }

  /** One more arrival has been dealt with. */
  lemma OneMore(v: View, events: seq<Event>, edges: seq<int>, k: nat)
    requires k < |events| && k < |edges| && HoldsAll(v, events, edges, k)
    requires Sent(events[k], edges[k]) ==> Holds(v, events[k])
    ensures HoldsAll(v, events, edges, k + 1)
  {
  }

  lemma KnownStill(v: View, events: seq<Event>, edges: seq<int>, k: nat)
    requires k < |events| && k < |edges| && AllKnown(v, events, edges, k)
    ensures AllKnown(v, events, edges, k + 1)
  {
    forall i | 0 <= i < |v.q| ensures Known(v.q[i], v, events, edges, k + 1) {
      assert Known(v.q[i], v, events, edges, k);
    }
  }

  /** What is held depends on nothing but the queue and the place in the stream. */
  lemma WindowAside(v: View, w: View, events: seq<Event>, edges: seq<int>, k: nat)
    requires k <= |events| && k <= |edges| && w == v.(wnd := w.wnd)
    requires HoldsAll(v, events, edges, k) && AllKnown(v, events, edges, k)
    ensures HoldsAll(w, events, edges, k) && AllKnown(w, events, edges, k)
  {
    forall j | 0 <= j < k && Sent(events[j], edges[j]) ensures Holds(w, events[j]) { assert Holds(v, events[j]); }
    forall i | 0 <= i < |w.q| ensures Known(w.q[i], w, events, edges, k) {
      assert Known(v.q[i], v, events, edges, k);
      var j :| 0 <= j < k && Sent(events[j], edges[j]) && PartOf(v.q[i], v, events[j]);
      assert PartOf(w.q[i], w, events[j]);
    }
  }

  /** What a run keeps when the peer is steady: all that has come in is there, and the queue holds nothing else. */
  ghost predicate Tracked(v: View, events: seq<Event>, edges: seq<int>, k: nat)
    requires k <= |events| && k <= |edges|
  {
    Steady(events) ==> HoldsAll(v, events, edges, k) && AllKnown(v, events, edges, k)
  }

  lemma MoreEdges(v: View, events: seq<Event>, edges: seq<int>, k: nat, x: int)
    requires k <= |events| && k <= |edges| && Tracked(v, events, edges, k)
    ensures Tracked(v, events, edges + [x], k)
  {
    var more := edges + [x];
    if Steady(events) {
      forall i | 0 <= i < |v.q| ensures Known(v.q[i], v, events, more, k) {
        assert Known(v.q[i], v, events, edges, k);
        var j :| 0 <= j < k && Sent(events[j], edges[j]) && PartOf(v.q[i], v, events[j]);
        assert Sent(events[j], more[j]);
      }
    }
  }

  lemma ArrivalTracked(a: View, b: View, seg: Seg, events: seq<Event>, edges: seq<int>, k: nat, stream: seq<U8>)
    requires k < |events| && k < |edges| && Tracked(a, events, edges, k) && Carries(seg, events[k], a, stream)
    requires Received(a, b, seg, events[k].off, events[k].copied, |stream|) && Stemmed(a, b, seg, events[k].off)
    requires Queue(a.q, a.r, a.n, stream) && Queue(b.q, b.r, b.n, stream)
    requires a.n <= |stream| + 1 && (a.closing <==> a.n == |stream| + 1)
    requires a.n <= b.n < a.n + 0x1_0000 && b.r == Plus(a.r, b.n - a.n)
    requires events[k].copied ==> Sent(events[k], edges[k])
    ensures Tracked(b, events, edges, k + 1)
  {
    if Steady(events) {
      ArrivalHolds(a, b, seg, events, edges, k, stream);
      OneMore(b, events, edges, k);
      ArrivalKnown(a, b, seg, events, edges, k, stream);
    }
  }

  lemma PassedOver(v: View, events: seq<Event>, edges: seq<int>, k: nat, stream: seq<U8>)
    requires k < |events| && k < |edges| && Tracked(v, events, edges, k) && v.n <= |stream| + 1
    requires Possible(events[k], stream) && (Sent(events[k], edges[k]) ==> v.n + 0xFFFF > events[k].off + M)
    ensures Tracked(v, events, edges, k + 1)
  {
    if Steady(events) {
      if Sent(events[k], edges[k]) { LongAgo(v, events[k], stream); }
      OneMore(v, events, edges, k);
      KnownStill(v, events, edges, k);
    }
  }

  lemma TrackedAside(v: View, w: View, events: seq<Event>, edges: seq<int>, k: nat)
    requires k <= |events| && k <= |edges| && w == v.(wnd := w.wnd) && Tracked(v, events, edges, k)
    ensures Tracked(w, events, edges, k)
  {
    if Steady(events) { WindowAside(v, w, events, edges, k); }
  }

  /** An arrival that keeps to the edge e is taken in, one from long ago passed over. */
  method Arrive(pcb: Pcb, ev: Event, piece: seq<U8>, irs: U32, n: int, e: int,
                ghost events: seq<Event>, ghost edges: seq<int>, ghost k: nat)
    returns (data: seq<U8>, gotFin: bool)
    requires pcb.Inside(e) && n == pcb.n && pcb.irs == irs && k < |events| && k < |edges|
    requires ev.Arrival? && ev == events[k] && e == edges[k] && Possible(ev, pcb.stream)
    requires piece == pcb.stream[ev.off..ev.off + ev.len] && Tracked(pcb.Now(), events, edges, k)
    modifies pcb`rcvNxt, pcb`rcvWnd, pcb`closing, pcb`n, pcb`delivered, pcb`ooseq
    ensures pcb.Inside(e) && pcb.delivered == old(pcb.delivered) + data
    ensures gotFin == (pcb.closing && !old(pcb.closing)) && pcb.n == n + |data| + if gotFin then 1 else 0
    ensures Tracked(pcb.Now(), events, edges, k + 1)
  {
    if ev.off + ev.len + (if ev.fin then 1 else 0) <= e && n + 0xFFFF <= ev.off + M {
      data, gotFin := TakeIn(pcb, Seg(Plus(irs, ev.off), piece, ev.fin), ev, e, events, edges, k);
    } else {
      PassedOver(pcb.Now(), events, edges, k, pcb.stream);
      data, gotFin := [], false;
    }
  }

  method TakeIn(pcb: Pcb, seg: Seg, ev: Event, ghost e: int, ghost events: seq<Event>, ghost edges: seq<int>,
                ghost k: nat)
    returns (data: seq<U8>, gotFin: bool)
    requires pcb.Inside(e) && k < |events| && k < |edges| && ev.Arrival? && ev == events[k] && e == edges[k]
    requires Cut(seg, 0, ev.off, pcb.stream) && |seg.data| == ev.len && seg.fin == ev.fin && seg.TcpLen() <= 0xFFFF
    requires seg.seqno == Plus(pcb.irs, ev.off) && ev.off + seg.TcpLen() <= e && pcb.n + 0xFFFF <= ev.off + M
    requires Tracked(pcb.Now(), events, edges, k)
    modifies pcb`rcvNxt, pcb`rcvWnd, pcb`closing, pcb`n, pcb`delivered, pcb`ooseq
    ensures pcb.Inside(e) && pcb.delivered == old(pcb.delivered) + data
    ensures gotFin == (pcb.closing && !old(pcb.closing)) && pcb.n == old(pcb.n) + |data| + if gotFin then 1 else 0
    ensures Tracked(pcb.Now(), events, edges, k + 1)
  {
    ghost var before, after := pcb.Now(), pcb.Now();
    data, gotFin, after := pcb.InputInside(seg, ev.copied, ev.off, e);
    PlusPlus(pcb.irs, before.n, ev.off - before.n);
    PlusPlus(pcb.irs, before.n, after.n - before.n);
    ArrivalTracked(before, after, seg, events, edges, k, pcb.stream);
    TrackedAside(after, pcb.Now(), events, edges, k + 1);
  }

  /** The application reads k bytes, if it has been given as many. */
  method Read(pcb: Pcb, k: U16, unread: nat, ghost e: int, ghost events: seq<Event>, ghost edges: seq<int>,
              ghost i: nat)
    returns (more: nat)
    requires pcb.Inside(e) && unread == |pcb.delivered| - pcb.recved && i < |events| && i < |edges|
    requires events[i].Reading? && Tracked(pcb.Now(), events, edges, i)
    modifies pcb`rcvWnd, pcb`recved
    ensures pcb.Inside(e) && pcb.recved == old(pcb.recved) + more && Tracked(pcb.Now(), events, edges, i + 1)
  {
    ghost var before := pcb.Now();
    more := 0;
    if k as int <= unread {
      pcb.RecvedInside(k, e);
      more := k;
    }
    TrackedAside(before, pcb.Now(), events, edges, i);
    PassedOver(pcb.Now(), events, edges, i, pcb.stream);
  }

  /** An ACK goes out: the right edge is announced anew, no earlier than before, and up to the end of the window but for
      a small part of it. */
  method Announce(pcb: Pcb, right: U32, mss: U16, n: int, ghost e: int) returns (right': U32, e': int)
    requires pcb.Inside(e) && right == Plus(pcb.irs, e) && n == pcb.n
    ensures pcb.Inside(e') && e <= e' && right' == Plus(pcb.irs, e')
    ensures e' + Min(10880, mss) >= pcb.recved + 21760
  {
    var annWnd, inflation := UpdateRcvAnnWnd(pcb.rcvNxt, pcb.rcvWnd, right, mss, pcb.irs, n, e);
    PlusPlus(pcb.irs, n, annWnd);
    right', e' := Plus(pcb.rcvNxt, annWnd), n + annWnd as int;
  }

  ghost predicate Rising(edges: seq<int>) {
    forall i, j :: 0 <= i <= j < |edges| ==> edges[i] <= edges[j]
  }

  lemma RisingMore(edges: seq<int>, x: int)
    requires Rising(edges) && |edges| > 0 && edges[|edges| - 1] <= x
    ensures Rising(edges + [x])
  {
  }

  /** Where a tracked run stands: what comes next has not arrived. */
  lemma Missing(pcb: Pcb, events: seq<Event>, edges: seq<int>, k: nat)
    requires pcb.Valid() && k <= |events| && k <= |edges| && Tracked(pcb.Now(), events, edges, k) && Steady(events)
    ensures |pcb.delivered| < |pcb.stream| ==> !Arrived(events, edges, k, |pcb.delivered|)
    ensures |pcb.delivered| == |pcb.stream| && !pcb.closing ==>
              forall j :: 0 <= j < k && Sent(events[j], edges[j]) ==> !events[j].fin
  {
    var v := pcb.Now();
    assert !HeldAt(v.q, v.r, v.n, v.n);
    QueuedFin(v, pcb.stream);
    forall j | 0 <= j < k && Sent(events[j], edges[j]) ensures Holds(v, events[j]) { }
  }

  /** Whole runs. The receiver announces its right edge whenever an ACK goes out (acks); edges[i] is the edge announced
      before event i. The peer sends nothing beyond it, and the application reports no more than it was given. Then,
      whatever was lost, repeated or reordered: the window and the unread bytes make up TCP_WND; and if the peer repeats
      itself in the same pieces, what was delivered ends exactly where something has not yet arrived. */
  method RunInside(irs: U32, stream: seq<U8>, mss: U16, events: seq<Event>, acks: seq<bool>)
    returns (delivered: seq<U8>, ended: bool, wnd: U16, read: nat, edges: seq<int>)
    requires |acks| == |events| && forall i :: 0 <= i < |events| ==> Possible(events[i], stream)
    ensures delivered <= stream && read <= |delivered| && wnd as int + (|delivered| - read) == TCP_WND as int
    ensures |edges| == |events| + 1 && edges[0] == 21760 && Rising(edges)
    ensures |events| > 0 && acks[|events| - 1] ==> edges[|events|] + Min(10880, mss) >= read + 21760
    ensures Steady(events) && |delivered| < |stream| ==> !Arrived(events, edges, |events|, |delivered|)
    ensures Steady(events) && |delivered| == |stream| && !ended ==>
              forall j :: 0 <= j < |events| && Sent(events[j], edges[j]) ==> !events[j].fin
  {
    var pcb := new Pcb(irs, stream);
    delivered, ended, read := [], false, 0;
    var n, e, right := 0, TCP_WND as int, Plus(irs, TCP_WND);
    edges := [e];
    for i := 0 to |events|
      invariant fresh(pcb) && pcb.irs == irs && pcb.stream == stream && pcb.Inside(e)
      invariant delivered == pcb.delivered && ended == pcb.closing && read == pcb.recved && n == pcb.n
      invariant right == Plus(irs, e) && |edges| == i + 1 && edges[0] == 21760 && edges[i] == e
      invariant Rising(edges)
      invariant Tracked(pcb.Now(), events, edges, i)
      invariant i > 0 && acks[i - 1] ==> e + Min(10880, mss) >= read + 21760
    {
      assert Possible(events[i], stream);
      match events[i] {
        case Arrival(off, len, fin, copied) =>
          var data, gotFin := Arrive(pcb, events[i], stream[off..off + len], irs, n, e, events, edges, i);
          delivered, ended, n := delivered + data, ended || gotFin, n + |data| + if gotFin then 1 else 0;
        case Reading(k) =>
          var more := Read(pcb, k, |delivered| - read, e, events, edges, i);
          read := read + more;
      }
      if acks[i] {
        right, e := Announce(pcb, right, mss, n, e);
      }
      MoreEdges(pcb.Now(), events, edges, i + 1, e);
      RisingMore(edges, e);
      edges := edges + [e];
    }
    wnd := pcb.rcvWnd;
    if Steady(events) { Missing(pcb, events, edges, |events|); }
  }

  /** A queue that stems from one segment is that segment, or what is left of it. */
  lemma OnlyOne(q: seq<Seg>, s: Seg, r: U32)
    requires Sorted(q, r) && Sources(q, [s])
    ensures |q| <= 1 && (|q| == 1 ==> q[0].seqno == s.seqno)
  {
    forall i | 0 <= i < |q| ensures q[i].seqno == s.seqno { assert Stems(q[i], [s]); }
    FirstTwo(q, r);
  }

  lemma FirstTwo(q: seq<Seg>, r: U32)
    requires Sorted(q, r)
    ensures |q| <= 1 || q[0].seqno != q[1].seqno
  {
    if |q| > 1 { assert Before(q[0], q[1], r); }
  }

  lemma FirstQueued(a: View, b: View, first: Seg, stream: seq<U8>)
    requires a == View([], 0, 0, TCP_WND, false) && first.seqno == 10 && |first.data| == 20 && !first.fin
    requires Received(a, b, first, 10, true, |stream|) && Stemmed(a, b, first, 10) && Queue(b.q, b.r, b.n, stream)
    ensures b == a.(q := b.q) && |b.q| == 1 && b.q[0].seqno == 10 && |b.q[0].data| == 20 && !b.q[0].fin
  {
    assert Rel(first.seqno, 0) == 10;
    forall p ensures Covered(b.q, 0, p) <==> 10 <= p < 30 {
      assert Covered(b.q, 0, p) <==> Merged([], first, 0, p);
    }
    assert [] + [first] == [first];
    OnlyOne(b.q, first, 0);
    assert Covered(b.q, 0, 29) && !Covered(b.q, 0, 30);
    assert In(b.q[0], 0, 29) && !In(b.q[0], 0, 30);
  }

  lemma SecondQueued(b: View, c: View, second: Seg, len: nat)
    requires b.r == 0 && b.n == 0 && b.wnd == TCP_WND && !b.closing
    requires |b.q| == 1 && b.q[0].seqno == 10 && |b.q[0].data| == 20 && !b.q[0].fin
    requires second.seqno == 12 && |second.data| == 2 && !second.fin && Received(b, c, second, 12, true, len)
    ensures c == b.(q := c.q) && forall p :: HeldAt(c.q, c.r, c.n, p) <==> 10 <= p < 14
  {
    assert Rel(second.seqno, 0) == 12 && Rel(b.q[0].seqno, 0) == 10;
    assert !Dropped(b.q, second, 0, true) && Kept(b.q, second, 0, TCP_WND) == second;
    forall p ensures HeldAt(c.q, c.r, c.n, p) <==> 10 <= p < 14 {
      assert Covered(c.q, 0, p) <==> Merged(b.q, second, 0, p);
      assert In(b.q[0], 0, p) <==> 10 <= p < 30;
    }
  }

  lemma ThirdTaken(c: View, d: View, third: Seg, len: nat)
    requires c.r == 0 && c.n == 0 && c.wnd == TCP_WND && !c.closing && len >= 40 && Ahead(d.q, d.r)
    requires forall p :: HeldAt(c.q, c.r, c.n, p) <==> 10 <= p < 14
    requires |third.data| == 10 && !third.fin && Received(c, d, third, 0, true, len)
    ensures d.n == 14
  {
    assert !HeldAt(d.q, d.r, d.n, d.n);
    assert !HeldAt(c.q, c.r, c.n, 14) && !HeldAt(c.q, c.r, c.n, d.n);
    assert d.n > 14 ==> HeldAt(c.q, c.r, c.n, 14);
  }

  /** A peer that is not steady can lose what it has sent: bytes 10 to 29 arrive, then bytes 12 and 13 once more, for
      which the first segment gives up all it has from 12 on; when the first ten bytes arrive as well, 14 bytes are
      delivered of the 30 that have come in. */
  method OverlapLoses(stream: seq<U8>) returns (delivered: seq<U8>)
    requires |stream| >= 40
    ensures delivered == stream[..14]
  {
    var pcb := new Pcb(0, stream);
    ghost var a := pcb.Now();
    var d1, f1, b := pcb.Input(Seg(10, stream[10..30], false), true, 10);
    FirstQueued(a, b, Seg(10, stream[10..30], false), stream);
    assert pcb.Now() == b;
    var d2, f2, c := pcb.Input(Seg(12, stream[12..14], false), true, 12);
    SecondQueued(b, c, Seg(12, stream[12..14], false), |stream|);
    assert pcb.Now() == c;
    var d3, f3, d := pcb.Input(Seg(0, stream[0..10], false), true, 0);
    ThirdTaken(c, d, Seg(0, stream[0..10], false), |stream|);
    delivered := d1 + d2 + d3;
  }
}
