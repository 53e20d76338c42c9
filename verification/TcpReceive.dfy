/** The receiver of source/lwip/core/tcp_in.c: in-order delivery, window and end of stream. Line numbers refer to that
file. */
module Tcp {
  import opened Bits
  import opened TcpSeq
  import opened TcpQueue

  const TCP_WND: U16 := 21760
  const W16: int := 0x1_0000

  lemma Apart(a: U32, r: U32)
    requires a != r
    ensures Rel(a, r) > 0
  {
    PlusRel(r, a);
    PlusZero(r);
  }

  /** Moving the expected position on by d moves every segment that much closer. */
  lemma Closer(s: Seg, r: U32, d: nat)
    requires d <= Rel(s.seqno, r)
    ensures Rel(s.seqno, Plus(r, d)) == Rel(s.seqno, r) - d
  {
    PlusRel(r, s.seqno);
    PlusPlus(r, d, Rel(s.seqno, r) - d);
    RelIs(Plus(r, d), s.seqno, Rel(s.seqno, r) - d);
  }

  lemma Advance(q: seq<Seg>, r: U32, d: nat, n: nat, stream: seq<U8>)
    requires Queue(q, r, n, stream) && forall i :: 0 <= i < |q| ==> d <= Rel(q[i].seqno, r)
    ensures Queue(q, Plus(r, d), n + d, stream)
    ensures forall p :: Covered(q, Plus(r, d), p) <==> Covered(q, r, p + d)
  {
    var t := Plus(r, d);
    forall i | 0 <= i < |q| ensures Rel(q[i].seqno, t) == Rel(q[i].seqno, r) - d { Closer(q[i], r, d); }
    forall i, j | 0 <= i < j < |q| ensures Before(q[i], q[j], t) { assert Before(q[i], q[j], r); }
    forall p ensures Covered(q, t, p) <==> Covered(q, r, p + d) {
      if Covered(q, t, p) {
        var i :| 0 <= i < |q| && In(q[i], t, p);
        assert In(q[i], r, p + d);
      }
      if Covered(q, r, p + d) {
        var i :| 0 <= i < |q| && In(q[i], r, p + d);
        assert In(q[i], t, p);
      }
    }
  }

  /** What follows a segment that starts at r is at least its length away. */
  lemma Follows(s: Seg, q: seq<Seg>, r: U32, n: nat, stream: seq<U8>)
    requires Queue([s] + q, r, n, stream) && s.seqno == r
    ensures Queue(q, r, n, stream) && (s.fin ==> q == [])
    ensures forall i :: 0 <= i < |q| ==> s.TcpLen() <= Rel(q[i].seqno, r)
    ensures forall p :: p >= |s.data| ==> (Covered([s] + q, r, p) <==> Covered(q, r, p))
    ensures forall p :: 0 <= p < |s.data| ==> Covered([s] + q, r, p)
  {
    var all := [s] + q;
    assert Rel(s.seqno, r) == 0;
    assert all[1..] == q;
    Part(all, 1, |all|, r, n, stream);
    assert all[1..|all|] == q;
    forall i | 0 <= i < |q| ensures Before(s, q[i], r) { assert Before(all[0], all[i + 1], r); }
    OnlyLastEnds(all, 0, r);
    forall p ensures p >= |s.data| ==> (Covered([s] + q, r, p) <==> Covered(q, r, p))
             ensures 0 <= p < |s.data| ==> Covered([s] + q, r, p)
    {
      CoveredJoin([s], q, r, p);
      CoveredOne(s, r, p);
    }
  }

  /** Position p of the stream lies in q. */
  ghost predicate HeldAt(q: seq<Seg>, r: U32, n: nat, p: int) {
    Covered(q, r, p - n)
  }

  /** u16 subtraction */
  function Shrunk(wnd: U16, d: int): U16 {
    (wnd as int - d) % W16
  }

  /** Where a window starting at position n ends, as far as 16 bits tell. */
  function EdgeOf(n: nat, wnd: U16): int {
    (n + wnd) % W16
  }

  lemma ShrunkEdge(n: nat, wnd: U16, d: nat)
    ensures EdgeOf(n + d, Shrunk(wnd, d)) == EdgeOf(n, wnd)
  {
    var k := (wnd as int - d) / W16;
    assert n + wnd == n + d + Shrunk(wnd, d) + W16 * k;
  }

  function Min(a: int, b: int): int {
    if a < b then a else b
  }

  /** The receiver at one time: queue, expected sequence number and its position, window, FIN taken. */
  datatype View = View(q: seq<Seg>, r: U32, n: nat, wnd: U16, closing: bool)

  /** From a to b the expected position moved on over nothing but held positions of the stream,
      and nothing else changed. */
  ghost predicate Passed(a: View, b: View, len: nat) {
    && a.n <= b.n
    && (forall p :: p >= b.n ==> (HeldAt(b.q, b.r, b.n, p) <==> HeldAt(a.q, a.r, a.n, p)))
    && (forall p :: a.n <= p < b.n && p < len ==> HeldAt(a.q, a.r, a.n, p))
  }

  /** b holds what a holds and the segment s. */
  ghost predicate Together(s: Seg, a: View, b: View) {
    a.r == b.r && a.n == b.n && forall p :: Covered(b.q, b.r, p) <==> In(s, a.r, p) || Covered(a.q, a.r, p)
  }

  lemma PassedOn(a: View, b: View, c: View, len: nat)
    requires Passed(a, b, len) && Passed(b, c, len)
    ensures Passed(a, c, len)
  {
    forall p | a.n <= p < c.n && p < len ensures HeldAt(a.q, a.r, a.n, p) {
      if p >= b.n { assert HeldAt(b.q, b.r, b.n, p); }
    }
  }

  /** Handing over the first segment of a queue, which starts at the expected position. */
  lemma PassedFirst(a: View, s: Seg, q: seq<Seg>, wnd: U16, stream: seq<U8>)
    requires a.q == [s] + q && Queue(a.q, a.r, a.n, stream) && s.seqno == a.r
    ensures Queue(q, Plus(a.r, s.TcpLen()), a.n + s.TcpLen(), stream) && (s.fin ==> q == [])
    ensures Passed(a, View(q, Plus(a.r, s.TcpLen()), a.n + s.TcpLen(), wnd, s.fin), |stream|)
    ensures a.n + |s.data| <= |stream| && stream[..a.n] + s.data == stream[..a.n + |s.data|]
    ensures s.fin ==> a.n + |s.data| == |stream|
  {
    Follows(s, q, a.r, a.n, stream);
    Advance(q, a.r, s.TcpLen(), a.n, stream);
    assert Rel(s.seqno, a.r) == 0;
    assert Good(a.q[0], a.r, a.n, stream);
  }

  /** The window moved on over the positions before `end` and whatever was already held behind them, as far
      as it could (the queue lies strictly beyond b.n), the rest of the queue is what it was, and a FIN is known
      exactly when one was or `fin` says so. */
  ghost predicate Advanced(a: View, b: View, len: nat, end: int, fin: bool) {
    && b.n > a.n && b.n >= end && EdgeOf(b.n, b.wnd) == EdgeOf(a.n, a.wnd)
    && (forall p :: p >= b.n ==> (HeldAt(b.q, b.r, b.n, p) <==> HeldAt(a.q, a.r, a.n, p)))
    && (forall p :: end <= p < b.n && p < len ==> HeldAt(a.q, a.r, a.n, p))
    && (b.closing || HasFin(b.q) <==> fin || HasFin(a.q))
  }

  lemma AdvancedBy(s: Seg, v: View, a: View, b: View, len: nat)
    requires Together(s, v, a) && Passed(a, b, len) && s.seqno == v.r && v.n < b.n && Ahead(b.q, b.r)
    requires EdgeOf(b.n, b.wnd) == EdgeOf(v.n, v.wnd) && (b.closing || HasFin(b.q) <==> s.fin || HasFin(v.q))
    ensures Advanced(v, b, len, v.n + |s.data|, s.fin)
  {
    assert Rel(s.seqno, v.r) == 0;
    assert !HeldAt(b.q, b.r, b.n, b.n);
    assert !HeldAt(a.q, a.r, a.n, b.n);
    forall p | v.n + |s.data| <= p < b.n && p < len ensures HeldAt(v.q, v.r, v.n, p) {
      assert HeldAt(a.q, a.r, a.n, p);
    }
  }

  /** Nothing is queued at or beyond position e. */
  ghost predicate Below(a: View, len: nat, e: int) {
    && (forall p :: HeldAt(a.q, a.r, a.n, p) ==> p < e)
    && (HasFin(a.q) ==> len + 1 <= e)
  }

  /** Nothing is queued beyond the right edge of the window. */
  ghost predicate InWindow(a: View, len: nat) {
    Below(a, len, a.n + a.wnd)
  }

  /** Nothing new beyond e comes in from a peer that keeps below it. */
  lemma KeepsBelow(a: View, b: View, len: nat, end: int, fin: bool, e: int)
    requires Below(a, len, e) && Advanced(a, b, len, end, fin) && end <= e && (fin ==> len + 1 <= e)
    requires b.n <= len + 1 && (b.closing <==> b.n == len + 1) && Ahead(b.q, b.r)
    ensures b.n <= e && Below(b, len, e)
  {
    assert b.n > e ==> HeldAt(a.q, a.r, a.n, b.n - 1);
    forall p | HeldAt(b.q, b.r, b.n, p) ensures p < e {
      assert HeldAt(a.q, a.r, a.n, p);
    }
  }

  /** The segment from position off on holds position n, and the window is open. */
  ghost predicate InSequence(off: nat, seg: Seg, n: nat, wnd: U16) {
    off <= n < off + seg.TcpLen() && wnd > 0
  }

  /** The segment starts beyond n but inside the window. */
  ghost predicate AheadOf(off: nat, seg: Seg, n: nat, wnd: U16) {
    n < off < n + wnd && seg.TcpLen() > 0
  }

  /** What becomes of a segment that holds the stream from position off on. */
  ghost predicate Received(a: View, b: View, seg: Seg, off: nat, copied: bool, len: nat) {
    if !a.closing && InSequence(off, seg, a.n, a.wnd) then
      Advanced(a, b, len, Min(off + |seg.data|, a.n + a.wnd), seg.fin && off + seg.TcpLen() <= a.n + a.wnd)
    else
      && b.(q := a.q) == a
      && (if !a.closing && AheadOf(off, seg, a.n, a.wnd) then Taken(b.q, a.q, seg, a.r, a.wnd, copied) else b.q == a.q)
  }

  /** Where the segments queued afterwards come from. */
  ghost predicate Stemmed(a: View, b: View, seg: Seg, off: nat) {
    Sources(b.q, if !a.closing && InSequence(off, seg, a.n, a.wnd) then a.q else a.q + [seg])
  }

  /** What is left of a queue behind its first segment, which starts at r, does not stem from a segment there. */
  lemma RestStems(all: seq<Seg>, q: seq<Seg>, s: Seg, r: U32)
    requires Sources(all, q + [s]) && s.seqno == r && Sorted(all, r) && |all| > 0
    ensures Sources(all[1..], q)
  {
    forall k | 0 <= k < |all| - 1 ensures Stems(all[1..][k], q) {
      assert Before(all[0], all[k + 1], r) && Stems(all[k + 1], q + [s]);
      var i :| 0 <= i < |q + [s]| && From(all[k + 1], (q + [s])[i]);
      assert Rel(s.seqno, r) == 0;
      StemsFrom(all[k + 1], q, i);
    }
  }

  lemma RestSources(q: seq<Seg>, src: seq<Seg>)
    requires Sources(q, src) && |q| > 0
    ensures Sources(q[1..], src)
  {
    SourcesPart(q, 1, |q|, src);
    assert q[1..|q|] == q[1..];
  }

  lemma QueuedBelow(a: View, b: View, s: Seg, len: nat, e: int)
    requires Below(a, len, e) && b == a.(q := b.q) && Queued(b.q, a.q, s, a.r)
    requires a.n + Rel(s.seqno, a.r) + |s.data| <= e && (s.fin ==> len + 1 <= e)
    ensures Below(b, len, e)
  {
    forall p | HeldAt(b.q, b.r, b.n, p) ensures p < e {
      assert Merged(a.q, s, a.r, p - a.n);
      if !In(s, a.r, p - a.n) { assert HeldAt(a.q, a.r, a.n, p); }
    }
  }

  /** A peer that keeps below a position e inside the window keeps the queue and rcv_nxt below it. */
  lemma StaysBelow(a: View, b: View, seg: Seg, off: nat, copied: bool, stream: seq<U8>, e: int)
    requires Below(a, |stream|, e) && Received(a, b, seg, off, copied, |stream|) && Cut(seg, 0, off, stream)
    requires off + seg.TcpLen() <= e <= a.n + a.wnd && seg.seqno == Plus(a.r, off - a.n) && a.n <= e
    requires b.n <= |stream| + 1 && (b.closing <==> b.n == |stream| + 1) && Ahead(b.q, b.r)
    ensures a.n <= b.n <= e && Below(b, |stream|, e)
  {
    if !a.closing && InSequence(off, seg, a.n, a.wnd) {
      KeepsBelow(a, b, |stream|, Min(off + |seg.data|, a.n + a.wnd), seg.fin && off + seg.TcpLen() <= a.n + a.wnd, e);
    } else if b.q != a.q {
      RelIs(a.r, seg.seqno, off - a.n);
      QueuedBelow(a, b, Kept(a.q, seg, a.r, a.wnd), |stream|, e);
    }
  }

  /** 16 bits tell the right edge exactly as long as it is not passed. */
  lemma EdgeKept(a: View, b: View, seg: Seg, off: nat, copied: bool, len: nat)
    requires Received(a, b, seg, off, copied, len) && a.n <= b.n
    ensures b.n + b.wnd == a.n + a.wnd <==> b.n <= a.n + a.wnd
  {
    if b.n <= a.n + a.wnd && !a.closing && InSequence(off, seg, a.n, a.wnd) {
      SameEdge(b.n, b.wnd, a.n, a.wnd);
    }
  }

  /** A peer that stays within the window keeps the queue inside it, and the right edge where it is. */
  lemma Conserves(a: View, b: View, seg: Seg, off: nat, copied: bool, stream: seq<U8>)
    requires InWindow(a, |stream|) && Received(a, b, seg, off, copied, |stream|) && Cut(seg, 0, off, stream)
    requires off + seg.TcpLen() <= a.n + a.wnd && seg.seqno == Plus(a.r, off - a.n)
    requires b.n <= |stream| + 1 && (b.closing <==> b.n == |stream| + 1) && Ahead(b.q, b.r)
    ensures b.n + b.wnd == a.n + a.wnd && InWindow(b, |stream|)
  {
    StaysBelow(a, b, seg, off, copied, stream, a.n + a.wnd);
    EdgeKept(a, b, seg, off, copied, |stream|);
  }

  /** What was queued reaches past the window: everything from `end` up to its right edge is held, and so is the
      position at the edge, be it a byte or the end of the stream. */
  ghost predicate Overruns(a: View, len: nat, end: int) {
    var edge := a.n + a.wnd;
    && edge <= len && (forall p :: end <= p < edge ==> HeldAt(a.q, a.r, a.n, p))
    && (if edge < len then HeldAt(a.q, a.r, a.n, edge) else HasFin(a.q))
  }

  lemma PassesEdge(a: View, b: View, stream: seq<U8>, end: int, fin: bool)
    requires Advanced(a, b, |stream|, end, fin) && end <= a.n + a.wnd && (fin ==> |stream| + 1 <= a.n + a.wnd)
    requires Queue(b.q, b.r, b.n, stream) && Ahead(b.q, b.r) && b.n <= |stream| + 1
             && (b.closing <==> b.n == |stream| + 1)
    ensures b.n > a.n + a.wnd <==> Overruns(a, |stream|, end)
  {
    var edge := a.n + a.wnd;
    QueuedFin(b, stream);
    assert !HeldAt(b.q, b.r, b.n, b.n) && !HeldAt(a.q, a.r, a.n, b.n);
    if b.n > edge && edge < |stream| { assert HeldAt(a.q, a.r, a.n, edge); }
  }

  /** The exact condition, on the state before the call: a segment moves the right edge if and only if it is in
      sequence and what was queued behind it overruns the window. */
  lemma EdgeLostIff(a: View, b: View, seg: Seg, off: nat, copied: bool, stream: seq<U8>)
    requires Received(a, b, seg, off, copied, |stream|) && Cut(seg, 0, off, stream)
    requires Queue(b.q, b.r, b.n, stream) && Ahead(b.q, b.r) && b.n <= |stream| + 1
             && (b.closing <==> b.n == |stream| + 1)
    ensures b.n + b.wnd != a.n + a.wnd <==>
            !a.closing && InSequence(off, seg, a.n, a.wnd) && Overruns(a, |stream|, Min(off + |seg.data|, a.n + a.wnd))
  {
    EdgeKept(a, b, seg, off, copied, |stream|);
    if !a.closing && InSequence(off, seg, a.n, a.wnd) {
      PassesEdge(a, b, stream, Min(off + |seg.data|, a.n + a.wnd), seg.fin && off + seg.TcpLen() <= a.n + a.wnd);
    }
  }

  lemma Regroup(a: seq<U8>, b: seq<U8>, c: seq<U8>)
    ensures (a + b) + c == a + (b + c)
  {
  }

  class Pcb {
    var rcvNxt: U32
    var rcvWnd: U16
    var ooseq: seq<Seg>
    /** The state is CLOSE_WAIT or a later one: the peer's FIN has been taken. */
    var closing: bool

    /** The peer's first sequence number after its SYN, and everything it will ever send. */
    ghost const irs: U32
    ghost const stream: seq<U8>
    ghost var n: nat
    ghost var delivered: seq<U8>
    /** How many bytes the application has reported as read. */
    ghost var recved: nat

    ghost function Edge(): int
      reads this
    {
      EdgeOf(n, rcvWnd)
    }

    ghost function Now(): View
      reads this
    {
      View(ooseq, rcvNxt, n, rcvWnd, closing)
    }

    ghost predicate Core()
      reads this
    {
      && n <= |stream| + 1 && rcvNxt == Plus(irs, n)
      && (closing <==> n == |stream| + 1) && (closing ==> ooseq == [])
      && delivered == stream[..if closing then |stream| else n]
      && Queue(ooseq, rcvNxt, n, stream)
    }

    /** The application has seen exactly the stream up to rcvNxt, and the queue lies strictly beyond. */
    ghost predicate Valid()
      reads this
    {
      Core() && Ahead(ooseq, rcvNxt)
    }

    /** The window and the bytes that the application has not read yet make up TCP_WND. */
    ghost predicate Balanced()
      reads this
    {
      Owes(0)
    }

    /** The same, except for k places. */
    ghost predicate Owes(k: nat)
      reads this
    {
      recved <= |delivered| && rcvWnd as int + (|delivered| - recved) + k == TCP_WND as int
    }

    constructor (irs: U32, ghost stream: seq<U8>)
      ensures Valid() && InWindow(Now(), |stream|) && Balanced() && this.irs == irs && this.stream == stream
      ensures n == 0 && rcvWnd == TCP_WND && delivered == [] && !closing && ooseq == []
    {
      rcvNxt, rcvWnd, ooseq, closing := irs, TCP_WND, [], false;
      this.irs, this.stream, n, delivered, recved := irs, stream, 0, [], 0;
    }

    /** Lines 1546-1572 for the arriving segment, lines 1581-1609 for one taken off the queue. */
    method Deliver(s: Seg)
      requires Core() && !closing && Queue([s] + ooseq, rcvNxt, n, stream) && s.seqno == rcvNxt
      modifies this`rcvNxt, this`rcvWnd, this`closing, this`n, this`delivered
      ensures Core() && closing == s.fin && n == old(n) + s.TcpLen() && delivered == old(delivered) + s.data
      ensures Edge() == old(Edge())
      ensures Passed(old(Now()).(q := [s] + ooseq), Now(), |stream|)
    {
      PassedFirst(Now().(q := [s] + ooseq), s, ooseq, Shrunk(rcvWnd, s.TcpLen()), stream);
      PlusPlus(irs, n, s.TcpLen());
      ShrunkEdge(n, rcvWnd, s.TcpLen());
      rcvNxt := Plus(rcvNxt, s.TcpLen());
      rcvWnd := Shrunk(rcvWnd, s.TcpLen());
      closing := s.fin;
      n := n + s.TcpLen();
      delivered := delivered + s.data;
    }

    method DrainOne() returns (data: seq<U8>)
      requires Core() && |ooseq| > 0 && ooseq[0].seqno == rcvNxt
      modifies this`rcvNxt, this`rcvWnd, this`closing, this`n, this`delivered, this`ooseq
      ensures Core() && delivered == old(delivered) + data && ooseq == old(ooseq)[1..] && Edge() == old(Edge())
      ensures Passed(old(Now()), Now(), |stream|)
      ensures closing || HasFin(ooseq) <==> old(closing || HasFin(ooseq))
    {
      ghost var before := Now();
      var s := ooseq[0];
      ooseq := ooseq[1..];
      assert [s] + ooseq == before.q;
      Follows(s, ooseq, rcvNxt, n, stream);
      Deliver(s);
      data := s.data;
    }

    /** Lines 1578-1614: hand over what has come into sequence. */
    method Drain() returns (data: seq<U8>)
      requires Core()
      modifies this`rcvNxt, this`rcvWnd, this`closing, this`n, this`delivered, this`ooseq
      ensures Valid() && delivered == old(delivered) + data && n >= old(n)
      ensures Edge() == old(Edge())
      ensures Passed(old(Now()), Now(), |stream|)
      ensures closing || HasFin(ooseq) <==> old(closing || HasFin(ooseq))
      ensures forall src :: Sources(old(ooseq), src) ==> Sources(ooseq, src)
    {
      data := [];
      while |ooseq| > 0 && ooseq[0].seqno == rcvNxt
        invariant forall src :: Sources(old(ooseq), src) ==> Sources(ooseq, src)
        invariant Core() && delivered == old(delivered) + data && n >= old(n)
        invariant Edge() == old(Edge())
        invariant Passed(old(Now()), Now(), |stream|)
        invariant closing || HasFin(ooseq) <==> old(closing || HasFin(ooseq))
        decreases |ooseq|
      {
        ghost var before := Now();
        forall src | Sources(ooseq, src) ensures Sources(ooseq[1..], src) { RestSources(ooseq, src); }
        var more := DrainOne();
        PassedOn(old(Now()), before, Now(), |stream|);
        Regroup(old(delivered), data, more);
        data := data + more;
      }
      if |ooseq| > 0 { Apart(ooseq[0].seqno, rcvNxt); AheadFrom(ooseq, rcvNxt); }
    }

    /** Lines 1494-1614: hand over the segment s, which starts at rcvNxt and fits the window, and all that
        waits right behind it. The steps of lines 1496-1543 are those of tcp_oos_insert_segment, with tcplen
        for the length: the two differ only when a FIN has been taken over, and then nothing is left. */
    method TakeInOrder(s: Seg) returns (data: seq<U8>)
      requires Valid() && !closing && Good(s, rcvNxt, n, stream) && s.seqno == rcvNxt
      modifies this`rcvNxt, this`rcvWnd, this`closing, this`n, this`delivered, this`ooseq
      ensures Valid() && delivered == old(delivered) + data && n > old(n)
      ensures Edge() == old(Edge())
      ensures Advanced(old(Now()), Now(), |stream|, old(n) + |s.data|, s.fin) && Sources(ooseq, old(ooseq))
    {
      assert Rel(s.seqno, rcvNxt) == 0;
      var all := OosInsert(s, ooseq, rcvNxt, n, stream);
      RestStems(all, ooseq, s, rcvNxt);
      ghost var a := Now().(q := all);
      data := TakeAll(all);
      AdvancedBy(s, old(Now()), a, Now(), |stream|);
    }

    method TakeAll(all: seq<Seg>) returns (data: seq<U8>)
      requires Core() && !closing && |all| > 0 && Queue(all, rcvNxt, n, stream) && all[0].seqno == rcvNxt
      modifies this`rcvNxt, this`rcvWnd, this`closing, this`n, this`delivered, this`ooseq
      ensures Valid() && delivered == old(delivered) + data && n > old(n) && Edge() == old(Edge())
      ensures Passed(old(Now()).(q := all), Now(), |stream|)
      ensures closing || HasFin(ooseq) <==> HasFin(all)
      ensures forall src :: Sources(all[1..], src) ==> Sources(ooseq, src)
    {
      ghost var a := Now().(q := all);
      var first := all[0];
      ooseq := all[1..];
      assert [first] + ooseq == all;
      Follows(first, ooseq, rcvNxt, n, stream);
      Deliver(first);
      ghost var b := Now();
      var more := Drain();
      PassedOn(a, b, Now(), |stream|);
      Regroup(old(delivered), first.data, more);
      data := first.data + more;
    }

    /** Lines 1463-1807: a segment that starts at position m and, if it starts early, holds nothing new. */
    method Accept(inseg: Seg, copied: bool, ghost m: nat) returns (data: seq<U8>)
      requires Valid() && !closing
      requires inseg.seqno == Plus(irs, m) && Cut(inseg, 0, m, stream) && 0 < inseg.TcpLen() <= 0xFFFF
      requires n + rcvWnd <= m + M && m + inseg.TcpLen() <= n + M
      modifies this`rcvNxt, this`rcvWnd, this`closing, this`n, this`delivered, this`ooseq
      ensures Valid() && delivered == old(delivered) + data
      ensures old(m == n && rcvWnd > 0) ==>
                Advanced(old(Now()), Now(), |stream|, m + Min(|inseg.data|, old(rcvWnd)),
                         inseg.fin && inseg.TcpLen() <= old(rcvWnd))
      ensures old(m != n || rcvWnd == 0) ==>
                && Now().(q := old(ooseq)) == old(Now()) && data == []
                && (if n < m < n + rcvWnd then Taken(ooseq, old(ooseq), inseg, rcvNxt, rcvWnd, copied)
                    else ooseq == old(ooseq))
      ensures Sources(ooseq, if old(m == n && rcvWnd > 0) then old(ooseq) else old(ooseq) + [inseg])
    {
      data := [];
      SourcesSelf(ooseq, [inseg]);
      InWindowIs(inseg, rcvNxt, rcvWnd, irs, m, n);
      if Between(inseg.seqno, rcvNxt, Plus(rcvNxt, rcvWnd as int - 1)) {
        if rcvNxt == inseg.seqno {
          data := InOrder(inseg);
        } else {
          ooseq := Enqueue(ooseq, inseg, rcvNxt, rcvWnd, copied, n, stream);
        }
      }
    }

    /** Lines 1467-1614: the window bounds what is taken; a FIN beyond it is dropped with the rest. */
    method InOrder(inseg: Seg) returns (data: seq<U8>)
      requires Valid() && !closing && Good(inseg, rcvNxt, n, stream) && inseg.seqno == rcvNxt && rcvWnd > 0
      modifies this`rcvNxt, this`rcvWnd, this`closing, this`n, this`delivered, this`ooseq
      ensures Valid() && delivered == old(delivered) + data
      ensures Advanced(old(Now()), Now(), |stream|, old(n) + Min(|inseg.data|, old(rcvWnd)),
                       inseg.fin && inseg.TcpLen() <= old(rcvWnd)) && Sources(ooseq, old(ooseq))
    {
      assert Rel(inseg.seqno, rcvNxt) == 0;
      var s := inseg;
      if inseg.TcpLen() > rcvWnd {
        Shorter(inseg, rcvWnd, rcvNxt, n, stream);
        s := Seg(inseg.seqno, inseg.data[..rcvWnd], false);
      }
      data := TakeInOrder(s);
    }

    /** Lines 1382-1807, the data half of tcp_receive, for a segment that holds what the peer has from position
        off on. Sequence numbers tell positions apart only within 2^32 of the window, which the bounds on off
        say (see Aliases); IP bounds the length. */
    method Receive(seg: Seg, copied: bool, ghost off: nat) returns (data: seq<U8>)
      requires Valid() && seg.seqno == Plus(irs, off) && Cut(seg, 0, off, stream) && seg.TcpLen() <= 0xFFFF
      requires n + rcvWnd <= off + M && off + seg.TcpLen() <= n + M
      modifies this`rcvNxt, this`rcvWnd, this`closing, this`n, this`delivered, this`ooseq
      ensures Valid() && delivered == old(delivered) + data
      ensures Received(old(Now()), Now(), seg, off, copied, |stream|) && Stemmed(old(Now()), Now(), seg, off)
    {
      data := [];
      SourcesSelf(ooseq, [seg]);
      if seg.TcpLen() > 0 && !closing {
        TrimFrontIs(seg, rcvNxt, irs, off, n, stream);
        var inseg := TrimFront(seg, rcvNxt);
        ghost var m := if off < n < off + seg.TcpLen() then n else off;
        ghost var end, fin := m + Min(|inseg.data|, rcvWnd), inseg.fin && inseg.TcpLen() <= rcvWnd;
        assert m == n ==> end == Min(off + |seg.data|, n + rcvWnd)
                          && (fin <==> seg.fin && off + seg.TcpLen() <= n + rcvWnd);
        data := Accept(inseg, copied, m);
      }
    }

    /** tcp_receive and a peer that stays within the window: the right edge does not move. */
    method ReceiveInside(seg: Seg, copied: bool, ghost off: nat) returns (data: seq<U8>)
      requires Valid() && seg.seqno == Plus(irs, off) && Cut(seg, 0, off, stream) && seg.TcpLen() <= 0xFFFF
      requires n + rcvWnd <= off + M && off + seg.TcpLen() <= n + M
      modifies this`rcvNxt, this`rcvWnd, this`closing, this`n, this`delivered, this`ooseq
      ensures Valid() && delivered == old(delivered) + data && n >= old(n)
      ensures Received(old(Now()), Now(), seg, off, copied, |stream|) && Stemmed(old(Now()), Now(), seg, off)
      ensures old(InWindow(Now(), |stream|)) && off + seg.TcpLen() <= old(n + rcvWnd) ==>
                n + rcvWnd == old(n + rcvWnd) && InWindow(Now(), |stream|)
    {
      data := Receive(seg, copied, off);
      if old(InWindow(Now(), |stream|)) && off + seg.TcpLen() <= old(n + rcvWnd) {
        PlusPlus(irs, old(n), off - old(n));
        Conserves(old(Now()), Now(), seg, off, copied, stream);
      }
    }

    /** The same counted in bytes: a FIN takes a place that the application will not give back. */
    method ReceiveCounted(seg: Seg, copied: bool, ghost off: nat) returns (data: seq<U8>)
      requires Valid() && seg.seqno == Plus(irs, off) && Cut(seg, 0, off, stream) && seg.TcpLen() <= 0xFFFF
      requires n + rcvWnd <= off + M && off + seg.TcpLen() <= n + M
      modifies this`rcvNxt, this`rcvWnd, this`closing, this`n, this`delivered, this`ooseq
      ensures Valid() && delivered == old(delivered) + data
      ensures Received(old(Now()), Now(), seg, off, copied, |stream|) && Stemmed(old(Now()), Now(), seg, off)
      ensures old(Balanced() && InWindow(Now(), |stream|)) && off + seg.TcpLen() <= old(n + rcvWnd) ==>
                InWindow(Now(), |stream|) && Owes(if closing && !old(closing) then 1 else 0)
    {
      assert |delivered| + (if closing then 1 else 0) == n;
      data := ReceiveInside(seg, copied, off);
      assert |delivered| + (if closing then 1 else 0) == n;
    }

    /** tcp_receive followed by lines 531-546 of tcp_input: the application never reports the FIN as read, so
        the window gets its place back. */
    method Input(seg: Seg, copied: bool, ghost off: nat) returns (data: seq<U8>, gotFin: bool, ghost after: View)
      requires Valid() && seg.seqno == Plus(irs, off) && Cut(seg, 0, off, stream) && seg.TcpLen() <= 0xFFFF
      requires n + rcvWnd <= off + M && off + seg.TcpLen() <= n + M
      modifies this`rcvNxt, this`rcvWnd, this`closing, this`n, this`delivered, this`ooseq
      ensures Valid() && delivered == old(delivered) + data && gotFin == (closing && !old(closing))
      ensures Received(old(Now()), after, seg, off, copied, |stream|) && Stemmed(old(Now()), after, seg, off)
      ensures Now() == if gotFin then after.(wnd := rcvWnd) else after
      ensures old(Balanced() && InWindow(Now(), |stream|)) && off + seg.TcpLen() <= old(n + rcvWnd) ==>
                Balanced() && InWindow(Now(), |stream|)
    {
      var wasClosing := closing;
      data := ReceiveCounted(seg, copied, off);
      after := Now();
      gotFin := closing && !wasClosing;
      if gotFin {
        ReturnFin();
      }
    }

    /** The books balance, and nothing has come in from beyond e, which lies inside the window. */
    ghost predicate Inside(e: int)
      reads this
    {
      && Valid() && Balanced() && InWindow(Now(), |stream|)
      && n <= e <= n + rcvWnd && Below(Now(), |stream|, e)
    }

    /** tcp_input for a peer that keeps below an announced right edge e. */
    method InputInside(seg: Seg, copied: bool, ghost off: nat, ghost e: int)
      returns (data: seq<U8>, gotFin: bool, ghost after: View)
      requires Inside(e) && seg.seqno == Plus(irs, off) && Cut(seg, 0, off, stream) && seg.TcpLen() <= 0xFFFF
      requires n + rcvWnd <= off + M && off + seg.TcpLen() <= e
      modifies this`rcvNxt, this`rcvWnd, this`closing, this`n, this`delivered, this`ooseq
      ensures Inside(e) && delivered == old(delivered) + data && gotFin == (closing && !old(closing))
      ensures n == old(n) + |data| + (if gotFin then 1 else 0) && n + rcvWnd >= old(n + rcvWnd)
      ensures Received(old(Now()), after, seg, off, copied, |stream|) && Stemmed(old(Now()), after, seg, off)
      ensures Now() == after.(wnd := rcvWnd)
    {
      PlusPlus(irs, n, off - n);
      ghost var before := Now();
      data, gotFin, after := Input(seg, copied, off);
      StaysBelow(before, after, seg, off, copied, stream, e);
    }

    /** tcp_recved (tcp.c, lines 971-994): the application has read len bytes. */
    method Recved(len: U16)
      requires Valid()
      modifies this`rcvWnd, this`recved
      ensures Valid() && rcvWnd as int == Min(old(rcvWnd) as int + len, TCP_WND) && recved == old(recved) + len
      ensures old(InWindow(Now(), |stream|)) && old(rcvWnd) <= TCP_WND ==> InWindow(Now(), |stream|)
      ensures old(Balanced()) && len <= old(|delivered| - recved) ==> Balanced()
      ensures old(rcvWnd) <= TCP_WND ==> rcvWnd >= old(rcvWnd)
    {
      var wnd := (rcvWnd as int + len) % W16;
      if wnd > TCP_WND || wnd < rcvWnd {
        rcvWnd := TCP_WND;
      } else {
        rcvWnd := wnd;
      }
      recved := recved + len;
    }

    /** The application reads some of what it was given. */
    method RecvedInside(len: U16, ghost e: int)
      requires Inside(e) && len as int <= |delivered| - recved
      modifies this`rcvWnd, this`recved
      ensures Inside(e) && recved == old(recved) + len
    {
      Recved(len);
    }

    method ReturnFin()
      requires Valid() && closing
      modifies this`rcvWnd
      ensures Valid() && InWindow(Now(), |stream|) && (old(Owes(1)) ==> Balanced())
      ensures rcvWnd == if old(rcvWnd) == TCP_WND then TCP_WND else (old(rcvWnd) as int + 1) % W16
    {
      if rcvWnd != TCP_WND {
        rcvWnd := (rcvWnd as int + 1) % W16;
      }
    }
  }

  /** The window claim does need a peer inside the window: a segment queued first is not cut at its right edge
      (line 1656), and taking it in later wraps rcv_wnd around. Here the peer sends positions 21759 to 22758 and
      then the first 21759 to a receiver with a fresh window. */
  lemma OverrunWraps(late: Seg, early: Seg, a: View, b: View, c: View, len: nat)
    requires late.seqno == 21759 && |late.data| == 1000 && !late.fin && early.seqno == 0 && |early.data| == 21759
             && !early.fin
    requires a == View([], 0, 0, TCP_WND, false) && len > 22759 && !c.closing && c.n <= len && Ahead(c.q, c.r)
    requires Received(a, b, late, 21759, true, len) && Received(b, c, early, 0, true, len)
    ensures c.n == 22759 && c.wnd == 64537
  {
    assert Rel(late.seqno, 0) == 21759;
    assert Kept([], late, 0, TCP_WND) == late;
    forall p ensures HeldAt(b.q, b.r, b.n, p) <==> 21759 <= p < 22759 {
      assert Covered(b.q, 0, p) <==> Merged([], late, 0, p);
    }
    assert !HeldAt(c.q, c.r, c.n, c.n);
    assert !HeldAt(b.q, b.r, b.n, c.n);
    assert !HeldAt(b.q, b.r, b.n, 22759);
    assert c.n == 22759;
    assert EdgeOf(0, TCP_WND) == 21760;
  }

  lemma SameEdge(n: nat, wnd: U16, m: nat, was: U16)
    requires EdgeOf(n, wnd) == EdgeOf(m, was) && m <= n <= m + was
    ensures n + wnd == m + was
  {
  }

  /** Lines 1410-1448: bytes before the expected sequence number are cut off. */
  function TrimFront(s: Seg, r: U32): Seg {
    if Between(r, Plus(s.seqno, 1), Plus(s.seqno, s.TcpLen() - 1)) then
      Seg(r, s.data[Min(Rel(r, s.seqno), |s.data|)..], s.fin)
    else s
  }

  lemma NearMod(d: int)
    requires -M <= d < M
    ensures d % M == if d < 0 then d + M else d
  {
  }

  lemma RelOffsets(irs: U32, m: int, n: int)
    ensures Rel(Plus(irs, m), Plus(irs, n)) == (m - n) % M
  {
    PlusPlus(irs, n, m - n);
    var k := (Plus(irs, n) + (m - n)) / M;
    assert Plus(irs, m) as int - Plus(irs, n) as int == m - n + M * (-k);
    ModShift(m - n, -k);
  }

  /** TCP_SEQ_BETWEEN is exact on short intervals: it looks at the distance only. */
  lemma WithinIs(a: U32, b: U32, i: int, j: int)
    requires 0 <= i <= 1 && i - 1 <= j < 0xFFFF
    ensures Between(a, Plus(b, i), Plus(b, j)) <==> i <= Rel(a, b) <= j
  {
    var x := Rel(a, b);
    PlusRel(b, a);
    RelOffsets(b, x, i);
    RelOffsets(b, j, x);
    NearMod(x - i);
    NearMod(j - x);
  }

  lemma TrimFrontIs(s: Seg, r: U32, irs: U32, off: nat, n: nat, stream: seq<U8>)
    requires s.seqno == Plus(irs, off) && r == Plus(irs, n) && Cut(s, 0, off, stream) && 0 < s.TcpLen() <= 0xFFFF
    requires n <= off + M && off + s.TcpLen() <= n + M
    ensures off < n < off + s.TcpLen() ==> TrimFront(s, r) == Seg(r, s.data[n - off..], s.fin)
    ensures off < n < off + s.TcpLen() ==> Cut(TrimFront(s, r), 0, n, stream)
    ensures !(off < n < off + s.TcpLen()) ==> TrimFront(s, r) == s
  {
    WithinIs(r, s.seqno, 1, s.TcpLen() - 1);
    RelOffsets(irs, n, off);
    if n < off + M {
      NearMod(n - off);
    } else {
      assert Rel(r, s.seqno) == 0;
    }
  }

  /** Line 1463, for a segment at position m while position n is expected. */
  lemma InWindowIs(s: Seg, r: U32, wnd: U16, irs: U32, m: nat, n: nat)
    requires s.seqno == Plus(irs, m) && r == Plus(irs, n)
    requires n + wnd <= m + M && m < n + M
    ensures Between(s.seqno, r, Plus(r, wnd as int - 1)) <==> n <= m < n + wnd
    ensures n <= m ==> Rel(s.seqno, r) == m - n
    ensures r == s.seqno ==> m == n || m + M == n
    ensures n == m ==> r == s.seqno
  {
    WithinIs(s.seqno, r, 0, wnd as int - 1);
    PlusZero(r);
    RelOffsets(irs, m, n);
  }

  /** Nothing tells a position from the one 2^32 further on: the bounds on off cannot be widened. */
  lemma Aliases(irs: U32, off: nat)
    ensures Plus(irs, off + M) == Plus(irs, off)
  {
    ModShift(irs + off, 1);
  }

  lemma SomethingHeld(v: View, stream: seq<U8>)
    requires Queue(v.q, v.r, v.n, stream) && !HasFin(v.q)
    ensures |v.q| > 0 ==> exists p :: p >= v.n && HeldAt(v.q, v.r, v.n, p)
  {
    if |v.q| > 0 {
      var s := v.q[|v.q| - 1];
      assert Good(s, v.r, v.n, stream);
      assert In(s, v.r, Rel(s.seqno, v.r));
      assert HeldAt(v.q, v.r, v.n, v.n + Rel(s.seqno, v.r));
    }
  }

  /** A FIN that waits has data in front of it that is missing. */
  lemma QueuedFin(v: View, stream: seq<U8>)
    requires Queue(v.q, v.r, v.n, stream) && Ahead(v.q, v.r)
    ensures HasFin(v.q) ==> v.n < |stream|
  {
    if HasFin(v.q) { assert Good(v.q[|v.q| - 1], v.r, v.n, stream); }
  }

  /** One chunk into an empty queue moves on by exactly that chunk. */
  lemma OneChunk(a: View, b: View, stream: seq<U8>, len: nat, fin: bool)
    requires a.q == [] && Advanced(a, b, |stream|, a.n + len, fin)
    requires Queue(b.q, b.r, b.n, stream) && Ahead(b.q, b.r) && b.n <= |stream| + 1
             && (b.closing <==> b.n == |stream| + 1)
    requires b.closing ==> b.q == []
    requires a.n + len <= |stream| && (fin <==> a.n + len == |stream|)
    ensures b.q == [] && b.n == a.n + len + (if fin then 1 else 0) && (b.closing <==> fin)
  {
    assert forall p :: !HeldAt(a.q, a.r, a.n, p);
    assert b.n > a.n + len && a.n + len < |stream| ==> HeldAt(a.q, a.r, a.n, a.n + len);
    QueuedFin(b, stream);
    if !b.closing {
      SomethingHeld(b, stream);
    }
  }

  /** Nothing gets stuck: a stream of any length, longer than the sequence space too, sent chunk by chunk to an
      application that reads, arrives completely and with its end. */
  method Transfer(irs: U32, stream: seq<U8>, chunk: nat) returns (delivered: seq<U8>, ended: bool)
    requires 0 < chunk < TCP_WND as int
    ensures ended && delivered == stream
  {
    var pcb := new Pcb(irs, stream);
    delivered, ended := [], false;
    var i := 0;
    while !ended
      invariant fresh(pcb) && pcb.Valid() && pcb.irs == irs && pcb.stream == stream && pcb.Balanced()
                && InWindow(pcb.Now(), |stream|)
      invariant pcb.ooseq == [] && pcb.recved == |pcb.delivered| && delivered == pcb.delivered && ended == pcb.closing
      invariant i <= |stream| && (!ended ==> pcb.n == i)
      decreases |stream| - i, !ended
    {
      var len := Min(chunk, |stream| - i);
      var fin := i + len == |stream|;
      var data := Chunk(pcb, Seg(Plus(irs, i), stream[i..i + len], fin), i);
      delivered, ended := delivered + data, fin;
      i := i + len;
    }
  }

  method Chunk(pcb: Pcb, seg: Seg, ghost i: nat) returns (data: seq<U8>)
    requires pcb.Valid() && pcb.Balanced() && InWindow(pcb.Now(), |pcb.stream|) && pcb.ooseq == []
             && pcb.recved == |pcb.delivered|
    requires !pcb.closing && pcb.n == i && seg.seqno == Plus(pcb.irs, i) && Cut(seg, 0, i, pcb.stream)
    requires 0 < seg.TcpLen() <= TCP_WND as int && (seg.fin <==> i + |seg.data| == |pcb.stream|)
    modifies pcb
    ensures pcb.Valid() && pcb.Balanced() && InWindow(pcb.Now(), |pcb.stream|) && pcb.ooseq == []
            && pcb.recved == |pcb.delivered|
    ensures pcb.n == i + seg.TcpLen() && pcb.closing == seg.fin && pcb.delivered == old(pcb.delivered) + data
  {
    var bytes, gotFin, after := pcb.Input(seg, true, i);
    OneChunk(old(pcb.Now()), after, pcb.stream, |seg.data|, seg.fin);
    data := bytes;
    pcb.Recved(|data|);
  }

  /** tcp_update_rcv_ann_wnd (tcp.c, lines 933-960), with position e for the right edge announced so far, at any
      distance that sequence numbers can tell. Inside the window the edge never moves back and never passes the
      window; an edge beyond a window that has shrunk is kept, as far as 16 bits go. */
  method UpdateRcvAnnWnd(rcvNxt: U32, rcvWnd: U16, right: U32, mss: U16, ghost irs: U32, ghost n: nat, ghost e: nat)
    returns (annWnd: U16, inflation: U32)
    requires rcvNxt == Plus(irs, n) && right == Plus(irs, e)
    requires -0x7FFF_0000 <= n - e < 0x7FFF_0000
    ensures e <= n + rcvWnd ==> annWnd <= rcvWnd && e <= n + annWnd
    ensures e > n + rcvWnd && e <= n + 0xFFFF ==> e == n + annWnd
    ensures inflation as int == if n + rcvWnd >= e + Min(TCP_WND as int / 2, mss) then n + rcvWnd - e else 0
    ensures n + rcvWnd >= e + Min(TCP_WND as int / 2, mss) ==> annWnd == rcvWnd
  {
    var least := Min(TCP_WND as int / 2, mss);
    var newRight := Plus(rcvNxt, rcvWnd);
    EdgesCompare(irs, n, e, rcvWnd, least);
    if Geq(newRight, Plus(right, least)) {
      Distance(irs, e, n + rcvWnd);
      return rcvWnd, Rel(newRight, right);
    }
    if Gt(rcvNxt, right) {
      return 0, 0;
    }
    Distance(irs, n, e);
    return Rel(right, rcvNxt) % W16, 0;
  }

  lemma EdgesCompare(irs: U32, n: nat, e: nat, wnd: int, least: int)
    requires -0x7FFF_0000 <= n - e < 0x7FFF_0000 && 0 <= wnd < W16 && 0 <= least < W16
    ensures Plus(Plus(irs, n), wnd) == Plus(irs, n + wnd)
    ensures Geq(Plus(Plus(irs, n), wnd), Plus(Plus(irs, e), least)) <==> n + wnd >= e + least
    ensures Gt(Plus(irs, n), Plus(irs, e)) <==> n > e
  {
    PlusPlus(irs, n, wnd);
    PlusPlus(irs, e, least);
    LtOffsets(irs, Plus(irs, n + wnd), Plus(irs, e + least), n + wnd, e + least);
    LtOffsets(irs, Plus(irs, e), Plus(irs, n), e, n);
  }

  lemma Distance(irs: U32, m: int, n: int)
    requires 0 <= n - m < M
    ensures Rel(Plus(irs, n), Plus(irs, m)) == n - m
  {
    RelOffsets(irs, n, m);
    NearMod(n - m);
  }
}
