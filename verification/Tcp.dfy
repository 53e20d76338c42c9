/** 32-bit sequence numbers and their wrap-around comparison. */
module TcpSeq {
  import opened Bits

  const M: int := 0x1_0000_0000

  /** u32 addition */
  function Plus(a: U32, k: int): U32 {
    (a + k) % M
  }

  /** TCP_SEQ_LT: bit 31 of the 32-bit difference. */
  predicate Lt(a: U32, b: U32) {
    (a as int - b as int) % M >= 0x8000_0000
  }

  predicate Leq(a: U32, b: U32) { !Lt(b, a) }
  predicate Gt(a: U32, b: U32) { Lt(b, a) }
  predicate Geq(a: U32, b: U32) { Leq(b, a) }
  predicate Between(a: U32, b: U32, c: U32) { Geq(a, b) && Leq(a, c) }

  /** How far a lies ahead of the sequence number r. */
  function Rel(a: U32, r: U32): nat {
    (a as int - r as int) % M
  }

  lemma ModShift(x: int, k: int)
    ensures (x + M * k) % M == x % M
  {
  }

  /** Numbers that are known offsets from r compare like the offsets while those differ by less than 2^31. */
  lemma LtOffsets(r: U32, a: U32, b: U32, x: int, y: int)
    requires a == Plus(r, x) && b == Plus(r, y)
    requires -0x8000_0000 <= x - y < 0x8000_0000
    ensures Lt(a, b) <==> x < y
  {
    var j, k := (r + x) / M, (r + y) / M;
    assert a as int - b as int == (x - y) + M * (k - j);
    ModShift(x - y, k - j);
  }

  lemma RelIs(r: U32, a: U32, x: int)
    requires a == Plus(r, x) && 0 <= x < M
    ensures Rel(a, r) == x
  {
    var j := (r + x) / M;
    assert a as int - r as int == x + M * (-j);
    ModShift(x, -j);
  }

  lemma PlusRel(r: U32, a: U32)
    ensures a == Plus(r, Rel(a, r))
  {
  }

  lemma PlusPlus(a: U32, j: int, k: int)
    ensures Plus(Plus(a, j), k) == Plus(a, j + k)
  {
    var q := (a + j) / M;
    assert a + j + k == (Plus(a, j) + k) + M * q;
    ModShift(Plus(a, j) + k, q);
  }
}

/** The out-of-sequence queue of source/lwip/core/tcp_in.c, as a sequence of segments. Line numbers refer to that
file. */
module TcpQueue {
  import opened Bits
  import opened TcpSeq

  datatype Seg = Seg(seqno: U32, data: seq<U8>, fin: bool) {
    /** TCP_TCPLEN; the queue never holds a SYN. */
    function TcpLen(): nat {
      |data| + if fin then 1 else 0
    }
  }

  /** A queued segment starts inside the window and is no longer than 65535, so it never reaches further. */
  const REACH: int := 0x2_0000

  /** s is what lies x positions after position n of the peer's stream; a FIN sits right behind its end. */
  ghost predicate Cut(s: Seg, x: int, n: nat, stream: seq<U8>) {
    && 0 <= n + x && n + x + |s.data| <= |stream|
    && s.data == stream[n + x..n + x + |s.data|]
    && (s.fin ==> n + x + |s.data| == |stream|)
  }

  /** A segment that may be in the queue of a receiver that expects sequence number r, position n. */
  ghost predicate Good(s: Seg, r: U32, n: nat, stream: seq<U8>) {
    && s.TcpLen() > 0 && Rel(s.seqno, r) + s.TcpLen() <= REACH
    && Cut(s, Rel(s.seqno, r), n, stream)
  }

  /** a ends before b starts, starts strictly before it, and is not the last segment of the stream. */
  ghost predicate Before(a: Seg, b: Seg, r: U32) {
    Rel(a.seqno, r) + |a.data| <= Rel(b.seqno, r) && Rel(a.seqno, r) < Rel(b.seqno, r) && !a.fin
  }

  ghost predicate Sorted(q: seq<Seg>, r: U32) {
    forall i, j :: 0 <= i < j < |q| ==> Before(q[i], q[j], r)
  }

  ghost predicate Queue(q: seq<Seg>, r: U32, n: nat, stream: seq<U8>) {
    Sorted(q, r) && forall i :: 0 <= i < |q| ==> Good(q[i], r, n, stream)
  }

  /** Every segment starts strictly beyond r. */
  ghost predicate Ahead(q: seq<Seg>, r: U32) {
    forall i :: 0 <= i < |q| ==> 0 < Rel(q[i].seqno, r)
  }

  lemma AheadFrom(q: seq<Seg>, r: U32)
    requires Sorted(q, r) && |q| > 0 && 0 < Rel(q[0].seqno, r)
    ensures Ahead(q, r)
  {
    forall i | 0 < i < |q| ensures 0 < Rel(q[i].seqno, r) { assert Before(q[0], q[i], r); }
  }

  /** Position p, counted from r, holds data of s. */
  ghost predicate In(s: Seg, r: U32, p: int) {
    Rel(s.seqno, r) <= p < Rel(s.seqno, r) + |s.data|
  }

  ghost predicate Covered(q: seq<Seg>, r: U32, p: int) {
    exists i :: 0 <= i < |q| && In(q[i], r, p)
  }

  predicate HasFin(q: seq<Seg>) {
    |q| > 0 && q[|q| - 1].fin
  }

  lemma CoveredJoin(a: seq<Seg>, b: seq<Seg>, r: U32, p: int)
    ensures Covered(a + b, r, p) <==> Covered(a, r, p) || Covered(b, r, p)
  {
    if Covered(a, r, p) {
      var i :| 0 <= i < |a| && In(a[i], r, p);
      assert In((a + b)[i], r, p);
    }
    if Covered(b, r, p) {
      var i :| 0 <= i < |b| && In(b[i], r, p);
      assert In((a + b)[|a| + i], r, p);
    }
  }

  lemma CoveredOne(s: Seg, r: U32, p: int)
    ensures Covered([s], r, p) <==> In(s, r, p)
  {
    if In(s, r, p) { assert In([s][0], r, p); }
  }

  /** Wrap-around comparison of positions near r is comparison of their offsets. */
  lemma CompareAhead(r: U32, a: U32, i: int, b: U32, j: int)
    requires Rel(a, r) < 0x10_0000 && Rel(b, r) < 0x10_0000 && -0x10_0000 <= i < 0x10_0000
             && -0x10_0000 <= j < 0x10_0000
    ensures Lt(Plus(a, i), Plus(b, j)) <==> Rel(a, r) + i < Rel(b, r) + j
  {
    PlusRel(r, a);
    PlusRel(r, b);
    PlusPlus(r, Rel(a, r), i);
    PlusPlus(r, Rel(b, r), j);
    LtOffsets(r, Plus(a, i), Plus(b, j), Rel(a, r) + i, Rel(b, r) + j);
  }

  lemma PlusZero(a: U32)
    ensures Plus(a, 0) == a
  {
  }

  /** The difference of two sequence numbers ahead of r, as the code computes it. */
  lemma DifferenceAhead(r: U32, a: U32, b: U32)
    requires Rel(a, r) <= Rel(b, r)
    ensures Rel(b, a) == Rel(b, r) - Rel(a, r)
  {
    PlusRel(r, a);
    PlusRel(r, b);
    PlusPlus(r, Rel(a, r), Rel(b, r) - Rel(a, r));
    RelIs(a, b, Rel(b, r) - Rel(a, r));
  }

  /** Cutting the tail off a segment, FIN included, leaves a segment of the same stream. */
  lemma Shorter(s: Seg, len: nat, r: U32, n: nat, stream: seq<U8>)
    requires Good(s, r, n, stream) && 0 < len <= |s.data|
    ensures Good(Seg(s.seqno, s.data[..len], false), r, n, stream)
  {
    var x := Rel(s.seqno, r);
    assert s.data[..len] == stream[n + x..n + x + len];
  }

  /** c may take a place in front of s: it starts earlier, or at the same position with more data. */
  ghost predicate Supersedes(c: Seg, s: Seg, r: U32) {
    Rel(c.seqno, r) < Rel(s.seqno, r) || (c.seqno == s.seqno && |c.data| > |s.data|)
  }

  lemma OnlyLastEnds(q: seq<Seg>, k: nat, r: U32)
    requires Sorted(q, r) && k < |q|
    ensures k + 1 < |q| ==> !q[k].fin
  {
    if k + 1 < |q| { assert Before(q[k], q[k + 1], r); }
  }

  /** Lines 1086-1090, 1744-1748 and 1780-1784: the segment in front gives way to a later start. */
  method TrimTo(prev: Seg, seqno: U32, ghost r: U32, ghost n: nat, ghost stream: seq<U8>) returns (out: Seg)
    requires Good(prev, r, n, stream) && !prev.fin && Rel(prev.seqno, r) < Rel(seqno, r) < 0x10_0000
    ensures Good(out, r, n, stream) && out.seqno == prev.seqno && !out.fin
    ensures Rel(prev.seqno, r) + |out.data| <= Rel(seqno, r)
    ensures out == prev || (|out.data| < |prev.data| && Rel(prev.seqno, r) + |out.data| == Rel(seqno, r))
    ensures forall p :: In(out, r, p) <==> In(prev, r, p) && p < Rel(seqno, r)
  {
    out := prev;
    CompareAhead(r, seqno, 0, prev.seqno, |prev.data|);
    PlusZero(seqno);
    if Gt(Plus(prev.seqno, |prev.data|), seqno) {
      DifferenceAhead(r, prev.seqno, seqno);
      Shorter(prev, Rel(seqno, prev.seqno), r, n, stream);
      out := Seg(prev.seqno, prev.data[..Rel(seqno, prev.seqno)], false);
    }
  }

  /** Lines 1076-1085: the segments that cseg covers go, and hand over their FIN. */
  method Swallow(cseg: Seg, q: seq<Seg>, ghost r: U32, ghost n: nat, ghost stream: seq<U8>) returns (c: Seg, k: nat)
    requires Good(cseg, r, n, stream) && !cseg.fin && Queue(q, r, n, stream)
    requires forall i :: 0 <= i < |q| ==> Supersedes(cseg, q[i], r)
    ensures k <= |q| && Good(c, r, n, stream) && c == cseg.(fin := c.fin) && (c.fin ==> k == |q|)
    ensures forall i :: 0 <= i < k ==> Within(q[i], cseg, r)
    ensures k < |q| ==> Rel(c.seqno, r) + |c.data| < Rel(q[k].seqno, r) + |q[k].data|
    ensures k == |q| ==> (c.fin <==> HasFin(q))
  {
    c, k := cseg, 0;
    while k < |q| && Geq(Plus(c.seqno, |c.data|), Plus(q[k].seqno, |q[k].data|))
      invariant 0 <= k <= |q| && c == cseg.(fin := c.fin) && Good(c, r, n, stream)
      invariant c.fin <==> k == |q| && HasFin(q)
      invariant forall i :: 0 <= i < k ==> Within(q[i], cseg, r)
    {
      CompareAhead(r, c.seqno, |c.data|, q[k].seqno, |q[k].data|);
      OnlyLastEnds(q, k, r);
      if q[k].fin {
        c := c.(fin := true);
      }
      k := k + 1;
    }
    if k < |q| { CompareAhead(r, c.seqno, |c.data|, q[k].seqno, |q[k].data|); }
  }

  /** x is t, or what cutting its tail off has left of it. */
  ghost predicate From(x: Seg, t: Seg) {
    x.seqno == t.seqno && |x.data| <= |t.data|
  }

  ghost predicate Stems(x: Seg, src: seq<Seg>) {
    exists i :: 0 <= i < |src| && From(x, src[i])
  }

  /** Nothing is in out but segments of src, whole or with their tails cut off. */
  ghost predicate Sources(out: seq<Seg>, src: seq<Seg>) {
    forall k :: 0 <= k < |out| ==> Stems(out[k], src)
  }

  lemma StemsFrom(x: Seg, src: seq<Seg>, i: nat)
    requires i < |src| && From(x, src[i])
    ensures Stems(x, src)
  {
  }

  lemma SourcesPart(q: seq<Seg>, i: nat, j: nat, src: seq<Seg>)
    requires i <= j <= |q| && Sources(q, src)
    ensures Sources(q[i..j], src)
  {
    forall k | 0 <= k < j - i ensures Stems(q[i..j][k], src) { assert Stems(q[i + k], src); }
  }

  lemma SourcesJoin(p: seq<Seg>, q: seq<Seg>, src: seq<Seg>)
    requires Sources(p, src) && Sources(q, src)
    ensures Sources(p + q, src)
  {
    forall k | 0 <= k < |p + q| ensures Stems((p + q)[k], src) {
      if k < |p| { assert Stems(p[k], src); } else { assert Stems(q[k - |p|], src); }
    }
  }

  lemma SourcesOne(x: Seg, src: seq<Seg>, i: nat)
    requires i < |src| && From(x, src[i])
    ensures Sources([x], src)
  {
    StemsFrom(x, src, i);
  }

  lemma SourcesSelf(q: seq<Seg>, more: seq<Seg>)
    ensures Sources(q, q + more)
  {
    forall k | 0 <= k < |q| ensures Stems(q[k], q + more) { StemsFrom(q[k], q + more, k); }
  }

  lemma SourcesThrough(out: seq<Seg>, mid: seq<Seg>, src: seq<Seg>)
    requires Sources(out, mid) && Sources(mid, src)
    ensures Sources(out, src)
  {
    forall k | 0 <= k < |out| ensures Stems(out[k], src) {
      assert Stems(out[k], mid);
      var i :| 0 <= i < |mid| && From(out[k], mid[i]);
      assert Stems(mid[i], src);
      var j :| 0 <= j < |src| && From(mid[i], src[j]);
      StemsFrom(out[k], src, j);
    }
  }

  /** tcp_oos_insert_segment: put cseg in front of the segments q, all of which start at or after it. */
  method OosInsert(cseg: Seg, q: seq<Seg>, ghost r: U32, ghost n: nat, ghost stream: seq<U8>) returns (out: seq<Seg>)
    requires Good(cseg, r, n, stream) && Queue(q, r, n, stream)
    requires forall i :: 0 <= i < |q| ==> Supersedes(cseg, q[i], r)
    ensures Queue(out, r, n, stream) && |out| > 0 && out[0].seqno == cseg.seqno
    ensures forall p :: Covered(out, r, p) <==> In(cseg, r, p) || Covered(q, r, p)
    ensures HasFin(out) <==> cseg.fin || HasFin(q)
    ensures Sources(out, q + [cseg])
  {
    if cseg.fin {
      InsertCovers(cseg, cseg, q, |q|, r);
      SourcesOne(cseg, q + [cseg], |q|);
      return [cseg];
    }
    var c, k := Swallow(cseg, q, r, n, stream);
    if k < |q| {
      c := TrimTo(c, q[k].seqno, r, n, stream);
    }
    out := [c] + q[k..];
    Prepend(c, q, k, r, n, stream);
    InsertCovers(cseg, c, q, k, r);
    PrependSources(cseg, c, q, k);
  }

  lemma PrependSources(cseg: Seg, c: Seg, q: seq<Seg>, k: nat)
    requires k <= |q| && From(c, cseg)
    ensures Sources([c] + q[k..], q + [cseg])
  {
    SourcesOne(c, q + [cseg], |q|);
    SourcesSelf(q, [cseg]);
    SourcesPart(q, k, |q|, q + [cseg]);
    assert q[k..|q|] == q[k..];
    SourcesJoin([c], q[k..], q + [cseg]);
  }

  /** All the data of a lies within b. */
  ghost predicate Within(a: Seg, b: Seg, r: U32) {
    Rel(b.seqno, r) <= Rel(a.seqno, r) && Rel(a.seqno, r) + |a.data| <= Rel(b.seqno, r) + |b.data|
  }

  /** Dropping the first k segments costs nothing when they lie within cseg, and neither does cutting
      cseg back to c when the next segment takes over from there. */
  lemma InsertCovers(cseg: Seg, c: Seg, q: seq<Seg>, k: nat, r: U32)
    requires k <= |q| && c.seqno == cseg.seqno && |c.data| <= |cseg.data|
    requires forall i :: 0 <= i < k ==> Within(q[i], cseg, r)
    requires c.data != cseg.data ==> k < |q| && Rel(c.seqno, r) + |c.data| == Rel(q[k].seqno, r)
    requires c.data != cseg.data ==> Rel(cseg.seqno, r) + |cseg.data| <= Rel(q[k].seqno, r) + |q[k].data|
    ensures forall p :: Covered([c] + q[k..], r, p) <==> In(cseg, r, p) || Covered(q, r, p)
  {
    forall p ensures Covered([c] + q[k..], r, p) <==> In(cseg, r, p) || Covered(q, r, p) {
      CoveredJoin([c], q[k..], r, p);
      CoveredOne(c, r, p);
      assert q == q[..k] + q[k..];
      CoveredJoin(q[..k], q[k..], r, p);
      if In(cseg, r, p) && !In(c, r, p) { assert In(q[k..][0], r, p); }
    }
  }

  lemma Prepend(c: Seg, q: seq<Seg>, k: nat, r: U32, n: nat, stream: seq<U8>)
    requires Good(c, r, n, stream) && Queue(q, r, n, stream) && k <= |q|
    requires k < |q| ==> Before(c, q[k], r)
    ensures Queue([c] + q[k..], r, n, stream)
  {
    var out := [c] + q[k..];
    forall i, j | 0 <= i < j < |out|
      ensures Before(out[i], out[j], r)
    {
      assert out[j] == q[k + j - 1];
      if i == 0 && j > 1 { assert Before(q[k], q[k + j - 1], r); }
    }
  }

  /** A queue and a segment list that continues it. */
  lemma Join(p: seq<Seg>, q: seq<Seg>, r: U32, n: nat, stream: seq<U8>)
    requires Queue(p, r, n, stream) && Queue(q, r, n, stream)
    requires |p| > 0 && |q| > 0 ==> Before(p[|p| - 1], q[0], r)
    ensures Queue(p + q, r, n, stream)
  {
    var out := p + q;
    forall i, j | 0 <= i < j < |out|
      ensures Before(out[i], out[j], r)
    {
      if i < |p| <= j {
        if i < |p| - 1 { assert Before(p[i], p[|p| - 1], r); }
        if j > |p| { assert Before(q[0], q[j - |p|], r); }
      }
    }
  }

  lemma Part(q: seq<Seg>, i: nat, j: nat, r: U32, n: nat, stream: seq<U8>)
    requires Queue(q, r, n, stream) && i <= j <= |q|
    ensures Queue(q[i..j], r, n, stream)
  {
    forall a, b | 0 <= a < b < |q[i..j]|
      ensures Before(q[i..j][a], q[i..j][b], r)
    {
      assert Before(q[i + a], q[i + b], r);
    }
  }

  /** The positions that a queue q and a newly queued segment c hold together: a segment that starts
      before c gives up what it holds from c's start on. */
  ghost predicate Merged(q: seq<Seg>, c: Seg, r: U32, p: int) {
    In(c, r, p) || exists i :: 0 <= i < |q| && In(q[i], r, p)
                               && (p < Rel(c.seqno, r) || Rel(c.seqno, r) <= Rel(q[i].seqno, r))
  }

  /** q is a, then one segment cut at c's start, then b; everything in b starts at or after c. */
  lemma MergedParts(q: seq<Seg>, k: nat, c: Seg, r: U32, p: int)
    requires Sorted(q, r) && k <= |q|
    requires forall i :: 0 <= i < k ==> Rel(q[i].seqno, r) < Rel(c.seqno, r)
    requires forall i :: k <= i < |q| ==> Rel(c.seqno, r) <= Rel(q[i].seqno, r)
    requires k > 1 ==> Rel(q[k - 2].seqno, r) + |q[k - 2].data| <= Rel(c.seqno, r)
    ensures Merged(q, c, r, p) <==>
            In(c, r, p) || Covered(q[k..], r, p)
            || (k > 0 && (Covered(q[..k - 1], r, p) || (In(q[k - 1], r, p) && p < Rel(c.seqno, r))))
  {
    var x := Rel(c.seqno, r);
    if Merged(q, c, r, p) && !In(c, r, p) {
      var i :| 0 <= i < |q| && In(q[i], r, p) && (p < x || x <= Rel(q[i].seqno, r));
      if i >= k { assert In(q[k..][i - k], r, p); }
      else if i < k - 1 { assert In(q[..k - 1][i], r, p); }
    }
    if Covered(q[k..], r, p) {
      var i :| 0 <= i < |q[k..]| && In(q[k..][i], r, p);
      assert In(q[k + i], r, p);
    }
    if k > 0 && Covered(q[..k - 1], r, p) {
      var i :| 0 <= i < k - 1 && In(q[..k - 1][i], r, p);
      assert In(q[i], r, p);
      if i < k - 2 { assert Before(q[i], q[k - 2], r); }
    }
  }

  /** Lines 1707-1709, 1739 and 1751: the new segment in front of q[k] and what follows it. */
  method InsertRest(q: seq<Seg>, k: nat, inseg: Seg, ghost r: U32, ghost n: nat, ghost stream: seq<U8>)
    returns (rest: seq<Seg>)
    requires Queue(q, r, n, stream) && k < |q| && Good(inseg, r, n, stream) && Supersedes(inseg, q[k], r)
    ensures Queue(rest, r, n, stream) && |rest| > 0 && rest[0].seqno == inseg.seqno
    ensures forall p :: Covered(rest, r, p) <==> In(inseg, r, p) || Covered(q[k..], r, p)
    ensures HasFin(rest) <==> HasFin(q) || inseg.fin
    ensures Sources(rest, q + [inseg])
  {
    Part(q, k, |q|, r, n, stream);
    assert q[k..|q|] == q[k..];
    TailSources(q, k, inseg);
    forall i | 0 <= i < |q[k..]| ensures Supersedes(inseg, q[k..][i], r) {
      if i > 0 { assert Before(q[k], q[k + i], r); }
    }
    rest := OosInsert(inseg, q[k..], r, n, stream);
    SourcesThrough(rest, q[k..] + [inseg], q + [inseg]);
  }

  lemma TailSources(q: seq<Seg>, k: nat, s: Seg)
    requires k <= |q|
    ensures Sources(q[k..] + [s], q + [s])
  {
    SourcesSelf(q, [s]);
    SourcesPart(q, k, |q|, q + [s]);
    assert q[k..|q|] == q[k..];
    SourcesOne(s, q + [s], |q|);
    SourcesJoin(q[k..], [s], q + [s]);
  }

  /** The queue up to q[k - 2], then prev, which is what is left of q[k - 1], then the rest, which starts with c. */
  function Spliced(q: seq<Seg>, k: nat, prev: Seg, rest: seq<Seg>): seq<Seg>
    requires 0 < k <= |q|
  {
    q[..k - 1] + ([prev] + rest)
  }

  lemma SplicedQueue(q: seq<Seg>, k: nat, c: Seg, prev: Seg, rest: seq<Seg>, r: U32, n: nat, stream: seq<U8>)
    requires Queue(q, r, n, stream) && 0 < k <= |q| && Good(prev, r, n, stream) && !prev.fin
             && prev.seqno == q[k - 1].seqno
    requires Rel(prev.seqno, r) < Rel(c.seqno, r) && Rel(prev.seqno, r) + |prev.data| <= Rel(c.seqno, r)
    requires Queue(rest, r, n, stream) && |rest| > 0 && rest[0].seqno == c.seqno
    ensures Queue(Spliced(q, k, prev, rest), r, n, stream)
    ensures Spliced(q, k, prev, rest)[0].seqno == q[0].seqno && (HasFin(Spliced(q, k, prev, rest)) <==> HasFin(rest))
  {
    Part(q, 0, k - 1, r, n, stream);
    Join([prev], rest, r, n, stream);
    if k > 1 { assert Before(q[k - 2], q[k - 1], r); }
    Join(q[..k - 1], [prev] + rest, r, n, stream);
  }

  lemma SplicedSources(q: seq<Seg>, k: nat, s: Seg, prev: Seg, rest: seq<Seg>)
    requires 0 < k <= |q| && From(prev, q[k - 1]) && Sources(rest, q + [s])
    ensures Sources(Spliced(q, k, prev, rest), q + [s])
  {
    SourcesSelf(q, [s]);
    SourcesPart(q, 0, k - 1, q + [s]);
    assert q[0..k - 1] == q[..k - 1];
    SourcesOne(prev, q + [s], k - 1);
    SourcesJoin([prev], rest, q + [s]);
    SourcesJoin(q[..k - 1], [prev] + rest, q + [s]);
  }

  /** Lines 1736-1752: between q[k - 1] and q[k]. */
  method InsertBetween(q: seq<Seg>, k: nat, inseg: Seg, ghost r: U32, ghost n: nat, ghost stream: seq<U8>)
    returns (out: seq<Seg>)
    requires Queue(q, r, n, stream) && 0 < k < |q| && Good(inseg, r, n, stream) && Rel(inseg.seqno, r) < 0x1_0000
    requires Rel(q[k - 1].seqno, r) < Rel(inseg.seqno, r) < Rel(q[k].seqno, r)
    ensures Queue(out, r, n, stream) && Queued(out, q, inseg, r) && Sources(out, q + [inseg])
    ensures |out| > 0 && out[0].seqno in {q[0].seqno, inseg.seqno}
  {
    assert Before(q[k - 1], q[k], r);
    var prev := TrimTo(q[k - 1], inseg.seqno, r, n, stream);
    var rest := InsertRest(q, k, inseg, r, n, stream);
    SplicedSources(q, k, inseg, prev, rest);
    SplicedQueue(q, k, inseg, prev, rest, r, n, stream);
    MergedSplice(q, k, inseg, prev, rest, r);
    out := Spliced(q, k, prev, rest);
  }

  lemma MergedSplice(q: seq<Seg>, k: nat, c: Seg, prev: Seg, rest: seq<Seg>, r: U32)
    requires Sorted(q, r) && 0 < k <= |q|
    requires Rel(q[k - 1].seqno, r) < Rel(c.seqno, r) && (k < |q| ==> Rel(c.seqno, r) <= Rel(q[k].seqno, r))
    requires forall p :: In(prev, r, p) <==> In(q[k - 1], r, p) && p < Rel(c.seqno, r)
    requires forall p :: Covered(rest, r, p) <==> In(c, r, p) || Covered(q[k..], r, p)
    ensures forall p :: Covered(Spliced(q, k, prev, rest), r, p) <==> Merged(q, c, r, p)
  {
    forall i | 0 <= i < k ensures Rel(q[i].seqno, r) < Rel(c.seqno, r) {
      if i < k - 1 { assert Before(q[i], q[k - 1], r); }
    }
    forall i | k <= i < |q| ensures Rel(c.seqno, r) <= Rel(q[i].seqno, r) {
      if i > k { assert Before(q[k], q[i], r); }
    }
    if k > 1 { assert Before(q[k - 2], q[k - 1], r); }
    forall p ensures Covered(Spliced(q, k, prev, rest), r, p) <==> Merged(q, c, r, p) {
      CoveredJoin(q[..k - 1], [prev] + rest, r, p);
      CoveredJoin([prev], rest, r, p);
      CoveredOne(prev, r, p);
      MergedParts(q, k, c, r, p);
    }
  }

  /** Lines 1786-1798: what is left of a segment that overruns the window; the FIN goes with the rest. */
  function WindowCut(s: Seg, r: U32, wnd: U16): Seg {
    if Rel(s.seqno, r) < wnd < Rel(s.seqno, r) + s.TcpLen()
    then Seg(s.seqno, s.data[..wnd - Rel(s.seqno, r)], false)
    else s
  }

  method CutToWindow(inseg: Seg, r: U32, wnd: U16, ghost n: nat, ghost stream: seq<U8>) returns (cseg: Seg)
    requires Good(inseg, r, n, stream) && Rel(inseg.seqno, r) < wnd
    ensures cseg == WindowCut(inseg, r, wnd) && Good(cseg, r, n, stream)
  {
    cseg := inseg;
    ghost var x := Rel(inseg.seqno, r);
    assert Rel(r, r) == 0;
    CompareAhead(r, r, wnd, inseg.seqno, inseg.TcpLen());
    if Gt(Plus(inseg.seqno, inseg.TcpLen()), Plus(r, wnd)) {
      PlusRel(r, inseg.seqno);
      PlusPlus(r, x, wnd - x);
      RelIs(inseg.seqno, Plus(r, wnd), wnd - x);
      Shorter(inseg, wnd - x, r, n, stream);
      cseg := Seg(inseg.seqno, inseg.data[..Rel(Plus(r, wnd), inseg.seqno)], false);
    }
  }

  /** Lines 1778-1803: behind the last segment, cut off at the right edge of the window. */
  method Append(q: seq<Seg>, inseg: Seg, r: U32, wnd: U16, ghost n: nat, ghost stream: seq<U8>) returns (out: seq<Seg>)
    requires Queue(q, r, n, stream) && |q| > 0 && !q[|q| - 1].fin && Good(inseg, r, n, stream)
    requires Rel(q[|q| - 1].seqno, r) < Rel(inseg.seqno, r) < wnd
    ensures Queue(out, r, n, stream) && Queued(out, q, WindowCut(inseg, r, wnd), r) && Sources(out, q + [inseg])
    ensures |out| > 0 && out[0].seqno in {q[0].seqno, inseg.seqno}
  {
    var next := TrimTo(q[|q| - 1], inseg.seqno, r, n, stream);
    var cseg := CutToWindow(inseg, r, wnd, n, stream);
    forall p ensures Covered([cseg], r, p) <==> In(cseg, r, p) || Covered(q[|q|..], r, p) {
      CoveredOne(cseg, r, p);
    }
    SplicedQueue(q, |q|, cseg, next, [cseg], r, n, stream);
    SourcesOne(cseg, q + [inseg], |q|);
    SplicedSources(q, |q|, inseg, next, [cseg]);
    MergedSplice(q, |q|, cseg, next, [cseg], r);
    out := Spliced(q, |q|, next, [cseg]);
  }

  /** Lines 1700-1712: a longer segment with the same start takes the place of q[k]. */
  method Replace(q: seq<Seg>, k: nat, inseg: Seg, ghost r: U32, ghost n: nat, ghost stream: seq<U8>)
    returns (out: seq<Seg>)
    requires Queue(q, r, n, stream) && k < |q| && Good(inseg, r, n, stream)
    requires inseg.seqno == q[k].seqno && |inseg.data| > |q[k].data|
    ensures Queue(out, r, n, stream) && Queued(out, q, inseg, r) && Sources(out, q + [inseg])
    ensures |out| > 0 && out[0].seqno in {q[0].seqno, inseg.seqno}
  {
    var rest := InsertRest(q, k, inseg, r, n, stream);
    if k == 0 {
      AfterStart(q, 0, inseg, r);
      assert q[0..] == q;
      MergedFront(q, inseg, r);
      return rest;
    }
    ReplaceLater(q, k, inseg, rest, r, n, stream);
    out := q[..k] + rest;
  }

  lemma ReplaceLater(q: seq<Seg>, k: nat, c: Seg, rest: seq<Seg>, r: U32, n: nat, stream: seq<U8>)
    requires Queue(q, r, n, stream) && 0 < k < |q| && c.seqno == q[k].seqno
    requires Queue(rest, r, n, stream) && |rest| > 0 && rest[0].seqno == c.seqno && Sources(rest, q + [c])
    requires forall p :: Covered(rest, r, p) <==> In(c, r, p) || Covered(q[k..], r, p)
    requires HasFin(rest) <==> HasFin(q) || c.fin
    ensures var out := q[..k] + rest;
            Queue(out, r, n, stream) && Queued(out, q, c, r) && Sources(out, q + [c]) && out[0].seqno == q[0].seqno
  {
    assert Before(q[k - 1], q[k], r);
    SplicedQueue(q, k, c, q[k - 1], rest, r, n, stream);
    MergedSplice(q, k, c, q[k - 1], rest, r);
    SplicedSources(q, k, c, q[k - 1], rest);
    assert q[..k] + rest == Spliced(q, k, q[k - 1], rest);
  }

  lemma MergedFront(q: seq<Seg>, c: Seg, r: U32)
    requires forall i :: 0 <= i < |q| ==> Supersedes(c, q[i], r)
    ensures forall p :: Merged(q, c, r, p) <==> In(c, r, p) || Covered(q, r, p)
  {
  }

  /** The cases in which an out-of-sequence segment is thrown away: no memory for a copy, a queued segment
      with the same start that is as long or is the last, or a FIN already queued in front of it. */
  ghost predicate Dropped(q: seq<Seg>, s: Seg, r: U32, copied: bool) {
    || !copied
    || (exists i :: 0 <= i < |q| && Outdone(q, s, i))
    || (HasFin(q) && Rel(q[|q| - 1].seqno, r) < Rel(s.seqno, r))
  }

  /** Segment i starts where s does, and is as long or the last. */
  ghost predicate Outdone(q: seq<Seg>, s: Seg, i: int)
    requires 0 <= i < |q|
  {
    q[i].seqno == s.seqno && (|s.data| <= |q[i].data| || i == |q| - 1)
  }

  /** Only a segment that goes to the end of a non-empty queue is cut at the window (line 1656 is not). */
  function Kept(q: seq<Seg>, s: Seg, r: U32, wnd: U16): Seg {
    if |q| > 0 && Rel(q[|q| - 1].seqno, r) < Rel(s.seqno, r) then WindowCut(s, r, wnd) else s
  }

  /** What queueing s may do to the queue q: out holds the merged positions and the FIN of either. */
  ghost predicate Queued(out: seq<Seg>, q: seq<Seg>, s: Seg, r: U32) {
    && (forall p :: Covered(out, r, p) <==> Merged(q, s, r, p))
    && (HasFin(out) <==> HasFin(q) || s.fin)
  }

  /** What becomes of the queue q when s comes in. */
  ghost predicate Taken(out: seq<Seg>, q: seq<Seg>, s: Seg, r: U32, wnd: U16, copied: bool) {
    if Dropped(q, s, r, copied) then out == q else Queued(out, q, Kept(q, s, r, wnd), r)
  }

  /** The last segment queued starts where s does, and ends earlier, inside the window. */
  ghost predicate CutShort(q: seq<Seg>, s: Seg, r: U32, wnd: U16) {
    |q| > 0 && var last := q[|q| - 1];
    last.seqno == s.seqno && |last.data| < |s.data| && Rel(s.seqno, r) + |last.data| < wnd
  }

  /** Segment i starts before s, and ends after s does, or after the window if s goes to the end and is cut there. */
  ghost predicate Splits(q: seq<Seg>, i: nat, s: Seg, r: U32, wnd: U16)
    requires i < |q|
  {
    var x, end := Rel(s.seqno, r), Rel(q[i].seqno, r) + |q[i].data|;
    && Rel(q[i].seqno, r) < x && !q[i].fin && x < end
    && (x + |s.data| < end || (i == |q| - 1 && x < wnd < end && wnd < x + s.TcpLen()))
  }

  ghost predicate Interrupts(q: seq<Seg>, s: Seg, r: U32, wnd: U16) {
    exists i :: 0 <= i < |q| && Splits(q, i, s, r, wnd)
  }

  /** No segment but i reaches into what i covers. */
  lemma Alone(q: seq<Seg>, r: U32, i: nat, j: nat, p: int)
    requires Sorted(q, r) && i < |q| && j < |q| && In(q[i], r, p) && In(q[j], r, p)
    ensures i == j
  {
  }

  /** The new segment is there afterwards, as far as the window goes, unless the last one queued starts where it does
      and is shorter. The comment at lines 1692-1695 takes such a segment for one that was cut at the window. */
  lemma KeepsNewIff(out: seq<Seg>, q: seq<Seg>, s: Seg, r: U32, wnd: U16, n: nat, stream: seq<U8>)
    requires Queue(q, r, n, stream) && Good(s, r, n, stream) && Taken(out, q, s, r, wnd, true)
    ensures (forall p :: In(s, r, p) && p < wnd ==> Covered(out, r, p)) <==> !CutShort(q, s, r, wnd)
  {
    if !Dropped(q, s, r, true) {
      assert !CutShort(q, s, r, wnd) by { if CutShort(q, s, r, wnd) { assert Outdone(q, s, |q| - 1); } }
      forall p | In(s, r, p) && p < wnd ensures Covered(out, r, p) { assert Merged(q, Kept(q, s, r, wnd), r, p); }
    } else if CutShort(q, s, r, wnd) {
      NotReached(q, s, r);
      assert In(s, r, Rel(s.seqno, r) + |q[|q| - 1].data|);
    } else {
      forall p | In(s, r, p) && p < wnd ensures Covered(q, r, p) { DroppedHeld(q, s, r, wnd, p, n, stream); }
    }
  }

  lemma NotReached(q: seq<Seg>, s: Seg, r: U32)
    requires Sorted(q, r) && |q| > 0 && q[|q| - 1].seqno == s.seqno
    ensures !Covered(q, r, Rel(s.seqno, r) + |q[|q| - 1].data|)
  {
    var last, p := |q| - 1, Rel(s.seqno, r) + |q[|q| - 1].data|;
    forall i | 0 <= i < |q| ensures !In(q[i], r, p) {
      if i < last { assert Before(q[i], q[last], r); }
    }
  }

  lemma DroppedHeld(q: seq<Seg>, s: Seg, r: U32, wnd: U16, p: int, n: nat, stream: seq<U8>)
    requires Queue(q, r, n, stream) && Good(s, r, n, stream) && Dropped(q, s, r, true) && !CutShort(q, s, r, wnd)
    requires In(s, r, p) && p < wnd
    ensures Covered(q, r, p)
  {
    if i :| 0 <= i < |q| && Outdone(q, s, i) {
      assert In(q[i], r, p);
    } else {
      assert Good(q[|q| - 1], r, n, stream);
      assert In(q[|q| - 1], r, p);
    }
  }

  /** Nothing that was queued is lost unless the new segment starts inside a queued one and ends before it. */
  lemma KeepsHeldIff(out: seq<Seg>, q: seq<Seg>, s: Seg, r: U32, wnd: U16, copied: bool, n: nat, stream: seq<U8>)
    requires Queue(q, r, n, stream) && Good(s, r, n, stream) && Rel(s.seqno, r) < wnd
    requires Taken(out, q, s, r, wnd, copied)
    ensures (forall p :: Covered(q, r, p) ==> Covered(out, r, p)) <==> !(copied && Interrupts(q, s, r, wnd))
  {
    if copied && Interrupts(q, s, r, wnd) {
      var i :| 0 <= i < |q| && Splits(q, i, s, r, wnd);
      SplitLoses(out, q, s, r, wnd, i);
    } else if !Dropped(q, s, r, copied) {
      forall p | Covered(q, r, p) ensures Covered(out, r, p) {
        var i :| 0 <= i < |q| && In(q[i], r, p);
        assert !Splits(q, i, s, r, wnd);
        WholeStays(q, s, r, wnd, i, p, n, stream);
        assert Merged(q, Kept(q, s, r, wnd), r, p);
      }
    }
  }

  lemma WholeStays(q: seq<Seg>, s: Seg, r: U32, wnd: U16, i: nat, p: int, n: nat, stream: seq<U8>)
    requires Queue(q, r, n, stream) && i < |q| && In(q[i], r, p) && !Splits(q, i, s, r, wnd) && Rel(s.seqno, r) < wnd
    requires Good(s, r, n, stream) && !Dropped(q, s, r, true)
    ensures Merged(q, Kept(q, s, r, wnd), r, p)
  {
    if Rel(q[i].seqno, r) < Rel(s.seqno, r) <= p {
      if i < |q| - 1 { assert Before(q[i], q[|q| - 1], r); }
      OnlyLastEnds(q, i, r);
      assert In(Kept(q, s, r, wnd), r, p);
    }
  }

  lemma SplitLoses(out: seq<Seg>, q: seq<Seg>, s: Seg, r: U32, wnd: U16, i: nat)
    requires Sorted(q, r) && Taken(out, q, s, r, wnd, true) && i < |q| && Splits(q, i, s, r, wnd)
    ensures exists p :: Covered(q, r, p) && !Covered(out, r, p)
  {
    SplitTaken(q, s, r, wnd, i);
    var c := Kept(q, s, r, wnd);
    var p := Rel(s.seqno, r) + |c.data|;
    assert In(q[i], r, p);
    forall j | 0 <= j < |q| && In(q[j], r, p) ensures j == i { Alone(q, r, i, j, p); }
    assert !Merged(q, c, r, p);
  }

  lemma SplitTaken(q: seq<Seg>, s: Seg, r: U32, wnd: U16, i: nat)
    requires Sorted(q, r) && i < |q| && Splits(q, i, s, r, wnd)
    ensures !Dropped(q, s, r, true)
    ensures Rel(s.seqno, r) + |Kept(q, s, r, wnd).data| < Rel(q[i].seqno, r) + |q[i].data|
  {
    var last := |q| - 1;
    if i < last { assert Before(q[i], q[last], r); }
    forall j | 0 <= j < |q| ensures q[j].seqno != s.seqno {
      if i < j { assert Before(q[i], q[j], r); }
      if j < i { assert Before(q[j], q[i], r); }
    }
  }

  /** A FIN inside the window is kept unless the last segment queued starts where it does and has none. */
  lemma KeepsFinIff(out: seq<Seg>, q: seq<Seg>, s: Seg, r: U32, wnd: U16, n: nat, stream: seq<U8>)
    requires Queue(q, r, n, stream) && Good(s, r, n, stream) && Taken(out, q, s, r, wnd, true)
    requires s.fin && Rel(s.seqno, r) + s.TcpLen() <= wnd
    ensures HasFin(out) <==> HasFin(q) || |q| == 0 || q[|q| - 1].seqno != s.seqno
  {
    if |q| > 0 {
      var last := |q| - 1;
      assert q[last].seqno == s.seqno <==> Outdone(q, s, last);
      assert Good(q[last], r, n, stream);
      forall i | 0 <= i < last && Outdone(q, s, i) ensures HasFin(q) { assert Before(q[i], q[last], r); }
    }
  }

  /** How the walk over the queue ends: at the segment with the same start, in front of the first segment
      that starts later, or behind the last one. */
  datatype Place = Same(k: nat) | Front | Amid(k: nat) | Behind

  ghost predicate Fits(q: seq<Seg>, s: Seg, at: Place, r: U32) {
    match at
    case Same(k) => k < |q| && q[k].seqno == s.seqno
    case Front => |q| > 0 && Rel(s.seqno, r) < Rel(q[0].seqno, r)
    case Amid(k) => 0 < k < |q| && Rel(q[k - 1].seqno, r) < Rel(s.seqno, r) < Rel(q[k].seqno, r)
    case Behind => |q| > 0 && Rel(q[|q| - 1].seqno, r) < Rel(s.seqno, r)
  }

  /** The walk itself, lines 1681-1777. */
  method FindPlace(q: seq<Seg>, s: Seg, ghost r: U32) returns (at: Place)
    requires |q| > 0 && Rel(s.seqno, r) < 0x10_0000
    requires forall i :: 0 <= i < |q| ==> Rel(q[i].seqno, r) < 0x10_0000
    ensures Fits(q, s, at, r)
  {
    var k := 0;
    while true
      invariant 0 <= k < |q| && (k > 0 ==> Rel(q[k - 1].seqno, r) < Rel(s.seqno, r))
      decreases |q| - k
    {
      if s.seqno == q[k].seqno {
        return Same(k);
      }
      ThreeWay(r, s.seqno, q[k].seqno);
      if k == 0 {
        if Lt(s.seqno, q[0].seqno) {
          return Front;
        }
      } else {
        CompareAhead(r, s.seqno, 0, q[k - 1].seqno, 1);
        CompareAhead(r, q[k].seqno, -1, s.seqno, 0);
        PlusZero(s.seqno);
        if Between(s.seqno, Plus(q[k - 1].seqno, 1), Plus(q[k].seqno, -1)) {
          return Amid(k);
        }
      }
      if k == |q| - 1 && Gt(s.seqno, q[k].seqno) {
        return Behind;
      }
      k := k + 1;
    }
  }

  /** The place tells the fate of the segment and everything about the order of starts. */
  lemma PlaceDecides(q: seq<Seg>, s: Seg, at: Place, r: U32, wnd: U16)
    requires Sorted(q, r) && Fits(q, s, at, r)
    ensures Dropped(q, s, r, true) <==> Refused(q, s, at)
    ensures Kept(q, s, r, wnd) == if at.Behind? then WindowCut(s, r, wnd) else s
  {
    forall i, j | 0 <= i < j < |q| ensures Rel(q[i].seqno, r) < Rel(q[j].seqno, r) { assert Before(q[i], q[j], r); }
    forall i | 0 <= i < |q| && q[i].seqno == s.seqno ensures at == Same(i) {
    }
    assert at.Same? ==> (Outdone(q, s, at.k) <==> Refused(q, s, at));
  }

  /** Lines 1655-1807: an out-of-sequence segment that starts inside the window. `copied` is false when
      tcp_seg_copy finds no memory. */
  method Enqueue(q: seq<Seg>, inseg: Seg, r: U32, wnd: U16, copied: bool, ghost n: nat, ghost stream: seq<U8>)
    returns (out: seq<Seg>)
    requires Queue(q, r, n, stream) && Ahead(q, r) && Good(inseg, r, n, stream) && 0 < Rel(inseg.seqno, r) < wnd
    ensures Queue(out, r, n, stream) && Ahead(out, r)
    ensures Taken(out, q, inseg, r, wnd, copied) && Sources(out, q + [inseg])
    ensures copied ==>
              ((forall p :: In(inseg, r, p) && p < wnd ==> Covered(out, r, p)) <==> !CutShort(q, inseg, r, wnd))
    ensures (forall p :: Covered(q, r, p) ==> Covered(out, r, p)) <==> !(copied && Interrupts(q, inseg, r, wnd))
  {
    out := PutInto(q, inseg, r, wnd, copied, n, stream);
    if copied { KeepsNewIff(out, q, inseg, r, wnd, n, stream); }
    KeepsHeldIff(out, q, inseg, r, wnd, copied, n, stream);
  }

  method PutInto(q: seq<Seg>, inseg: Seg, r: U32, wnd: U16, copied: bool, ghost n: nat, ghost stream: seq<U8>)
    returns (out: seq<Seg>)
    requires Queue(q, r, n, stream) && Ahead(q, r) && Good(inseg, r, n, stream) && 0 < Rel(inseg.seqno, r) < wnd
    ensures Queue(out, r, n, stream) && Ahead(out, r)
    ensures Taken(out, q, inseg, r, wnd, copied) && Sources(out, q + [inseg])
  {
    out := q;
    SourcesSelf(q, [inseg]);
    if |q| == 0 {
      if copied {
        out := [inseg];
        SourcesOne(inseg, q + [inseg], 0);
        forall p ensures Covered(out, r, p) <==> In(inseg, r, p) { CoveredOne(inseg, r, p); }
      }
      return;
    }
    var at := FindPlace(q, inseg, r);
    PlaceDecides(q, inseg, at, r, wnd);
    if copied {
      out := InsertAt(q, inseg, at, r, wnd, n, stream);
      AheadFrom(out, r);
    }
  }

  /** What is thrown away at its place: no longer than the segment there, or behind a FIN. */
  ghost predicate Refused(q: seq<Seg>, s: Seg, at: Place)
    requires |q| > 0 && (at.Same? ==> at.k < |q|)
  {
    || (at.Same? && (|s.data| <= |q[at.k].data| || at.k == |q| - 1))
    || (at.Behind? && q[|q| - 1].fin)
  }

  /** Lines 1722-1726: in front of everything. */
  method InsertFront(q: seq<Seg>, inseg: Seg, ghost r: U32, ghost n: nat, ghost stream: seq<U8>) returns (out: seq<Seg>)
    requires Queue(q, r, n, stream) && |q| > 0 && Good(inseg, r, n, stream) && Rel(inseg.seqno, r) < Rel(q[0].seqno, r)
    ensures Queue(out, r, n, stream) && Queued(out, q, inseg, r) && |out| > 0 && out[0].seqno == inseg.seqno
    ensures Sources(out, q + [inseg])
  {
    AfterStart(q, 0, inseg, r);
    MergedFront(q, inseg, r);
    out := OosInsert(inseg, q, r, n, stream);
  }

  method InsertAt(q: seq<Seg>, inseg: Seg, at: Place, r: U32, wnd: U16, ghost n: nat, ghost stream: seq<U8>)
    returns (out: seq<Seg>)
    requires Queue(q, r, n, stream) && |q| > 0 && Good(inseg, r, n, stream) && Rel(inseg.seqno, r) < wnd
    requires Fits(q, inseg, at, r)
    ensures Queue(out, r, n, stream) && |out| > 0 && out[0].seqno in {q[0].seqno, inseg.seqno}
    ensures Refused(q, inseg, at) ==> out == q
    ensures !Refused(q, inseg, at) ==> Queued(out, q, if at.Behind? then WindowCut(inseg, r, wnd) else inseg, r)
    ensures Sources(out, q + [inseg])
  {
    out := q;
    SourcesSelf(q, [inseg]);
    match at {
      case Same(k) =>
        if |inseg.data| > |q[k].data| && k != |q| - 1 {
          out := Replace(q, k, inseg, r, n, stream);
        }
      case Front =>
        out := InsertFront(q, inseg, r, n, stream);
      case Amid(k) =>
        out := InsertBetween(q, k, inseg, r, n, stream);
      case Behind =>
        if !q[|q| - 1].fin {
          out := Append(q, inseg, r, wnd, n, stream);
        }
    }
  }

  lemma ThreeWay(r: U32, a: U32, b: U32)
    requires Rel(a, r) < 0x10_0000 && Rel(b, r) < 0x10_0000 && a != b
    ensures Lt(a, b) <==> Rel(a, r) < Rel(b, r)
    ensures Gt(a, b) <==> Rel(a, r) > Rel(b, r)
    ensures Rel(a, r) != Rel(b, r)
  {
    PlusRel(r, a);
    PlusRel(r, b);
    CompareAhead(r, a, 0, b, 0);
    CompareAhead(r, b, 0, a, 0);
    PlusZero(a);
    PlusZero(b);
  }

  /** Everything behind q[k] starts after s when q[k] starts no earlier than s. */
  lemma AfterStart(q: seq<Seg>, k: nat, s: Seg, r: U32)
    requires Sorted(q, r) && k < |q| && Rel(s.seqno, r) <= Rel(q[k].seqno, r)
    ensures forall i :: k < i < |q| ==> Rel(s.seqno, r) < Rel(q[i].seqno, r)
  {
    forall i | k < i < |q| ensures Rel(s.seqno, r) < Rel(q[i].seqno, r) {
      assert Before(q[k], q[i], r);
    }
  }
}
