/** Coalescing: what merging neighbours does to a layout. */
module HeapMerge {
  import opened Bits
  import opened HeapLayout
  import opened HeapMemory

  /** The block at o takes over the one behind it. */
  function MergeAt(m: Blocks, o: int): Blocks
    requires o in m && m[o].next in m
  {
    (m - {m[o].next})[o := m[o].(next := m[m[o].next].next)]
  }

  lemma MergeOrder(m: Blocks, o: int, p: int, q: int)
    requires Tiling(m) && o in m && m[o].next in m && p in MergeAt(m, o) && q in MergeAt(m, o)
    ensures Ordered(MergeAt(m, o), p, q)
  {
    assert Ordered(m, p, q) && Ordered(m, o, q) && Ordered(m, m[o].next, q);
  }

  lemma MergeClosed(m: Blocks, o: int, p: int)
    requires Tiling(m) && o in m && m[o].next in m && p in MergeAt(m, o)
    ensures Closed(MergeAt(m, o), p)
  {
    var n := m[o].next;
    assert Closed(m, p) && Closed(m, n);
    if p != o { EndsDiffer(m, p, o); }
  }

  lemma MergeTiling(m: Blocks, o: int)
    requires Tiling(m) && o in m && m[o].next in m
    ensures Tiling(MergeAt(m, o))
  {
    var w := MergeAt(m, o);
    forall p | p in w ensures Closed(w, p) { MergeClosed(m, o, p); }
    forall p, q | p in w && q in w ensures Ordered(w, p, q) { MergeOrder(m, o, p, q); }
  }

  lemma MergeLive(m: Blocks, o: int)
    requires o in m && m[o].next in m && o != m[o].next && !m[m[o].next].used
    ensures Live(MergeAt(m, o)) == if m[o].used then Live(m)[o := m[m[o].next].next] else Live(m)
  {
  }

  /** Free neighbours occur only next to the block at o. */
  ghost predicate RunsAt(m: Blocks, o: int) {
    forall p, q :: Vacant(m, p) && Vacant(m, q) && m[p].next == q ==> p == o || q == o
  }

  /** Free neighbours occur only in front of the block at o. */
  ghost predicate RunsInto(m: Blocks, o: int) {
    forall p, q :: Vacant(m, p) && Vacant(m, q) && m[p].next == q ==> q == o
  }

  lemma FreedRuns(m: Blocks, o: int)
    requires Layout(m) && o in m
    ensures RunsAt(m[o := m[o].(used := false)], o)
  {
    var w := m[o := m[o].(used := false)];
    forall p, q | Vacant(w, p) && Vacant(w, q) && w[p].next == q && p != o && q != o ensures false {
      assert Vacant(m, p) && Vacant(m, q);
    }
  }

  lemma MergedForward(m: Blocks, o: int)
    requires Tiling(m) && RunsAt(m, o) && Vacant(m, o) && Vacant(m, m[o].next)
    ensures RunsInto(MergeAt(m, o), o)
  {
    var w, n := MergeAt(m, o), m[o].next;
    forall p, q | Vacant(w, p) && Vacant(w, q) && w[p].next == q ensures q == o {
      assert Vacant(m, q) && Vacant(m, p);
      if p == o { assert m[n].next == q; }
    }
  }

  lemma MergedBackward(m: Blocks, p: int, o: int)
    requires Tiling(m) && RunsInto(m, o) && Vacant(m, p) && Vacant(m, o) && m[p].next == o
    ensures NoTwoFree(MergeAt(m, p))
  {
    var w := MergeAt(m, p);
    forall a, b | Vacant(w, a) && Vacant(w, b) ensures w[a].next != b {
      assert Vacant(m, a) && Vacant(m, b);
    }
  }

  /** The block in front of o. */
  lemma Predecessor(s: seq<U8>, m: Blocks, o: int) returns (p: int)
    requires Tiling(m) && Rep(s, m) && o in m && o != 0
    ensures p in m && p < o && m[p].next == o && Half(s, o + 2) as int == p
  {
    p := Tiles(m, o - 1);
    assert Ordered(m, p, o);
    assert Header(s, m, p);
  }
}
