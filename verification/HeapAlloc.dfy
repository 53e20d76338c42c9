/** mem_malloc, mem_free and mem_trim of source/lwip/core/mem.c on headers in memory; line numbers are that file's. */
module Heap {
  import opened Bits
  import opened HeapLayout
  import opened HeapMemory
  import opened HeapMerge

  /** A pointer that the heap hands out or is given, as its distance from ram. */
  datatype Ptr = Null | Ptr(offset: int)

  /** LWIP_MEM_ALIGN_SIZE, cast to mem_size_t, and at least MIN_SIZE_ALIGNED. */
  function Rounded(n: U16): int {
    var size := ((n as int + 3) / 4 * 4) % 0x1_0000;
    if size < MIN_SIZE then MIN_SIZE else size
  }

  /** The sizes that are not refused outright. */
  predicate Legal(n: U16) {
    Rounded(n) <= END && Rounded(n) >= n as int
  }

  lemma LegalIs(n: U16)
    ensures Legal(n) <==> n as int <= 49152
    ensures Legal(n) ==> Rounded(n) % 4 == 0 && n as int <= Rounded(n) && 12 <= Rounded(n)
    ensures Legal(n) ==> Rounded(n) == 12 || Rounded(n) < n as int + 4
  {
  }

  /** The first block with room for size. */
  ghost predicate FirstFit(m: Blocks, o: int, size: int) {
    && Vacant(m, o) && Room(m, o) >= size
    && forall p :: Vacant(m, p) && p < o ==> Room(m, p) < size
  }

  ghost predicate NoFit(m: Blocks, size: int) {
    forall p :: Vacant(m, p) ==> Room(m, p) < size
  }

  /** Where a request for size that is given the block at o ends: a remainder that can be a block is split off. */
  function AllocatedEnd(m: Blocks, o: int, size: int): int
    requires o in m
  {
    if Room(m, o) >= size + HEADER + MIN_SIZE then o + HEADER + size else m[o].next
  }

  /** An allocation that needs to reach to `least` and ends at e wastes less than a block of the smallest size, and
      only where it goes up to the next allocation or the end of the heap. */
  ghost predicate Snug(live: map<int, int>, e: int, least: int) {
    least <= e < least + HEADER + MIN_SIZE && (e == least || e == END || e in live)
  }

  lemma AllocatedSnug(m: Blocks, o: int, size: int)
    requires Layout(m) && Vacant(m, o) && Room(m, o) >= size
    ensures Snug(Live(m), AllocatedEnd(m, o, size), o + HEADER + size) && o !in Live(m)
  {
    assert Closed(m, o) && !Vacant(m, m[o].next);
  }

  /** w is m with the block at o allocated, for size. */
  ghost predicate Allocated(m: Blocks, w: Blocks, o: int, size: int) {
    && o in m && Live(w) == Live(m)[o := AllocatedEnd(m, o, size)]
    && (forall p :: Vacant(w, p) && p < o ==> Vacant(m, p))
    && (forall p :: Vacant(m, p) && p != o ==> Vacant(w, p))
  }

  function SplitAt(m: Blocks, o: int, at: int): Blocks
    requires o in m
  {
    m[o := m[o].(next := at)][at := Block(m[o].next, false)]
  }

  lemma SplitOrder(m: Blocks, o: int, at: int, p: int, q: int)
    requires Tiling(m) && o in m && o < at < m[o].next && p in SplitAt(m, o, at) && q in SplitAt(m, o, at)
    ensures Ordered(SplitAt(m, o, at), p, q)
  {
    assert p in m && q in m ==> Ordered(m, p, q);
    assert p == at && q in m ==> Ordered(m, o, q);
    assert q == at && p in m ==> Ordered(m, p, o) && Ordered(m, o, p);
  }

  lemma SplitClosed(m: Blocks, o: int, at: int, p: int)
    requires Tiling(m) && o in m && p in SplitAt(m, o, at)
    ensures Closed(SplitAt(m, o, at), p)
  {
    assert Closed(m, o) && (p in m ==> Closed(m, p));
  }

  lemma SplitTiling(m: Blocks, o: int, at: int)
    requires Tiling(m) && o in m && at % 4 == 0
    requires o + HEADER + MIN_SIZE <= at && at + HEADER + MIN_SIZE <= m[o].next
    ensures Tiling(SplitAt(m, o, at)) && at !in m
  {
    var w := SplitAt(m, o, at);
    assert at in m ==> Ordered(m, o, at);
    forall p | p in w ensures Closed(w, p) { SplitClosed(m, o, at, p); }
    forall p, q | p in w && q in w ensures Ordered(w, p, q) { SplitOrder(m, o, at, p, q); }
  }

  lemma SplitLive(m: Blocks, o: int, at: int)
    requires o in m && at !in m
    ensures Live(SplitAt(m, o, at)) == if m[o].used then Live(m)[o := at] else Live(m)
  {
  }

  lemma AllocateWhole(m: Blocks, o: int, size: int)
    requires Layout(m) && Vacant(m, o) && AllocatedEnd(m, o, size) == m[o].next
    ensures Layout(m[o := m[o].(used := true)]) && Allocated(m, m[o := m[o].(used := true)], o, size)
  {
    var w := m[o := m[o].(used := true)];
    MarkTiling(m, o, true);
    forall p, q | Vacant(w, p) && Vacant(w, q) ensures w[p].next != q { assert Vacant(m, p) && Vacant(m, q); }
    assert Live(w) == Live(m)[o := m[o].next];
  }

  /** w is m with the free block at `at` for some of m's free blocks; nothing of m ends there. */
  lemma NoTwoFreeAt(m: Blocks, w: Blocks, at: int)
    requires NoTwoFree(m) && at in w && w[at].next != at
    requires forall p :: Vacant(w, p) && p != at ==> Vacant(m, p) && w[p].next == m[p].next
    requires forall q :: Vacant(m, q) ==> m[q].next != at && w[at].next != q
    ensures NoTwoFree(w)
  {
    forall p, q | Vacant(w, p) && Vacant(w, q) ensures w[p].next != q {
      assert p != at && q != at ==> Vacant(m, p) && Vacant(m, q);
    }
  }

  lemma NoneBetween(m: Blocks, o: int)
    requires Tiling(m) && o in m
    ensures forall p :: p in m && p < m[o].next ==> p <= o
  {
    forall p | p in m && p < m[o].next ensures p <= o { assert Ordered(m, o, p); }
  }

  lemma NotAnEnd(m: Blocks, o: int, at: int, q: int)
    requires Tiling(m) && o in m && o < at < m[o].next && q in m
    ensures m[q].next != at
  {
    assert Ordered(m, o, q) && Ordered(m, q, o);
  }

  /** The block at o once it is allocated up to `at`. */
  function TakenTo(m: Blocks, o: int, at: int): Blocks
    requires o in m
  {
    var v := SplitAt(m, o, at);
    v[o := v[o].(used := true)]
  }

  lemma TakenLive(m: Blocks, o: int, at: int)
    requires o in m && at !in m
    ensures Live(TakenTo(m, o, at)) == Live(m)[o := at]
    ensures forall p :: Vacant(TakenTo(m, o, at), p) && p != at ==>
              Vacant(m, p) && TakenTo(m, o, at)[p].next == m[p].next
    ensures forall p :: Vacant(m, p) && p != o ==> Vacant(TakenTo(m, o, at), p)
  {
  }

  lemma TakenNoTwoFree(m: Blocks, o: int, at: int)
    requires Layout(m) && Vacant(m, o) && o < at < m[o].next && at !in m
    ensures NoTwoFree(TakenTo(m, o, at))
  {
    TakenLive(m, o, at);
    forall q | Vacant(m, q) ensures m[q].next != at && m[o].next != q { NotAnEnd(m, o, at, q); }
    NoTwoFreeAt(m, TakenTo(m, o, at), at);
  }

  lemma AllocatePart(m: Blocks, o: int, size: int)
    requires Layout(m) && Vacant(m, o) && Room(m, o) >= size + HEADER + MIN_SIZE && size >= MIN_SIZE && size % 4 == 0
    ensures var w := TakenTo(m, o, o + HEADER + size); Layout(w) && Allocated(m, w, o, size)
  {
    var at := o + HEADER + size;
    SplitTiling(m, o, at);
    MarkTiling(SplitAt(m, o, at), o, true);
    TakenLive(m, o, at);
    TakenNoTwoFree(m, o, at);
  }

  lemma NewLowest(m: Blocks, w: Blocks, o: int, size: int, lfree: int)
    requires Layout(m) && Layout(w) && Lowest(m, lfree) && Vacant(m, o) && Allocated(m, w, o, size)
    ensures o in w && w[o].used && (lfree == o || Lowest(w, lfree))
    ensures forall p :: p in w && p < lfree ==> w[p].used
  {
    assert o in Live(w);
    assert Vacant(m, lfree) && (lfree != o ==> Vacant(w, lfree));
    forall p | p in w && p < lfree ensures w[p].used {
      assert Vacant(w, p) ==> Vacant(m, p);
    }
  }

  lemma LowestMerged(m: Blocks, o: int, lfree: int)
    requires Tiling(m) && Vacant(m, o) && Vacant(m, m[o].next) && Lowest(m, lfree)
    ensures Lowest(MergeAt(m, o), lfree)
  {
    assert lfree <= o;
  }

  lemma NoRun(m: Blocks, p: int, o: int)
    requires Tiling(m) && RunsInto(m, o) && o in m && (o == 0 || (p in m && m[p].used && m[p].next == o))
    ensures NoTwoFree(m)
  {
    forall a, b | Vacant(m, a) && Vacant(m, b) ensures m[a].next != b {
      if b == o && o != 0 && a != p { EndsDiffer(m, a, p); }
    }
  }

  /** mem_link_valid */
  predicate LinkValid(s: seq<U8>, o: int)
    requires Sized(s) && 0 <= o <= END
  {
    var next, prev := Half(s, o) as int, Half(s, o + 2) as int;
    next <= END && prev <= END && (prev == o || Half(s, prev) as int == o)
      && (next == END || Half(s, next + 2) as int == o)
  }

  /** What mem_free checks before it touches the heap. */
  ghost predicate Accepted(s: seq<U8>, r: Ptr)
    requires Sized(s)
  {
    && r.Ptr? && r.offset % 4 == 0 && HEADER <= r.offset <= END - MIN_SIZE
    && s[r.offset - HEADER + 4] != 0 && LinkValid(s, r.offset - HEADER)
  }

  /** At the start of a block the checks find out exactly whether it is allocated: no allocation is refused,
      and freeing a block twice is noticed as long as no other block has grown over its header. */
  lemma AcceptedIs(s: seq<U8>, m: Blocks, o: int)
    requires Tiling(m) && Rep(s, m) && o in m
    ensures Accepted(s, Ptr(o + HEADER)) <==> m[o].used
  {
    assert Header(s, m, o);
    if o != 0 {
      var p := Predecessor(s, m, o);
      assert Header(s, m, p);
    }
  }

  /** What the checks of mem_free refuse: NULL, a pointer that is not aligned or too close to either end, a header
      that is not marked used, links out of range, and links that the neighbours do not return. */
  lemma RefusedPointers(s: seq<U8>, r: Ptr)
    requires |s| == END + 2 * HEADER
    ensures r == Null || r.offset % 4 != 0 || r.offset < 8 || r.offset > 49152 - 12 ==> !Accepted(s, r)
    ensures r.Ptr? && 8 <= r.offset <= 49152 - 12 ==>
              var o := r.offset - 8;
              var next, prev := s[o] as int + 0x100 * s[o + 1] as int, s[o + 2] as int + 0x100 * s[o + 3] as int;
              && (s[o + 4] == 0 || next > 49152 || prev > 49152 ==> !Accepted(s, r))
              && (next <= 49152 && next != 49152 && s[next + 2] as int + 0x100 * s[next + 3] as int != o ==>
                    !Accepted(s, r))
              && (prev <= 49152 && prev != o && s[prev] as int + 0x100 * s[prev + 1] as int != o ==> !Accepted(s, r))
  {
  }

  /** A trim succeeds when the size is legal and no larger than what the block holds. */
  ghost predicate Trims(m: Blocks, rmem: int, newSize: U16) {
    Legal(newSize) && 0 <= rmem < END && rmem - HEADER in m && Rounded(newSize) <= Room(m, rmem - HEADER)
  }

  /** Where the trimmed block ends: the rest is given back when it can join a free block or be one itself. */
  ghost function TrimmedEnd(m: Blocks, o: int, size: int): int
    requires o in m
  {
    if Vacant(m, m[o].next) || size + HEADER + MIN_SIZE <= Room(m, o) then o + HEADER + size else m[o].next
  }

  /** The block at o is the last one and gives back enough for a block of its own. */
  ghost predicate CutsLast(m: Blocks, o: int, size: int) {
    o in m && m[o].next == END && size + HEADER + MIN_SIZE <= Room(m, o)
  }

  lemma Released(m: Blocks, o: int, at: int, lfree: int)
    requires Layout(m) && Lowest(m, lfree) && o in Live(m) && !Vacant(m, m[o].next) && at % 4 == 0
    requires o + HEADER + MIN_SIZE <= at && at + HEADER + MIN_SIZE <= m[o].next
    ensures var w := SplitAt(m, o, at);
            Layout(w) && Live(w) == Live(m)[o := at] && Lowest(w, if at < lfree then at else lfree)
  {
    SplitTiling(m, o, at);
    SplitLive(m, o, at);
    forall q | Vacant(m, q) ensures m[q].next != at { NotAnEnd(m, o, at, q); }
    NoTwoFreeAt(m, SplitAt(m, o, at), at);
  }

  /** The free block behind o moved down to `at`. */
  function MovedTo(m: Blocks, o: int, at: int): Blocks
    requires o in m && m[o].next in m
  {
    SplitAt(MergeAt(m, o), o, at)
  }

  lemma MovedLive(m: Blocks, o: int, at: int)
    requires o in m && m[o].next in m && at !in m && o != m[o].next && m[o].used && !m[m[o].next].used
    ensures Live(MovedTo(m, o, at)) == Live(m)[o := at] && MovedTo(m, o, at)[at].next == m[m[o].next].next
    ensures forall p :: Vacant(MovedTo(m, o, at), p) && p != at ==>
                        Vacant(m, p) && p != m[o].next && MovedTo(m, o, at)[p].next == m[p].next
    ensures forall p :: Vacant(m, p) && p != m[o].next ==> Vacant(MovedTo(m, o, at), p)
    ensures forall p :: p in MovedTo(m, o, at) && p != at ==> p in m && MovedTo(m, o, at)[p].used == m[p].used
  {
  }

  lemma MovedTiling(m: Blocks, o: int, at: int)
    requires Tiling(m) && o in m && m[o].next in m && at % 4 == 0 && o + HEADER + MIN_SIZE <= at < m[o].next
    ensures Tiling(MovedTo(m, o, at)) && at !in m
  {
    assert at in m ==> Ordered(m, o, at);
    MergeTiling(m, o);
    SplitTiling(MergeAt(m, o), o, at);
  }

  lemma MovedNoTwoFree(m: Blocks, o: int, at: int)
    requires Layout(m) && o in m && m[o].used && Vacant(m, m[o].next) && o < at < m[o].next && at !in m
    ensures NoTwoFree(MovedTo(m, o, at))
  {
    var n := m[o].next;
    MovedLive(m, o, at);
    forall q | Vacant(m, q) ensures m[q].next != at && m[n].next != q { NotAnEnd(m, o, at, q); }
    NoTwoFreeAt(m, MovedTo(m, o, at), at);
  }

  lemma Shifted(m: Blocks, o: int, at: int, lfree: int)
    requires Layout(m) && Lowest(m, lfree) && o in Live(m) && Vacant(m, m[o].next) && at % 4 == 0
    requires o + HEADER + MIN_SIZE <= at < m[o].next
    ensures var w := MovedTo(m, o, at);
            Layout(w) && Live(w) == Live(m)[o := at] && Lowest(w, if lfree == m[o].next then at else lfree)
  {
    MovedTiling(m, o, at);
    MovedNoTwoFree(m, o, at);
    MovedLive(m, o, at);
    NoneBetween(m, o);
    MovedLowest(m, MovedTo(m, o, at), m[o].next, at, lfree);
  }

  lemma MovedLowest(m: Blocks, w: Blocks, n: int, at: int, lfree: int)
    requires Lowest(m, lfree) && Vacant(m, n) && at < n < END && Vacant(w, at)
             && (forall p :: p in m && p < n ==> p < at)
    requires forall p :: Vacant(m, p) && p != n ==> Vacant(w, p)
    requires forall p :: p in w && p != at ==> p in m && w[p].used == m[p].used
    ensures Lowest(w, if lfree == n then at else lfree)
  {
    assert lfree != END ==> Vacant(m, lfree);
    assert lfree != END && lfree != n ==> Vacant(w, lfree);
  }

  lemma LiveSame(m: Blocks, o: int)
    requires o in Live(m)
    ensures Live(m)[o := m[o].next] == Live(m)
  {
  }

  /** What the header of a block says about the one behind it; the end counts as used. */
  lemma NextHeader(s: seq<U8>, m: Blocks, o: int)
    requires Tiling(m) && Rep(s, m) && o in m
    ensures Half(s, o) as int == m[o].next && (s[m[o].next + 4] == 0 <==> Vacant(m, m[o].next))
  {
    assert Header(s, m, o) && Closed(m, o);
    if m[o].next != END { assert Header(s, m, m[o].next); }
  }

  lemma StoreRep(s: seq<U8>, t: seq<U8>, m: Blocks, o: int, x: int)
    requires Tiling(m) && Rep(s, m) && o in m && o + HEADER <= x < m[o].next && |t| == |s|
    requires forall y :: 0 <= y < |s| && y != x ==> t[y] == s[y]
    ensures Rep(t, m)
  {
    forall p | p in m || p == END ensures SameHeader(s, t, p) {
      OutsideHeader(m, o, x, p);
    }
    assert SameHeader(s, t, 0) && SameHeader(s, t, END);
    forall p | p in m ensures Header(t, m, p) {
      assert Header(s, m, p) && Closed(m, p) && SameHeader(s, t, p) && SameHeader(s, t, m[p].next);
    }
  }

  /** Freeing what was just allocated restores the heap, remainder and neighbours included. */
  lemma FreeUndoesMalloc(m: Blocks, w: Blocks, v: Blocks, o: int, size: int)
    requires Layout(m) && Layout(w) && Layout(v) && Vacant(m, o)
    requires Live(w) == Live(m)[o := AllocatedEnd(m, o, size)] && Live(v) == Live(w) - {o}
    ensures v == m
  {
    assert o !in Live(m);
    assert Live(v) == Live(m);
    LiveDecides(v, m);
  }

  class Heap {
    const ram: array<U8>
    var lfree: int
    ghost var blocks: Blocks

    ghost predicate Valid()
      reads this, ram
    {
      ram.Length == END + 2 * HEADER && Layout(blocks) && Rep(ram[..], blocks) && Lowest(blocks, lfree)
    }

    function Get(o: int): (v: U16)
      requires 0 <= o < ram.Length - 1
      reads ram
      ensures v == Half(ram[..], o)
    {
      ram[o] as int + 0x100 * ram[o + 1] as int
    }

    method Put(o: int, v: int)
      requires 0 <= o < ram.Length - 1 && 0 <= v < 0x1_0000
      modifies ram
      ensures ram[..] == old(ram[..])[o := v % 0x100][o + 1 := v / 0x100] && Half(ram[..], o) as int == v
    {
      ram[o] := v % 0x100;
      ram[o + 1] := v / 0x100;
    }

    /** mem_init */
    constructor ()
      ensures Valid() && fresh(ram) && blocks == map[0 := Block(END, false)]
    {
      ram := new U8[END + 2 * HEADER];
      lfree := 0;
      blocks := map[0 := Block(END, false)];
      new;
      Put(0, END);
      Put(2, 0);
      ram[4] := 0;
      ram[END + 4] := 1;
      Put(END, END);
      Put(END + 2, END);
      assert Closed(blocks, 0) && Header(ram[..], blocks, 0);
    }

    method NewHeader(ptr2: int, next: int, prev: int)
      requires ram.Length == END + 2 * HEADER && 0 <= ptr2 <= END && 0 <= next <= END && 0 <= prev <= END
      modifies ram
      ensures SameBut(old(ram[..]), ram[..], ptr2, ptr2, ptr2)
      ensures Half(ram[..], ptr2) as int == next && Half(ram[..], ptr2 + 2) as int == prev && ram[ptr2 + 4] == 0
    {
      ram[ptr2 + 4] := 0;
      Put(ptr2, next);
      Put(ptr2 + 2, prev);
    }

    /** The next of one block and, unless it is the end, the prev of another. */
    method Relink(ptr: int, after: int, next: int, before: int)
      requires ram.Length == END + 2 * HEADER && 0 <= ptr && ptr + HEADER <= next <= END
      requires 0 <= after <= END && 0 <= before <= END
      modifies ram
      ensures SameBut(old(ram[..]), ram[..], ptr, next, next)
      ensures Half(ram[..], ptr) as int == after && Half(ram[..], ptr + 2) == Half(old(ram[..]), ptr + 2)
      ensures ram[ptr + 4] == old(ram[ptr + 4]) && ram[next + 4] == old(ram[next + 4])
      ensures Half(ram[..], next) == Half(old(ram[..]), next)
              && (next != END ==> Half(ram[..], next + 2) as int == before)
    {
      Put(ptr, after);
      if next != END {
        Put(next + 2, before);
      }
    }

    method Link(ptr: int, ptr2: int, next: int)
      requires ram.Length == END + 2 * HEADER && 0 <= ptr && ptr + HEADER <= ptr2 && ptr2 + HEADER <= next <= END
      modifies ram
      ensures Linked(old(ram[..]), ram[..], ptr, ptr2, next)
    {
      ghost var s := ram[..];
      NewHeader(ptr2, next, ptr);
      ghost var t := ram[..];
      Away(s, t, ptr2, ptr2, ptr2, ptr);
      Away(s, t, ptr2, ptr2, ptr2, next);
      Relink(ptr, ptr2, next, ptr2);
      Away(t, ram[..], ptr, next, next, ptr2);
    }

    /** Lines 857-874: walk up from the lowest free block. */
    method FindFit(size: int) returns (ptr: int)
      requires Valid() && MIN_SIZE <= size <= END
      ensures ptr < END - size ==> FirstFit(blocks, ptr, size)
      ensures ptr >= END - size ==> NoFit(blocks, size)
    {
      ptr := lfree;
      while ptr < END - size
        invariant ptr in blocks || ptr == END
        invariant forall p :: Vacant(blocks, p) && p < ptr ==> Room(blocks, p) < size
        decreases END - ptr
      {
        assert Header(ram[..], blocks, ptr);
        if ram[ptr + 4] == 0 && Get(ptr) as int - (ptr + HEADER) >= size {
          return;
        }
        assert Closed(blocks, ptr);
        NoneBetween(blocks, ptr);
        ptr := Get(ptr);
      }
    }

    /** A new free block at ptr2, inside the one at ptr. */
    method Carve(ptr: int, ptr2: int)
      requires ram.Length == END + 2 * HEADER && Tiling(blocks) && Rep(ram[..], blocks) && ptr in blocks
               && ptr2 % 4 == 0
      requires ptr + HEADER + MIN_SIZE <= ptr2 && ptr2 + HEADER + MIN_SIZE <= blocks[ptr].next
      modifies ram, this`blocks
      ensures Tiling(blocks) && Rep(ram[..], blocks) && blocks == SplitAt(old(blocks), ptr, ptr2)
      ensures Kept(old(ram[..]), ram[..], Live(blocks))
    {
      assert Header(ram[..], blocks, ptr) && Closed(blocks, ptr);
      var next := Get(ptr);
      ghost var w := SplitAt(blocks, ptr, ptr2);
      SplitTiling(blocks, ptr, ptr2);
      assert Closed(w, ptr2);
      Link(ptr, ptr2, next);
      LinkRep(old(ram[..]), ram[..], blocks, w, ptr, ptr2, next);
      HeadersOnly(old(ram[..]), ram[..], ptr, ptr2, next, w);
      blocks := w;
    }

    method MarkUsed(ptr: int)
      requires ram.Length == END + 2 * HEADER && Tiling(blocks) && Rep(ram[..], blocks) && ptr in blocks
      modifies ram, this`blocks
      ensures Tiling(blocks) && Rep(ram[..], blocks) && blocks == old(blocks)[ptr := old(blocks)[ptr].(used := true)]
      ensures Kept(old(ram[..]), ram[..], Live(old(blocks)))
    {
      MarkTiling(blocks, ptr, true);
      ram[ptr + 4] := 1;
      assert ram[..] == old(ram[..])[ptr + 4 := Flag(true)];
      MarkRep(old(ram[..]), ram[..], blocks, ptr, true);
      HeadersOnly(old(ram[..]), ram[..], ptr, ptr, ptr, blocks);
      blocks := blocks[ptr := blocks[ptr].(used := true)];
    }

    /** Lines 877-914: allocate in the free block at ptr. */
    method Take(ptr: int, size: int)
      requires Valid() && Vacant(blocks, ptr) && Room(blocks, ptr) >= size >= MIN_SIZE && size % 4 == 0
      modifies ram, this`blocks
      ensures Layout(blocks) && Rep(ram[..], blocks) && Allocated(old(blocks), blocks, ptr, size)
      ensures Kept(old(ram[..]), ram[..], Live(old(blocks)))
    {
      assert Header(ram[..], blocks, ptr);
      if Get(ptr) as int - (ptr + HEADER) >= size + HEADER + MIN_SIZE {
        AllocatePart(blocks, ptr, size);
        SplitTiling(blocks, ptr, ptr + HEADER + size);
        SplitLive(blocks, ptr, ptr + HEADER + size);
        Carve(ptr, ptr + HEADER + size);
      } else {
        AllocateWhole(blocks, ptr, size);
      }
      MarkUsed(ptr);
    }

    /** Lines 918-936: when the lowest free block has been taken, look for the next one. */
    method RaiseLowest(ptr: int)
      requires ram.Length == END + 2 * HEADER && Layout(blocks) && Rep(ram[..], blocks) && ptr in blocks
               && blocks[ptr].used
      requires forall o :: o in blocks && o < lfree ==> blocks[o].used
      requires lfree == ptr || Lowest(blocks, lfree)
      modifies this`lfree
      ensures Valid()
    {
      if ptr == lfree {
        var cur := lfree;
        while ram[cur + 4] != 0 && cur != END
          invariant (cur in blocks || cur == END) && forall o :: o in blocks && o < cur ==> blocks[o].used
          decreases END - cur
        {
          assert Header(ram[..], blocks, cur) && Closed(blocks, cur);
          NoneBetween(blocks, cur);
          cur := Get(cur);
        }
        if cur != END { assert Header(ram[..], blocks, cur); }
        lfree := cur;
      }
    }

    /** mem_malloc, lines 817-963. */
    method Malloc(sizeIn: U16) returns (r: Ptr)
      requires Valid()
      modifies this, ram
      ensures Valid()
      ensures r == Null <==> || sizeIn == 0 || !Legal(sizeIn)
                             || forall p :: Vacant(old(blocks), p) ==> old(blocks)[p].next - (p + 8) < Rounded(sizeIn)
      ensures r == Null ==> ram[..] == old(ram[..]) && lfree == old(lfree) && blocks == old(blocks)
      ensures r.Ptr? ==> var o, size := r.offset - HEADER, Rounded(sizeIn);
                && FirstFit(old(blocks), o, size)
                && (forall p :: Vacant(old(blocks), p) && p < o ==> old(blocks)[p].next - (p + 8) < size)
                && Live(blocks) == Live(old(blocks))[o := AllocatedEnd(old(blocks), o, size)]
      ensures r.Ptr? ==> var o, was, now := r.offset - HEADER, Live(old(blocks)), Live(blocks);
                && o !in was && o in now && now == was[o := now[o]]
                && Snug(was, now[o], r.offset + Rounded(sizeIn))
      ensures Kept(old(ram[..]), ram[..], Live(old(blocks)))
    {
      r := Null;
      var size := Rounded(sizeIn);
      if sizeIn == 0 || size > END || size < sizeIn as int {
        return;
      }
      LegalIs(sizeIn);
      var ptr := FindFit(size);
      if ptr < END - size {
        AllocatedSnug(blocks, ptr, size);
        Take(ptr, size);
        NewLowest(old(blocks), blocks, ptr, size, lfree);
        RaiseLowest(ptr);
        r := Ptr(ptr + HEADER);
      }
    }

    method Join(ptr: int, next: int)
      requires ram.Length == END + 2 * HEADER && 0 <= ptr && ptr + HEADER <= next <= END
      modifies ram
      ensures Joined(old(ram[..]), ram[..], ptr, next)
    {
      Relink(ptr, next, next, ptr);
    }

    /** The free block at o takes over the free one behind it. */
    method Merge(o: int)
      requires ram.Length == END + 2 * HEADER && Tiling(blocks) && Rep(ram[..], blocks) && Vacant(blocks, o)
      requires Vacant(blocks, blocks[o].next)
      modifies ram, this`blocks
      ensures Tiling(blocks) && Rep(ram[..], blocks) && blocks == MergeAt(old(blocks), o)
      ensures Live(blocks) == Live(old(blocks)) && Kept(old(ram[..]), ram[..], Live(blocks))
    {
      ghost var w, n := MergeAt(blocks, o), blocks[o].next;
      assert Header(ram[..], blocks, o) && Header(ram[..], blocks, n);
      MergeTiling(blocks, o);
      MergeLive(blocks, o);
      assert Closed(w, o);
      var next := Get(Get(o));
      Join(o, next);
      JoinRep(old(ram[..]), ram[..], blocks, w, o, next);
      HeadersOnly(old(ram[..]), ram[..], o, next, next, w);
      blocks := w;
    }

    /** plug_holes, first half: the block behind. */
    method PlugForward(mem: int)
      requires ram.Length == END + 2 * HEADER && Tiling(blocks) && Rep(ram[..], blocks)
      requires Vacant(blocks, mem) && RunsAt(blocks, mem) && Lowest(blocks, lfree)
      modifies this, ram
      ensures Tiling(blocks) && Rep(ram[..], blocks) && Vacant(blocks, mem) && RunsInto(blocks, mem)
              && Lowest(blocks, lfree)
      ensures Live(blocks) == Live(old(blocks)) && Kept(old(ram[..]), ram[..], Live(blocks))
    {
      assert Header(ram[..], blocks, mem) && Closed(blocks, mem);
      var nmem := Get(mem);
      if nmem as int != END { assert Header(ram[..], blocks, nmem); }
      if mem != nmem as int && ram[nmem + 4] == 0 && nmem as int != END {
        assert Vacant(blocks, nmem);
        lfree := if lfree == nmem as int then mem else lfree;
        MergedForward(blocks, mem);
        LowestMerged(blocks, mem, lfree);
        Merge(mem);
      }
    }

    /** plug_holes, second half: the block in front. */
    method PlugBackward(mem: int)
      requires ram.Length == END + 2 * HEADER && Tiling(blocks) && Rep(ram[..], blocks)
      requires Vacant(blocks, mem) && RunsInto(blocks, mem) && Lowest(blocks, lfree)
      modifies this, ram
      ensures Valid() && Live(blocks) == Live(old(blocks)) && Kept(old(ram[..]), ram[..], Live(blocks))
    {
      ghost var p := 0;
      if mem != 0 {
        p := Predecessor(ram[..], blocks, mem);
        assert Header(ram[..], blocks, p);
      }
      var pmem := Get(mem + 2);
      if pmem as int != mem && ram[pmem + 4] == 0 {
        assert Vacant(blocks, pmem);
        lfree := if lfree == mem then pmem else lfree;
        MergedBackward(blocks, pmem, mem);
        LowestMerged(blocks, pmem, lfree);
        Merge(pmem);
      } else {
        NoRun(blocks, p, mem);
      }
    }

    /** mem_free, lines 603-674. A pointer that passes every check must be one that Malloc gave out. */
    method Free(rmem: Ptr)
      requires Valid() && (Accepted(ram[..], rmem) ==> rmem.offset - HEADER in Live(blocks))
      modifies this, ram
      ensures Valid() && Kept(old(ram[..]), ram[..], Live(blocks))
      ensures !old(Accepted(ram[..], rmem)) ==> ram[..] == old(ram[..]) && lfree == old(lfree) && blocks == old(blocks)
      ensures old(Accepted(ram[..], rmem)) ==> Live(blocks) == Live(old(blocks)) - {rmem.offset - HEADER}
    {
      if rmem == Null || rmem.offset % 4 != 0 {
        return;
      }
      var mem := rmem.offset - HEADER;
      if mem < 0 || rmem.offset + MIN_SIZE > END {
        return;
      }
      if ram[mem + 4] == 0 || !LinkValid(ram[..], mem) {
        return;
      }
      MarkFree(mem);
      PlugForward(mem);
      PlugBackward(mem);
    }

    method MarkFree(mem: int)
      requires Valid() && mem in Live(blocks)
      modifies this, ram
      ensures Tiling(blocks) && Rep(ram[..], blocks) && Vacant(blocks, mem) && RunsAt(blocks, mem)
              && Lowest(blocks, lfree)
      ensures Live(blocks) == Live(old(blocks)) - {mem} && Kept(old(ram[..]), ram[..], Live(blocks))
    {
      ghost var w := blocks[mem := blocks[mem].(used := false)];
      MarkTiling(blocks, mem, false);
      FreedRuns(blocks, mem);
      ram[mem + 4] := 0;
      assert ram[..] == old(ram[..])[mem + 4 := Flag(false)];
      MarkRep(old(ram[..]), ram[..], blocks, mem, false);
      HeadersOnly(old(ram[..]), ram[..], mem, mem, mem, w);
      if mem < lfree {
        lfree := mem;
      }
      blocks := w;
      assert Live(w) == Live(old(blocks)) - {mem};
    }

    /** mem_trim, lines 685-807. `inner` is what the assertions "invalid next ptr" at lines 744 and 777 see, true when
        neither is reached; they compile to nothing. */
    method Trim(rmem: int, newSize: U16) returns (r: Ptr, inner: bool)
      requires Valid() && (Legal(newSize) && 0 <= rmem < END ==> rmem - HEADER in Live(blocks))
      modifies this, ram
      ensures Valid() && Kept(old(ram[..]), ram[..], Live(blocks))
      ensures r == if Legal(newSize) && (Trims(old(blocks), rmem, newSize) || !(0 <= rmem < END))
                   then Ptr(rmem) else Null
      ensures !Trims(old(blocks), rmem, newSize) ==>
                blocks == old(blocks) && ram[..] == old(ram[..]) && lfree == old(lfree)
      ensures Trims(old(blocks), rmem, newSize) ==> var o := rmem - HEADER;
                Live(blocks) == Live(old(blocks))[o := TrimmedEnd(old(blocks), o, Rounded(newSize))]
      ensures Legal(newSize) && 0 <= rmem < END ==>
                (r == Ptr(rmem) <==> rmem + Rounded(newSize) <= Live(old(blocks))[rmem - HEADER])
      ensures Trims(old(blocks), rmem, newSize) ==>
                var o, least, was, now := rmem - HEADER, rmem + Rounded(newSize), Live(old(blocks)), Live(blocks);
                && o in was && o in now && now == was[o := now[o]] && now[o] in {least, was[o]}
                && least <= now[o] < least + HEADER + MIN_SIZE
                && (was[o] != END && was[o] !in was ==> now[o] == least)
      ensures !inner <==> Trims(old(blocks), rmem, newSize) && CutsLast(old(blocks), rmem - HEADER, Rounded(newSize))
    {
      inner := true;
      var newsize := Rounded(newSize);
      if newsize > END || newsize < newSize as int {
        return Null, inner;
      }
      if rmem < 0 || rmem >= END {
        return Ptr(rmem), inner;
      }
      LegalIs(newSize);
      var ptr := rmem - HEADER;
      assert Header(ram[..], blocks, ptr);
      var size := Get(ptr) as int - ptr - HEADER;
      if newsize > size {
        return Null, inner;
      }
      assert Closed(blocks, ptr);
      inner := TrimBlock(ptr, newsize, size);
      r := Ptr(rmem);
    }

    method TrimBlock(ptr: int, newsize: int, size: int) returns (inner: bool)
      requires Valid() && ptr in Live(blocks) && size == Room(blocks, ptr)
      requires MIN_SIZE <= newsize <= size && newsize % 4 == 0
      modifies this, ram
      ensures Valid() && Kept(old(ram[..]), ram[..], Live(blocks))
      ensures Live(blocks) == Live(old(blocks))[ptr := TrimmedEnd(old(blocks), ptr, newsize)]
      ensures !inner <==> CutsLast(old(blocks), ptr, newsize)
    {
      inner := true;
      if newsize == size {
        LiveSame(blocks, ptr);
        return;
      }
      NextHeader(ram[..], blocks, ptr);
      var mem2 := Get(ptr);
      if ram[mem2 + 4] == 0 {
        inner := mem2 as int != END;
        Shift(ptr, ptr + HEADER + newsize);
      } else if newsize + HEADER + MIN_SIZE <= size {
        inner := mem2 as int != END;
        Release(ptr, ptr + HEADER + newsize);
      } else {
        LiveSame(blocks, ptr);
      }
    }

    /** The owner of an allocation writes to it. */
    method Store(o: int, x: int, v: U8)
      requires Valid() && o in Live(blocks) && o + HEADER <= x < Live(blocks)[o]
      modifies ram
      ensures Valid() && ram[..] == old(ram[..])[x := v]
    {
      ram[x] := v;
      StoreRep(old(ram[..]), ram[..], blocks, o, x);
    }

    /** Lines 741-767: the free block behind ptr moves down to ptr2. */
    method Shift(ptr: int, ptr2: int)
      requires Valid() && ptr in Live(blocks) && Vacant(blocks, blocks[ptr].next) && ptr2 % 4 == 0
      requires ptr + HEADER + MIN_SIZE <= ptr2 < blocks[ptr].next
      modifies this, ram
      ensures Valid() && Live(blocks) == Live(old(blocks))[ptr := ptr2] && Kept(old(ram[..]), ram[..], Live(blocks))
    {
      ghost var n := blocks[ptr].next;
      assert Header(ram[..], blocks, ptr) && Header(ram[..], blocks, n);
      var mem2 := Get(ptr);
      var next := Get(mem2);
      ghost var w := MovedTo(blocks, ptr, ptr2);
      Shifted(blocks, ptr, ptr2, lfree);
      assert Closed(w, ptr2);
      if lfree == mem2 as int {
        lfree := ptr2;
      }
      Link(ptr, ptr2, next);
      LinkRep(old(ram[..]), ram[..], blocks, w, ptr, ptr2, next);
      HeadersOnly(old(ram[..]), ram[..], ptr, ptr2, next, w);
      blocks := w;
    }

    /** Lines 768-790: a new free block at ptr2. */
    method Release(ptr: int, ptr2: int)
      requires Valid() && ptr in Live(blocks) && !Vacant(blocks, blocks[ptr].next) && ptr2 % 4 == 0
      requires ptr + HEADER + MIN_SIZE <= ptr2 && ptr2 + HEADER + MIN_SIZE <= blocks[ptr].next
      modifies this, ram
      ensures Valid() && Live(blocks) == Live(old(blocks))[ptr := ptr2] && Kept(old(ram[..]), ram[..], Live(blocks))
    {
      Released(blocks, ptr, ptr2, lfree);
      if ptr2 < lfree {
        lfree := ptr2;
      }
      Carve(ptr, ptr2);
    }
  }

  /** The assertion at line 777 does not hold of every heap: the first and only allocation takes everything and is
      then trimmed. The trim itself goes well. */
  method TrimOfLastBlock() returns (h: Heap, inner: bool)
    ensures fresh(h) && h.Valid() && !inner && Live(h.blocks) == map[0 := HEADER + MIN_SIZE]
  {
    h := new Heap();
    var p := h.Malloc(49144);
    assert Vacant(h.blocks, 0) || Live(h.blocks)[0] == END;
    var r;
    r, inner := h.Trim(HEADER, 12);
  }
}
