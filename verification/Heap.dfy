/** The lwIP heap: block headers inside one byte array, first fit, with coalescing. */
module HeapLayout {
  import opened Bits

  /** MEM_SIZE_ALIGNED, SIZEOF_STRUCT_MEM and MIN_SIZE_ALIGNED. */
  const END: int := 49152
  const HEADER: int := 8
  const MIN_SIZE: int := 12

  /** A block, known by where it starts: where the next one starts, and whether it is allocated. */
  datatype Block = Block(next: int, used: bool)

  type Blocks = map<int, Block>

  /** Behind the block at o there is another one, or the end. */
  ghost predicate Closed(m: Blocks, o: int)
    requires o in m
  {
    m[o].next == END || m[o].next in m
  }

  /** A block ends before any later one starts. */
  ghost predicate Ordered(m: Blocks, o: int, p: int)
    requires o in m && p in m
  {
    o < p ==> m[o].next <= p
  }

  /** The blocks tile the heap, and none is smaller than the minimum. */
  ghost predicate Tiling(m: Blocks) {
    && 0 in m
    && (forall o {:trigger o in m} :: o in m ==> 0 <= o < END && o % 4 == 0)
    && (forall o {:trigger m[o]} :: o in m ==> o + HEADER + MIN_SIZE <= m[o].next <= END)
    && (forall o {:trigger Closed(m, o)} :: o in m ==> Closed(m, o))
    && (forall o, p {:trigger Ordered(m, o, p)} :: o in m && p in m ==> Ordered(m, o, p))
  }

  ghost predicate Layout(m: Blocks) {
    Tiling(m) && NoTwoFree(m)
  }

  predicate Vacant(m: Blocks, o: int) {
    o in m && !m[o].used
  }

  ghost predicate NoTwoFree(m: Blocks) {
    forall o, p :: Vacant(m, o) && Vacant(m, p) ==> m[o].next != p
  }

  /** The user data that fits into the block at o. */
  function Room(m: Blocks, o: int): int
    requires o in m
  {
    m[o].next - o - HEADER
  }

  /** The allocated blocks: where each starts and ends. */
  ghost function Live(m: Blocks): map<int, int> {
    map o | o in m && m[o].used :: m[o].next
  }

  /** lfree is the lowest free block, or the end. */
  ghost predicate Lowest(m: Blocks, lfree: int) {
    && (lfree != END ==> lfree in m && !m[lfree].used)
    && forall o :: o in m && o < lfree ==> m[o].used
  }

  /** Every byte below END lies in exactly one block. */
  lemma Tiles(m: Blocks, x: int) returns (o: int)
    requires Tiling(m) && 0 <= x < END
    ensures o in m && o <= x < m[o].next && forall p :: p in m && p <= x < m[p].next ==> p == o
  {
    o := 0;
    while m[o].next <= x
      invariant o in m && o <= x
      decreases END - o
    {
      assert Closed(m, o);
      o := m[o].next;
    }
    forall p | p in m && p <= x < m[p].next ensures p == o { assert Ordered(m, o, p) && Ordered(m, p, o); }
  }

  /** No two blocks end at the same place. */
  lemma EndsDiffer(m: Blocks, o: int, p: int)
    requires Tiling(m) && o in m && p in m && o != p
    ensures m[o].next != m[p].next
  {
    assert Ordered(m, o, p) && Ordered(m, p, o);
  }

  /** Allocated blocks do not overlap. */
  lemma LiveDisjoint(m: Blocks, o: int, p: int)
    requires Layout(m) && o in Live(m) && p in Live(m) && o != p
    ensures Live(m)[o] <= p || Live(m)[p] <= o
  {
    assert Ordered(m, o, p) && Ordered(m, p, o);
  }

  /** Which blocks there are follows from which are allocated: the free ones are the gaps. */
  lemma LiveDecides(m: Blocks, w: Blocks)
    requires Layout(m) && Layout(w) && Live(m) == Live(w)
    ensures m == w
  {
    forall o | o in m ensures o in w && w[o] == m[o] { LiveDecidesAt(m, w, o); }
    forall o | o in w ensures o in m { LiveDecidesAt(w, m, o); }
  }

  lemma LiveDecidesAt(m: Blocks, w: Blocks, o: int)
    requires Layout(m) && Layout(w) && Live(m) == Live(w) && o in m
    ensures o in w && w[o] == m[o]
  {
    var k := 0;
    SameBlock(m, w, 0);
    while k != o
      invariant k in m && k in w && k <= o && m[k] == w[k]
      decreases END - k
    {
      assert Ordered(m, k, o) && Closed(m, k) && Closed(w, k);
      k := m[k].next;
      SameBlock(m, w, k);
    }
  }

  lemma SameBlock(m: Blocks, w: Blocks, o: int)
    requires Layout(m) && Layout(w) && Live(m) == Live(w) && o in m && o in w
    ensures m[o] == w[o]
  {
    assert o in Live(m) <==> o in Live(w);
    if m[o].used {
      assert Live(m)[o] == Live(w)[o];
    } else {
      NoLonger(m, w, o);
      NoLonger(w, m, o);
    }
  }

  lemma NoLonger(m: Blocks, w: Blocks, o: int)
    requires Layout(m) && Layout(w) && Live(m) == Live(w) && o in m && o in w && !m[o].used && !w[o].used
    ensures w[o].next <= m[o].next
  {
    var n := m[o].next;
    if n != END {
      assert Closed(m, o) && Vacant(m, o) && !Vacant(m, n);
      assert n in Live(m);
      assert n in Live(w);
      assert Ordered(w, o, n);
    }
  }
}

/** The headers in memory. */
module HeapMemory {
  import opened Bits
  import opened HeapLayout

  /** A little-endian u16. */
  function Half(s: seq<U8>, o: int): U16
    requires 0 <= o < |s| - 1
  {
    s[o] as int + 0x100 * s[o + 1] as int
  }

  ghost predicate Sized(s: seq<U8>) {
    |s| == END + 2 * HEADER
  }

  function Flag(used: bool): U8 {
    if used then 1 else 0
  }

  /** next and used of the block at o, and prev of the one behind it. */
  ghost predicate Header(s: seq<U8>, m: Blocks, o: int)
    requires Sized(s) && Tiling(m) && o in m
  {
    && Half(s, o) as int == m[o].next && s[o + 4] == Flag(m[o].used)
    && (m[o].next != END ==> Half(s, m[o].next + 2) as int == o)
  }

  /** Every block has next, prev and used in its header. Nothing ever sets the prev of the end sentinel. */
  ghost predicate Rep(s: seq<U8>, m: Blocks)
    requires Tiling(m)
  {
    && Sized(s)
    && (forall o {:trigger Header(s, m, o)} :: o in m ==> Header(s, m, o))
    && Half(s, 2) == 0 && Half(s, END) as int == END && s[END + 4] == 1
  }

  /** The user data of the blocks in live is the same in s and t. */
  ghost predicate Kept(s: seq<U8>, t: seq<U8>, live: map<int, int>)
    requires Sized(s) && Sized(t)
  {
    forall p, x :: p in live && p + HEADER <= x < live[p] && 0 <= x < END ==> t[x] == s[x]
  }

  /** s and t agree outside the headers at a, b and c. */
  ghost predicate SameBut(s: seq<U8>, t: seq<U8>, a: int, b: int, c: int) {
    && |s| == |t|
    && forall x :: 0 <= x < |s| && !(a <= x < a + HEADER) && !(b <= x < b + HEADER) && !(c <= x < c + HEADER) ==>
      t[x] == s[x]
  }

  /** User data of the block at p lies in no header. */
  lemma OutsideHeader(m: Blocks, p: int, x: int, a: int)
    requires Tiling(m) && p in m && p + HEADER <= x < m[p].next && (a in m || a == END)
    ensures !(a <= x < a + HEADER)
  {
    if a in m { assert Ordered(m, a, p) && Ordered(m, p, a); }
  }

  lemma HeadersOnly(s: seq<U8>, t: seq<U8>, a: int, b: int, c: int, m: Blocks)
    requires Tiling(m) && Sized(s) && Sized(t) && SameBut(s, t, a, b, c)
    requires (a in m || a == END) && (b in m || b == END) && (c in m || c == END)
    ensures Kept(s, t, Live(m))
  {
    forall p, x | p in Live(m) && p + HEADER <= x < Live(m)[p] && 0 <= x < END
      ensures t[x] == s[x]
    {
      OutsideHeader(m, p, x, a);
      OutsideHeader(m, p, x, b);
      OutsideHeader(m, p, x, c);
    }
  }

  /** A header for a new free block at ptr2, between the blocks at ptr and next. */
  ghost predicate Linked(s: seq<U8>, t: seq<U8>, ptr: int, ptr2: int, next: int)
    requires 0 <= ptr <= END && 0 <= ptr2 <= END && 0 <= next <= END
  {
    && Sized(s) && Sized(t) && SameBut(s, t, ptr, ptr2, next)
    && Half(t, ptr2) as int == next && Half(t, ptr2 + 2) as int == ptr && t[ptr2 + 4] == 0
    && Half(t, ptr) as int == ptr2 && Half(t, ptr + 2) == Half(s, ptr + 2) && t[ptr + 4] == s[ptr + 4]
    && Half(t, next) == Half(s, next) && t[next + 4] == s[next + 4]
    && (next != END ==> Half(t, next + 2) as int == ptr2)
  }

  /** The header at o has no byte in common with the one at a. */
  ghost predicate Apart(o: int, a: int) {
    o + HEADER <= a || a + HEADER <= o
  }

  ghost predicate SameHeader(s: seq<U8>, t: seq<U8>, o: int)
    requires Sized(s) && Sized(t) && 0 <= o <= END
  {
    Half(t, o) == Half(s, o) && Half(t, o + 2) == Half(s, o + 2) && t[o + 4] == s[o + 4]
  }

  lemma Away(s: seq<U8>, t: seq<U8>, a: int, b: int, c: int, o: int)
    requires Sized(s) && Sized(t) && SameBut(s, t, a, b, c) && 0 <= o <= END
    requires Apart(o, a) && Apart(o, b) && Apart(o, c)
    ensures SameHeader(s, t, o)
  {
  }

  /** Different blocks, and the end, are apart. */
  lemma BlocksApart(m: Blocks, o: int, p: int)
    requires Tiling(m) && (o in m || o == END) && (p in m || p == END) && o != p
    ensures Apart(o, p)
  {
    if o in m && p in m { assert Ordered(m, o, p) && Ordered(m, p, o); }
  }

  lemma LinkAway(s: seq<U8>, t: seq<U8>, w: Blocks, ptr: int, ptr2: int, next: int, p: int)
    requires Tiling(w) && ptr in w && ptr2 in w && w[ptr2].next == next && Linked(s, t, ptr, ptr2, next)
    requires (p in w || p == END) && p != ptr && p != ptr2 && p != next
    ensures SameHeader(s, t, p)
  {
    assert Closed(w, ptr2);
    BlocksApart(w, p, ptr);
    BlocksApart(w, p, ptr2);
    BlocksApart(w, p, next);
    Away(s, t, ptr, ptr2, next, p);
  }

  lemma LinkHeader(s: seq<U8>, t: seq<U8>, m: Blocks, w: Blocks, ptr: int, ptr2: int, next: int, p: int)
    requires Tiling(m) && Rep(s, m) && Tiling(w) && ptr in w && ptr2 in w && w[ptr].next == ptr2 && w[ptr2].next == next
    requires Linked(s, t, ptr, ptr2, next)
    requires p in w && p in m && w[p] == m[p] && p != ptr && p != ptr2
    ensures Header(t, w, p)
  {
    assert Header(s, m, p) && Closed(w, p);
    var n := w[p].next;
    EndsDiffer(w, p, ptr);
    EndsDiffer(w, p, ptr2);
    if p != next { LinkAway(s, t, w, ptr, ptr2, next, p); }
    if n != END && n != ptr { LinkAway(s, t, w, ptr, ptr2, next, n); }
  }

  /** w is m with the gap between ptr and next filled by a free block at ptr2. */
  lemma LinkRep(s: seq<U8>, t: seq<U8>, m: Blocks, w: Blocks, ptr: int, ptr2: int, next: int)
    requires Tiling(m) && Rep(s, m) && Tiling(w) && ptr in m && ptr in w && ptr2 in w
    requires w[ptr] == Block(ptr2, m[ptr].used) && w[ptr2] == Block(next, false)
    requires forall p :: p in w && p != ptr && p != ptr2 ==> p in m && w[p] == m[p]
    requires Linked(s, t, ptr, ptr2, next)
    ensures Rep(t, w)
  {
    if next != END { LinkAway(s, t, w, ptr, ptr2, next, END); }
    if ptr != 0 { LinkAway(s, t, w, ptr, ptr2, next, 0); }
    assert Header(s, m, ptr);
    forall p | p in w ensures Header(t, w, p) {
      if p != ptr && p != ptr2 { LinkHeader(s, t, m, w, ptr, ptr2, next, p); }
    }
  }

  /** The block at ptr now reaches up to next. */
  ghost predicate Joined(s: seq<U8>, t: seq<U8>, ptr: int, next: int)
    requires 0 <= ptr <= END && 0 <= next <= END
  {
    && Sized(s) && Sized(t) && SameBut(s, t, ptr, next, next)
    && Half(t, ptr) as int == next && Half(t, ptr + 2) == Half(s, ptr + 2) && t[ptr + 4] == s[ptr + 4]
    && Half(t, next) == Half(s, next) && t[next + 4] == s[next + 4]
    && (next != END ==> Half(t, next + 2) as int == ptr)
  }

  lemma JoinAway(s: seq<U8>, t: seq<U8>, w: Blocks, ptr: int, next: int, p: int)
    requires Tiling(w) && ptr in w && w[ptr].next == next && Joined(s, t, ptr, next)
    requires (p in w || p == END) && p != ptr && p != next
    ensures SameHeader(s, t, p)
  {
    assert Closed(w, ptr);
    BlocksApart(w, p, ptr);
    BlocksApart(w, p, next);
    Away(s, t, ptr, next, next, p);
  }

  lemma JoinHeader(s: seq<U8>, t: seq<U8>, m: Blocks, w: Blocks, ptr: int, next: int, p: int)
    requires Tiling(m) && Rep(s, m) && Tiling(w) && ptr in w && w[ptr].next == next && Joined(s, t, ptr, next)
    requires p in w && p in m && w[p] == m[p] && p != ptr
    ensures Header(t, w, p)
  {
    assert Header(s, m, p) && Closed(w, p);
    var n := w[p].next;
    EndsDiffer(w, p, ptr);
    if p != next { JoinAway(s, t, w, ptr, next, p); }
    if n != END && n != ptr { JoinAway(s, t, w, ptr, next, n); }
  }

  /** w is m without the blocks between ptr and next. */
  lemma JoinRep(s: seq<U8>, t: seq<U8>, m: Blocks, w: Blocks, ptr: int, next: int)
    requires Tiling(m) && Rep(s, m) && Tiling(w) && ptr in m && ptr in w
    requires w[ptr] == Block(next, m[ptr].used)
    requires forall p :: p in w && p != ptr ==> p in m && w[p] == m[p]
    requires Joined(s, t, ptr, next)
    ensures Rep(t, w)
  {
    if next != END { JoinAway(s, t, w, ptr, next, END); }
    if ptr != 0 { JoinAway(s, t, w, ptr, next, 0); }
    assert Header(s, m, ptr);
    forall p | p in w ensures Header(t, w, p) {
      if p != ptr { JoinHeader(s, t, m, w, ptr, next, p); }
    }
  }

  lemma MarkTiling(m: Blocks, o: int, used: bool)
    requires Tiling(m) && o in m
    ensures Tiling(m[o := m[o].(used := used)])
  {
    var w := m[o := m[o].(used := used)];
    forall p | p in w ensures Closed(w, p) { assert Closed(m, p); }
    forall p, q | p in w && q in w ensures Ordered(w, p, q) { assert Ordered(m, p, q); }
  }

  lemma MarkAway(s: seq<U8>, t: seq<U8>, m: Blocks, o: int, p: int)
    requires Tiling(m) && o in m && Sized(s) && Sized(t) && SameBut(s, t, o, o, o) && (p in m || p == END) && p != o
    ensures SameHeader(s, t, p)
  {
    BlocksApart(m, p, o);
    Away(s, t, o, o, o, p);
  }

  lemma MarkRep(s: seq<U8>, t: seq<U8>, m: Blocks, o: int, used: bool)
    requires Tiling(m) && Rep(s, m) && o in m && t == s[o + 4 := Flag(used)] && Tiling(m[o := m[o].(used := used)])
    ensures Rep(t, m[o := m[o].(used := used)])
  {
    var w := m[o := m[o].(used := used)];
    MarkAway(s, t, m, o, END);
    if o != 0 { MarkAway(s, t, m, o, 0); }
    forall p | p in w ensures Header(t, w, p) {
      assert Header(s, m, p) && Closed(m, p);
      var n := m[p].next;
      if p != o { MarkAway(s, t, m, o, p); }
      if n != END && n != o { MarkAway(s, t, m, o, n); }
    }
  }
}
