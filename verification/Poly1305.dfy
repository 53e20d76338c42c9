/** Poly1305 in five 26-bit limbs (poly1305-donna), proved against section 2.5 of RFC 8439. */
module Poly1305Spec {
  import opened Bits
  import opened Modular
  import opened LittleEndian

  const P: int := 0x3_FFFF_FFFF_FFFF_FFFF_FFFF_FFFF_FFFF_FFFB
  const CLAMP: nat := 0x0FFF_FFFC_0FFF_FFFC_0FFF_FFFC_0FFF_FFFF
  const TWO128: int := 0x1_0000_0000_0000_0000_0000_0000_0000_0000

  /** The product in the field. */
  function Times(x: int, n: nat): nat {
    MulMod(x, n, P)
  }

  lemma TimesIsProduct(x: int, n: nat)
    ensures Times(x, n) == (x * n) % P
  {
    MulModIsProduct(x, n, P);
  }

  function Mix(acc: nat, v: nat, r: nat): nat {
    Times(acc + v, r)
  }

  /** One block: append the byte 1, add as a number, multiply by r, reduce. */
  function Absorb(acc: nat, r: nat, block: seq<U8>): nat {
    Mix(acc, LeValue(block + [1]), r)
  }

  /** The accumulator after a whole message, block by block; only the last block may be short. */
  function Accumulate(acc: nat, r: nat, msg: seq<U8>): nat
    decreases |msg|
  {
    if |msg| == 0 then acc
    else if |msg| < 16 then Absorb(acc, r, msg)
    else Accumulate(Absorb(acc, r, msg[..16]), r, msg[16..])
  }

  /** The accumulator plus the second half of the key, modulo 2^128. */
  function Emit(acc: nat, pad: nat): seq<U8> {
    LeBytes((acc + pad) % TWO128, 16)
  }

  function Tag(key: seq<U8>, msg: seq<U8>): (t: seq<U8>)
    requires |key| == 32
  {
    Emit(Accumulate(0, And(LeValue(key[..16]), CLAMP), msg), LeValue(key[16..]))
  }

  /** A message may be cut at any block boundary. */
  lemma {:induction false} AccumulateConcat(acc: nat, r: nat, a: seq<U8>, b: seq<U8>)
    requires |a| % 16 == 0
    ensures Accumulate(acc, r, a + b) == Accumulate(Accumulate(acc, r, a), r, b)
    decreases |a|
  {
    if |a| == 0 {
      assert a + b == b;
    } else {
      assert (a + b)[..16] == a[..16] && (a + b)[16..] == a[16..] + b;
      AccumulateConcat(Absorb(acc, r, a[..16]), r, a[16..], b);
    }
  }
}

module Poly1305Limbs {
  import opened Bits
  import opened Modular
  import opened LittleEndian
  import opened Poly1305Spec

  const RADIX: int := 0x400_0000

  datatype Limbs = Limbs(l0: U64, l1: U64, l2: U64, l3: U64, l4: U64)

  function Value5(a: int, b: int, c: int, d: int, e: int): int {
    a + 0x400_0000 * b + 0x10_0000_0000_0000 * c + 0x4000_0000_0000_0000_0000 * d
      + 0x100_0000_0000_0000_0000_0000_0000 * e
  }

  /** Base-2^26 digits, least significant first. */
  function Eval(ls: seq<int>): int {
    if |ls| == 0 then 0 else ls[0] + 0x400_0000 * Eval(ls[1..])
  }

  function Value(x: Limbs): int {
    Eval([x.l0, x.l1, x.l2, x.l3, x.l4])
  }

  lemma ValueIs(x: Limbs)
    ensures Value(x) == Value5(x.l0, x.l1, x.l2, x.l3, x.l4)
  {
    var ls := [x.l0, x.l1, x.l2, x.l3, x.l4];
    var t1, t2 := ls[1..], ls[2..];
    var t3, t4 := ls[3..], ls[4..];
    assert t1[1..] == t2 && t2[1..] == t3 && t3[1..] == t4;
    assert Eval(t4) == t4[0] + 0x400_0000 * Eval(t4[1..]) == t4[0];
    assert Eval(t3) == t3[0] + 0x400_0000 * Eval(t4);
    assert Eval(t2) == t2[0] + 0x400_0000 * Eval(t3);
    assert Eval(t1) == t1[0] + 0x400_0000 * Eval(t2);
  }

  /** `x & 0x3ffffff` */
  function Low26(x: nat): nat {
    x % 0x400_0000
  }

  lemma Low26IsMask(x: nat)
    ensures Low26(x) == And(x, 0x3ff_ffff)
  {
    Pow2At(26);
    AndLow(x, 26);
  }

  /** What every block leaves behind: all limbs reduced but the second. */
  predicate Carried(h: Limbs) {
    h.l0 < RADIX && h.l1 < RADIX + 0x400 && h.l2 < RADIX && h.l3 < RADIX && h.l4 < RADIX
  }

  predicate Reduced(x: Limbs) {
    x.l0 < RADIX && x.l1 < RADIX && x.l2 < RADIX && x.l3 < RADIX && x.l4 < RADIX
  }

  lemma MulBound(a: int, amax: int, b: int, bmax: int)
    requires 0 <= a <= amax && 0 <= b <= bmax
    ensures 0 <= a * b <= amax * bmax
  {
    assert a * b <= amax * b;
    assert amax * b <= amax * bmax;
  }

  const HMAX: int := 0x800_0400
  const SMAX: int := 0x1400_0000

  lemma DotBound(h: Limbs, c0: int, c1: int, c2: int, c3: int, c4: int)
    requires h.l0 <= HMAX && h.l1 <= HMAX && h.l2 <= HMAX && h.l3 <= HMAX && h.l4 <= HMAX
    requires 0 <= c0 <= SMAX && 0 <= c1 <= SMAX && 0 <= c2 <= SMAX && 0 <= c3 <= SMAX && 0 <= c4 <= SMAX
    ensures 0 <= h.l0 * c0 + h.l1 * c1 + h.l2 * c2 + h.l3 * c3 + h.l4 * c4 <= 5 * HMAX * SMAX
  {
    MulBound(h.l0, HMAX, c0, SMAX);
    MulBound(h.l1, HMAX, c1, SMAX);
    MulBound(h.l2, HMAX, c2, SMAX);
    MulBound(h.l3, HMAX, c3, SMAX);
    MulBound(h.l4, HMAX, c4, SMAX);
  }

  lemma Distribute5(a: int, b0: int, b1: int, b2: int, b3: int, b4: int)
    ensures a * Value5(b0, b1, b2, b3, b4) == Value5(a * b0, a * b1, a * b2, a * b3, a * b4)
  {
  }

  lemma TimesFive(a: int, b: int)
    ensures a * (5 * b) == 5 * (a * b)
  {
  }

  /** Five rows of products, the overhang of each folded back through 2^130 = 5 modulo P. */
  lemma FoldRows(p00: int, p01: int, p02: int, p03: int, p04: int,
                 p10: int, p11: int, p12: int, p13: int, p14: int,
                 p20: int, p21: int, p22: int, p23: int, p24: int,
                 p30: int, p31: int, p32: int, p33: int, p34: int,
                 p40: int, p41: int, p42: int, p43: int, p44: int)
    returns (k: int)
    ensures Value5(Value5(p00, p01, p02, p03, p04), Value5(p10, p11, p12, p13, p14),
                   Value5(p20, p21, p22, p23, p24), Value5(p30, p31, p32, p33, p34),
                   Value5(p40, p41, p42, p43, p44))
            == Value5(p00 + 5 * p14 + 5 * p23 + 5 * p32 + 5 * p41,
                      p01 + p10 + 5 * p24 + 5 * p33 + 5 * p42,
                      p02 + p11 + p20 + 5 * p34 + 5 * p43,
                      p03 + p12 + p21 + p30 + 5 * p44,
                      p04 + p13 + p22 + p31 + p40) + P * k
  {
    k := Value5(p14 + p23 + p32 + p41, p24 + p33 + p42, p34 + p43, p44, 0);
  }

  /** The rows d0..d4 of lines 108-112, for any operands. */
  function Row(h: Limbs, c0: int, c1: int, c2: int, c3: int, c4: int): int {
    h.l0 * c0 + h.l1 * c1 + h.l2 * c2 + h.l3 * c3 + h.l4 * c4
  }

  /** The 25 partial products, grouped by the limb of h. */
  lemma Expand(h: Limbs, r: Limbs)
    ensures Value(h) * Value(r)
            == Value5(Value5(h.l0 * r.l0, h.l0 * r.l1, h.l0 * r.l2, h.l0 * r.l3, h.l0 * r.l4),
                      Value5(h.l1 * r.l0, h.l1 * r.l1, h.l1 * r.l2, h.l1 * r.l3, h.l1 * r.l4),
                      Value5(h.l2 * r.l0, h.l2 * r.l1, h.l2 * r.l2, h.l2 * r.l3, h.l2 * r.l4),
                      Value5(h.l3 * r.l0, h.l3 * r.l1, h.l3 * r.l2, h.l3 * r.l3, h.l3 * r.l4),
                      Value5(h.l4 * r.l0, h.l4 * r.l1, h.l4 * r.l2, h.l4 * r.l3, h.l4 * r.l4))
  {
    ValueIs(h);
    ValueIs(r);
    Distribute5(Value(r), h.l0, h.l1, h.l2, h.l3, h.l4);
    Distribute5(h.l0, r.l0, r.l1, r.l2, r.l3, r.l4);
    Distribute5(h.l1, r.l0, r.l1, r.l2, r.l3, r.l4);
    Distribute5(h.l2, r.l0, r.l1, r.l2, r.l3, r.l4);
    Distribute5(h.l3, r.l0, r.l1, r.l2, r.l3, r.l4);
    Distribute5(h.l4, r.l0, r.l1, r.l2, r.l3, r.l4);
  }

  /** Schoolbook multiplication with 2^130 replaced by 5 is exact up to a multiple of P. */
  lemma ProductRows(h: Limbs, r: Limbs) returns (k: int)
    ensures Value(h) * Value(r)
            == Value5(Row(h, r.l0, 5 * r.l4, 5 * r.l3, 5 * r.l2, 5 * r.l1),
                      Row(h, r.l1, r.l0, 5 * r.l4, 5 * r.l3, 5 * r.l2),
                      Row(h, r.l2, r.l1, r.l0, 5 * r.l4, 5 * r.l3),
                      Row(h, r.l3, r.l2, r.l1, r.l0, 5 * r.l4),
                      Row(h, r.l4, r.l3, r.l2, r.l1, r.l0)) + P * k
  {
    Expand(h, r);
    k := FoldRows(h.l0 * r.l0, h.l0 * r.l1, h.l0 * r.l2, h.l0 * r.l3, h.l0 * r.l4,
                  h.l1 * r.l0, h.l1 * r.l1, h.l1 * r.l2, h.l1 * r.l3, h.l1 * r.l4,
                  h.l2 * r.l0, h.l2 * r.l1, h.l2 * r.l2, h.l2 * r.l3, h.l2 * r.l4,
                  h.l3 * r.l0, h.l3 * r.l1, h.l3 * r.l2, h.l3 * r.l3, h.l3 * r.l4,
                  h.l4 * r.l0, h.l4 * r.l1, h.l4 * r.l2, h.l4 * r.l3, h.l4 * r.l4);
    TimesFive(h.l1, r.l4); TimesFive(h.l2, r.l3); TimesFive(h.l3, r.l2); TimesFive(h.l4, r.l1);
    TimesFive(h.l2, r.l4); TimesFive(h.l3, r.l3); TimesFive(h.l4, r.l2);
    TimesFive(h.l3, r.l4); TimesFive(h.l4, r.l3);
    TimesFive(h.l4, r.l4);
  }

  lemma RowsCongruent(h: Limbs, r: Limbs, hv: nat, rv: nat, d0: int, d1: int, d2: int, d3: int, d4: int)
    requires hv == Value(h) && rv == Value(r)
    requires d0 == Row(h, r.l0, r.l4 * 5, r.l3 * 5, r.l2 * 5, r.l1 * 5)
    requires d1 == Row(h, r.l1, r.l0, r.l4 * 5, r.l3 * 5, r.l2 * 5)
    requires d2 == Row(h, r.l2, r.l1, r.l0, r.l4 * 5, r.l3 * 5)
    requires d3 == Row(h, r.l3, r.l2, r.l1, r.l0, r.l4 * 5)
    requires d4 == Row(h, r.l4, r.l3, r.l2, r.l1, r.l0)
    ensures Value5(d0, d1, d2, d3, d4) % P == Times(hv, rv)
  {
    var k := ProductRows(h, r);
    TimesIsProduct(hv, rv);
    Congruent(hv * rv, Value5(d0, d1, d2, d3, d4), k, P);
  }

  /** `h *= r` followed by the partial reduction, lines 107-121. */
  method MultiplyReduce(h: Limbs, r: Limbs, ghost hv: nat, ghost rv: nat) returns (out: Limbs)
    requires Reduced(r) && hv == Value(h) && rv == Value(r)
    requires h.l0 <= HMAX && h.l1 <= HMAX && h.l2 <= HMAX && h.l3 <= HMAX && h.l4 <= HMAX
    ensures Carried(out)
    ensures Value(out) % P == Times(hv, rv)
  {
    var d0, d1, d2, d3, d4 := MultiplyRows(h, r, hv, rv);
    out := CarryRows(d0, d1, d2, d3, d4);
  }

  method MultiplyRows(h: Limbs, r: Limbs, ghost hv: nat, ghost rv: nat)
    returns (d0: U64, d1: U64, d2: U64, d3: U64, d4: U64)
    requires Reduced(r) && hv == Value(h) && rv == Value(r)
    requires h.l0 <= HMAX && h.l1 <= HMAX && h.l2 <= HMAX && h.l3 <= HMAX && h.l4 <= HMAX
    ensures d0 <= 5 * HMAX * SMAX && d1 <= 5 * HMAX * SMAX && d2 <= 5 * HMAX * SMAX
    ensures d3 <= 5 * HMAX * SMAX && d4 <= 5 * HMAX * SMAX
    ensures Value5(d0, d1, d2, d3, d4) % P == Times(hv, rv)
  {
    d0 := RowSum(h, r.l0, r.l4 * 5, r.l3 * 5, r.l2 * 5, r.l1 * 5);
    d1 := RowSum(h, r.l1, r.l0, r.l4 * 5, r.l3 * 5, r.l2 * 5);
    d2 := RowSum(h, r.l2, r.l1, r.l0, r.l4 * 5, r.l3 * 5);
    d3 := RowSum(h, r.l3, r.l2, r.l1, r.l0, r.l4 * 5);
    d4 := RowSum(h, r.l4, r.l3, r.l2, r.l1, r.l0);
    RowsCongruent(h, r, hv, rv, d0, d1, d2, d3, d4);
  }

  /** One of lines 108-112: five 64-bit products and their sum. */
  method RowSum(h: Limbs, c0: U64, c1: U64, c2: U64, c3: U64, c4: U64) returns (d: U64)
    requires h.l0 <= HMAX && h.l1 <= HMAX && h.l2 <= HMAX && h.l3 <= HMAX && h.l4 <= HMAX
    requires c0 <= SMAX && c1 <= SMAX && c2 <= SMAX && c3 <= SMAX && c4 <= SMAX
    ensures d as int == Row(h, c0, c1, c2, c3, c4) && d <= 5 * HMAX * SMAX
  {
    DotBound(h, c0, c1, c2, c3, c4);
    d := h.l0 * c0 + h.l1 * c1 + h.l2 * c2 + h.l3 * c3 + h.l4 * c4;
  }

  /** Lines 115-121: one carry pass with wrap-around, then one more carry into h1. */
  method CarryRows(d0: U64, d1: U64, d2: U64, d3: U64, d4: U64) returns (out: Limbs)
    requires d0 <= 5 * HMAX * SMAX && d1 <= 5 * HMAX * SMAX && d2 <= 5 * HMAX * SMAX
    requires d3 <= 5 * HMAX * SMAX && d4 <= 5 * HMAX * SMAX
    ensures Carried(out)
    ensures Value(out) % P == Value5(d0, d1, d2, d3, d4) % P
  {
    var h0, c := Carry(d0, 0);
    var h1, h2, h3, h4;
    h1, c := Carry(d1, c);
    h2, c := Carry(d2, c);
    h3, c := Carry(d3, c);
    h4, c := Carry(d4, c);
    ghost var wrap := c;
    h0, c := Carry(h0, c * 5);
    out := Limbs(h0, h1 + c, h2, h3, h4);
    ValueIs(out);
    assert Value5(d0, d1, d2, d3, d4) == Value(out) + P * wrap;
    Congruent(Value5(d0, d1, d2, d3, d4), Value(out), wrap, P);
  }

  /** `d += c; c = d >> 26; h = d & 0x3ffffff` */
  method Carry(d: U64, c: U64) returns (low: U64, carry: U64)
    requires d + c < 0x1_0000_0000_0000_0000
    ensures low < RADIX && d + c == low + RADIX * carry
  {
    var t: U64 := d + c;
    carry := t / RADIX;
    low := Low26(t);
  }

  /** Lines 152-164. The carry that h4 throws back to h0 and h1 exists only when h1 overflowed, and
      then h1 has just been cut down to a few bits: so the last `h1 += c` leaves a reduced limb. */
  method FullyCarry(h: Limbs) returns (out: Limbs)
    requires Carried(h)
    ensures Reduced(out)
    ensures Value(out) % P == Value(h) % P
  {
    var h0 := h.l0;
    var h1, c := Carry(h.l1, 0);
    ghost var c1 := c;
    var h2, h3, h4;
    h2, c := Carry(h.l2, c);
    ghost var c2 := c;
    h3, c := Carry(h.l3, c);
    ghost var c3 := c;
    h4, c := Carry(h.l4, c);
    ghost var wrap := c;
    assert Carries(h, h1, h2, h3, h4, c1, c2, c3, wrap);
    h0, c := Carry(h0, c * 5);
    LastCarry(h, h0, h1, h2, h3, h4, wrap, c);
    out := Limbs(h0, h1 + c, h2, h3, h4);
    ValueIs(h);
    ValueIs(out);
    Congruent(Value(h), Value(out), wrap, P);
  }

  /** Nothing is lost, and what is carried back fits. */
  lemma LastCarry(h: Limbs, l0: int, l1: int, l2: int, l3: int, l4: int, wrap: int, c: int)
    requires Carried(h) && 0 <= l0 < RADIX && 0 <= l1 < RADIX && 0 <= l2 < RADIX && 0 <= l3 < RADIX && 0 <= l4 < RADIX
    requires 0 <= wrap && h.l0 + 5 * wrap == l0 + RADIX * c
    requires exists c1: nat, c2: nat, c3: nat :: Carries(h, l1, l2, l3, l4, c1, c2, c3, wrap)
    ensures 0 <= l1 + c < RADIX
    ensures Value5(h.l0, h.l1, h.l2, h.l3, h.l4) == Value5(l0, l1 + c, l2, l3, l4) + P * wrap
  {
    var c1: nat, c2: nat, c3: nat :| Carries(h, l1, l2, l3, l4, c1, c2, c3, wrap);
  }

  ghost predicate Carries(h: Limbs, l1: int, l2: int, l3: int, l4: int, c1: nat, c2: nat, c3: nat, c4: int) {
    && h.l1 == l1 + RADIX * c1 && h.l2 + c1 == l2 + RADIX * c2
    && h.l3 + c2 == l3 + RADIX * c3 && h.l4 + c3 == l4 + RADIX * c4
  }

  const MAX64: int := 0xFFFF_FFFF_FFFF_FFFF

  /** `(h & ~mask) | (g & mask)` */
  function Select(h: U64, g: U64, mask: U64): U64 {
    if mask == 0 then h else g
  }

  lemma SelectIsMasked(h: U64, g: U64, mask: U64)
    requires mask == 0 || mask == MAX64
    ensures Select(h, g, mask) == Or(And(h, MAX64 - mask), And(g, mask))
  {
    Pow2At(64);
    AndOnes(h, 64);
    AndOnes(g, 64);
  }

  /** The sign bit of a small difference, as a mask: all ones when there was no borrow. */
  lemma BorrowMask(t: int)
    requires -RADIX <= t <= 0
    ensures (t % (MAX64 + 1) / 0x8000_0000_0000_0000 - 1) % (MAX64 + 1) == if t < 0 then 0 else MAX64
  {
    assert t < 0 ==> t % (MAX64 + 1) == t + MAX64 + 1;
  }

  /** Lines 166-174: h - P, and a mask that is zero exactly when the difference is negative. */
  method SubtractP(h: Limbs) returns (g: Limbs, mask: U64)
    requires Reduced(h)
    ensures Value(h) < P ==> mask == 0
    ensures Value(h) >= P ==> mask == MAX64 && Reduced(g) && Value(g) == Value(h) - P
    ensures 0 <= Value(h) < P + 5
  {
    var g0, c1 := Carry(h.l0, 5);
    var g1, c2 := Carry(h.l1, c1);
    var g2, c3 := Carry(h.l2, c2);
    var g3, c4 := Carry(h.l3, c3);
    var g4: U64 := (h.l4 + c4 - RADIX) % (MAX64 + 1);
    mask := (g4 / 0x8000_0000_0000_0000 - 1) % (MAX64 + 1);
    g := Limbs(g0, g1, g2, g3, g4);
    Subtracted(h, g, c1, c2, c3, c4);
    BorrowMask(h.l4 + c4 - RADIX);
  }

  lemma Subtracted(h: Limbs, g: Limbs, c1: int, c2: int, c3: int, c4: int)
    requires Reduced(h) && g.l0 < RADIX && g.l1 < RADIX && g.l2 < RADIX && g.l3 < RADIX
    requires h.l0 + 5 == g.l0 + RADIX * c1 && h.l1 + c1 == g.l1 + RADIX * c2
    requires h.l2 + c2 == g.l2 + RADIX * c3 && h.l3 + c3 == g.l3 + RADIX * c4
    requires g.l4 == (h.l4 + c4 - RADIX) % (MAX64 + 1)
    ensures -RADIX <= h.l4 + c4 - RADIX <= 0
    ensures 0 <= Value(h) < P + 5
    ensures h.l4 + c4 - RADIX < 0 <==> Value(h) < P
    ensures h.l4 + c4 - RADIX == 0 ==> Reduced(g) && Value(g) == Value(h) - P
  {
    ValueIs(h);
    ValueIs(g);
    assert 0 <= c1 <= 1 && 0 <= c2 <= 1 && 0 <= c3 <= 1 && 0 <= c4 <= 1;
    Difference(h.l0, h.l1, h.l2, h.l3, h.l4, h.l4 + c4 - RADIX, g.l0, g.l1, g.l2, g.l3);
  }

  lemma Difference(h0: int, h1: int, h2: int, h3: int, h4: int, t: int, g0: int, g1: int, g2: int, g3: int)
    requires 0 <= h0 < RADIX && 0 <= h1 < RADIX && 0 <= h2 < RADIX && 0 <= h3 < RADIX && 0 <= h4 < RADIX
    requires 0 <= g0 < RADIX && 0 <= g1 < RADIX && 0 <= g2 < RADIX && 0 <= g3 < RADIX
    requires -RADIX <= t <= 0
    requires Value5(g0, g1, g2, g3, t) == Value5(h0, h1, h2, h3, h4) - P
    ensures t < 0 <==> Value5(h0, h1, h2, h3, h4) < P
    ensures 0 <= Value5(h0, h1, h2, h3, h4) < P + 5
  {
  }

  /** Lines 166-185: subtract P without branching, and keep the difference unless it went negative. */
  method SelectResidue(h: Limbs) returns (out: Limbs)
    requires Reduced(h)
    ensures Reduced(out)
    ensures Value(out) == Value(h) % P
  {
    var g, mask := SubtractP(h);
    out := Limbs(Select(h.l0, g.l0, mask), Select(h.l1, g.l1, mask), Select(h.l2, g.l2, mask),
                 Select(h.l3, g.l3, mask), Select(h.l4, g.l4, mask));
    assert out == if Value(h) < P then h else g;
  }

  function Value4(w0: int, w1: int, w2: int, w3: int): int {
    w0 + 0x1_0000_0000 * w1 + 0x1_0000_0000_0000_0000 * w2 + 0x1_0000_0000_0000_0000_0000_0000 * w3
  }

  /** The second half of the key, as init stores it: four words below 2^32. */
  datatype Pad = Pad(p0: U64, p1: U64, p2: U64, p3: U64) {
    predicate Words() {
      p0 < 0x1_0000_0000 && p1 < 0x1_0000_0000 && p2 < 0x1_0000_0000 && p3 < 0x1_0000_0000
    }

    function Value(): int {
      Eval32([p0, p1, p2, p3])
    }
  }

  /** Base-2^32 digits, least significant first. */
  function Eval32(ws: seq<int>): int {
    if |ws| == 0 then 0 else ws[0] + 0x1_0000_0000 * Eval32(ws[1..])
  }

  lemma PadValueIs(pad: Pad)
    ensures pad.Value() == Value4(pad.p0, pad.p1, pad.p2, pad.p3)
  {
    var ws := [pad.p0, pad.p1, pad.p2, pad.p3];
    var t1, t2, t3 := ws[1..], ws[2..], ws[3..];
    assert t1[1..] == t2 && t2[1..] == t3;
    assert Eval32(t3) == t3[0] + 0x1_0000_0000 * Eval32(t3[1..]) == t3[0];
    assert Eval32(t2) == t2[0] + 0x1_0000_0000 * Eval32(t3);
    assert Eval32(t1) == t1[0] + 0x1_0000_0000 * Eval32(t2);
  }

  /** Lines 187-202: repack to 32-bit words, add the pad with carries, store. The sums are kept in
      64-bit variables; storing truncates them. */
  method EmitTag(h: Limbs, pad: Pad, ghost v: nat, ghost p: nat) returns (mac: seq<U8>)
    requires Reduced(h) && pad.Words()
    requires v == Value(h) && p == pad.Value()
    ensures mac == Emit(v, p)
  {
    var h0, h1, h2, h3 := Pack(h);
    ValueIs(h);
    PadValueIs(pad);
    mac := AddPad(h0, h1, h2, h3, pad.p0, pad.p1, pad.p2, pad.p3, v, p);
  }

  /** Lines 193-202 */
  method AddPad(h0: U64, h1: U64, h2: U64, h3: U64, p0: U64, p1: U64, p2: U64, p3: U64, ghost v: nat, ghost p: nat)
    returns (mac: seq<U8>)
    requires h0 < 0x1_0000_0000 && h1 < 0x1_0000_0000 && h2 < 0x1_0000_0000 && h3 < 0x1_0000_0000
    requires p0 < 0x1_0000_0000 && p1 < 0x1_0000_0000 && p2 < 0x1_0000_0000 && p3 < 0x1_0000_0000
    requires v % TWO128 == Value4(h0, h1, h2, h3) && p == Value4(p0, p1, p2, p3)
    ensures mac == Emit(v, p)
  {
    var f0: U64 := h0 + p0;
    var f1: U64 := h1 + p1 + f0 / 0x1_0000_0000;
    var f2: U64 := h2 + p2 + f1 / 0x1_0000_0000;
    var f3: U64 := h3 + p3 + f2 / 0x1_0000_0000;
    mac := Store32(f0) + Store32(f1) + Store32(f2) + Store32(f3);
    EmittedWords(v, p, h0, h1, h2, h3, p0, p1, p2, p3, f0, f1, f2, f3);
  }

  lemma EmittedWords(v: nat, p: nat, h0: nat, h1: nat, h2: nat, h3: nat, p0: nat, p1: nat, p2: nat, p3: nat,
                     f0: nat, f1: nat, f2: nat, f3: nat)
    requires v % TWO128 == Value4(h0, h1, h2, h3) && p == Value4(p0, p1, p2, p3)
    requires f0 == h0 + p0 && f1 == h1 + p1 + f0 / 0x1_0000_0000
    requires f2 == h2 + p2 + f1 / 0x1_0000_0000 && f3 == h3 + p3 + f2 / 0x1_0000_0000
    ensures Store32(f0) + Store32(f1) + Store32(f2) + Store32(f3) == Emit(v, p)
  {
    var s := AddChain(h0, h1, h2, h3, p0, p1, p2, p3, f0, f1, f2, f3);
    AddModulo(v, p, Value4(h0, h1, h2, h3), s, f3 / 0x1_0000_0000);
    StoreFour(f0, f1, f2, f3, s);
    EmitIs(v, p, s);
  }

  lemma EmitIs(v: nat, p: nat, s: nat)
    requires (v + p) % TWO128 == s
    ensures Emit(v, p) == LeBytes(s, 16)
  {
  }

  /** Four words below 2^32 are the base-2^32 digits of their value. */
  lemma Digits4(w0: int, w1: int, w2: int, w3: int)
    requires 0 <= w0 < 0x1_0000_0000 && 0 <= w1 < 0x1_0000_0000
    requires 0 <= w2 < 0x1_0000_0000 && 0 <= w3 < 0x1_0000_0000
    ensures var v := Value4(w0, w1, w2, w3);
            0 <= v < TWO128 && v % 0x1_0000_0000 == w0
            && v / 0x1_0000_0000 % 0x1_0000_0000 == w1
            && v / 0x1_0000_0000_0000_0000 % 0x1_0000_0000 == w2
            && v / 0x1_0000_0000_0000_0000_0000_0000 % 0x1_0000_0000 == w3
  {
    var v := Value4(w0, w1, w2, w3);
    var t2 := w2 + 0x1_0000_0000 * w3;
    var t1 := w1 + 0x1_0000_0000 * t2;
    assert v == w0 + 0x1_0000_0000 * t1;
    assert v / 0x1_0000_0000 == t1;
    assert v / 0x1_0000_0000_0000_0000 == t2;
    assert v / 0x1_0000_0000_0000_0000_0000_0000 == w3;
  }

  lemma AddChain(h0: int, h1: int, h2: int, h3: int, p0: int, p1: int, p2: int, p3: int,
                 f0: nat, f1: nat, f2: nat, f3: nat) returns (s: nat)
    requires f0 == h0 + p0 && f1 == h1 + p1 + f0 / 0x1_0000_0000
    requires f2 == h2 + p2 + f1 / 0x1_0000_0000 && f3 == h3 + p3 + f2 / 0x1_0000_0000
    ensures s < TWO128
    ensures Value4(h0, h1, h2, h3) + Value4(p0, p1, p2, p3) == s + TWO128 * (f3 / 0x1_0000_0000)
    ensures s % 0x1_0000_0000 == f0 % 0x1_0000_0000
            && s / 0x1_0000_0000 % 0x1_0000_0000 == f1 % 0x1_0000_0000
            && s / 0x1_0000_0000_0000_0000 % 0x1_0000_0000 == f2 % 0x1_0000_0000
            && s / 0x1_0000_0000_0000_0000_0000_0000 % 0x1_0000_0000 == f3 % 0x1_0000_0000
  {
    Digits4(f0 % 0x1_0000_0000, f1 % 0x1_0000_0000, f2 % 0x1_0000_0000, f3 % 0x1_0000_0000);
    s := Value4(f0 % 0x1_0000_0000, f1 % 0x1_0000_0000, f2 % 0x1_0000_0000, f3 % 0x1_0000_0000);
  }

  lemma AddModulo(v: nat, p: nat, w: nat, s: nat, k: int)
    requires v % TWO128 == w && s < TWO128 && w + p == s + TWO128 * k
    ensures (v + p) % TWO128 == s
  {
    var q := v / TWO128;
    assert v + p == s + TWO128 * (k + q);
  }

  /** Lines 187-191: the five limbs as four words; the bits from 2^128 up fall away. */
  method Pack(h: Limbs) returns (h0: U64, h1: U64, h2: U64, h3: U64)
    requires Reduced(h)
    ensures h0 < 0x1_0000_0000 && h1 < 0x1_0000_0000 && h2 < 0x1_0000_0000 && h3 < 0x1_0000_0000
    ensures Value(h) % TWO128 == Value4(h0, h1, h2, h3)
  {
    h0, h1 := Low32(h.l0 + h.l1 * 0x400_0000), Low32(h.l1 / 0x40 + h.l2 * 0x10_0000);
    h2, h3 := Low32(h.l2 / 0x1000 + h.l3 * 0x4000), Low32(h.l3 / 0x4_0000 + h.l4 * 0x100);
    ValueIs(h);
    PackWords(h.l0, h.l1, h.l2, h.l3, h.l4);
  }

  /** x & 0xFFFFFFFF */
  function Low32(x: int): U32 {
    x % 0x1_0000_0000
  }

  /** The ORs of lines 188-191 never overlap, so the sums above are the words they compute. */
  lemma PackIsOr(low: nat, high: nat, k: nat)
    requires low < Pow2(k)
    ensures And(Or(low, Pow2(k) * high), 0xFFFF_FFFF) == (low + Pow2(k) * high) % 0x1_0000_0000
  {
    OrDisjoint(low, high, k);
    Pow2At(32);
    AndLow(low + Pow2(k) * high, 32);
  }

  lemma PackWords(l0: int, l1: int, l2: int, l3: int, l4: int)
    requires 0 <= l0 < RADIX && 0 <= l1 < RADIX && 0 <= l2 < RADIX && 0 <= l3 < RADIX && 0 <= l4 < RADIX
    ensures Value5(l0, l1, l2, l3, l4) % TWO128
            == Value4(Low32(l0 + l1 * 0x400_0000), Low32(l1 / 0x40 + l2 * 0x10_0000),
                      Low32(l2 / 0x1000 + l3 * 0x4000), Low32(l3 / 0x4_0000 + l4 * 0x100))
  {
    var a1, b1 := l1 / 0x40, l1 % 0x40;
    var a2, b2 := l2 / 0x1000, l2 % 0x1000;
    var a3, b3 := l3 / 0x4_0000, l3 % 0x4_0000;
    var a4, b4 := l4 / 0x100_0000, l4 % 0x100_0000;
    var w0, w1, w2, w3 := l0 + 0x400_0000 * b1, a1 + 0x10_0000 * b2, a2 + 0x4000 * b3, a3 + 0x100 * b4;
    assert Low32(l0 + l1 * 0x400_0000) == w0 by { PackWord(l0, a1, b1, 0x40, 0x400_0000); }
    assert Low32(a1 + l2 * 0x10_0000) == w1 by { PackWord(a1, a2, b2, 0x1000, 0x10_0000); }
    assert Low32(a2 + l3 * 0x4000) == w2 by { PackWord(a2, a3, b3, 0x4_0000, 0x4000); }
    assert Low32(a3 + l4 * 0x100) == w3 by { PackWord(a3, a4, b4, 0x100_0000, 0x100); }
    assert Value5(l0, l1, l2, l3, l4) % TWO128 == Value4(w0, w1, w2, w3) by {
      PackValue(l0, a1, b1, a2, b2, a3, b3, a4, b4);
      Digits4(w0, w1, w2, w3);
      ModTwo128(Value5(l0, l1, l2, l3, l4), Value4(w0, w1, w2, w3), a4);
    }
  }

  lemma ModTwo128(v: int, w: int, k: int)
    requires v == w + TWO128 * k && 0 <= w < TWO128
    ensures v % TWO128 == w
  {
  }

  lemma PackWord(low: int, a: int, b: int, n: int, m: int)
    requires 0 <= low < m && 0 <= b < n && 0 <= a && n * m == 0x1_0000_0000
    ensures (low + (a * n + b) * m) % 0x1_0000_0000 == low + m * b
  {
    assert (a * n + b) * m == a * (n * m) + b * m;
    assert 0 <= b * m <= (n - 1) * m == 0x1_0000_0000 - m;
  }

  lemma PackValue(l0: int, a1: int, b1: int, a2: int, b2: int, a3: int, b3: int, a4: int, b4: int)
    ensures Value5(l0, a1 * 0x40 + b1, a2 * 0x1000 + b2, a3 * 0x4_0000 + b3, a4 * 0x100_0000 + b4)
            == Value4(l0 + 0x400_0000 * b1, a1 + 0x10_0000 * b2, a2 + 0x4000 * b3, a3 + 0x100 * b4) + TWO128 * a4
  {
  }

  function Word(b0: int, b1: int, b2: int, b3: int): int {
    b0 + 0x100 * b1 + 0x1_0000 * b2 + 0x100_0000 * b3
  }

  /** The 26-bit pieces read at byte offsets 0, 3, 6, 9 and 12 (lines 50-54 and 101-105, before masks
      and hibit), from sixteen bytes b. */
  function Piece(b: seq<U8>, i: int): (w: U64)
    requires |b| == 16 && 0 <= i < 5
  {
    if i == 0 then Low26(Load32(b[0], b[1], b[2], b[3]))
    else if i == 1 then Low26(Load32(b[3], b[4], b[5], b[6]) / 0x4)
    else if i == 2 then Low26(Load32(b[6], b[7], b[8], b[9]) / 0x10)
    else if i == 3 then Low26(Load32(b[9], b[10], b[11], b[12]) / 0x40)
    else Load32(b[12], b[13], b[14], b[15]) / 0x100
  }

  /** Dividing and keeping 26 bits: a word t = d * q + low loses the low bits of its first byte and, q being
      2^26 * top + piece, the high bits of its last. */
  lemma PieceIs(t: nat, d: nat, low: nat, q: nat, top: nat, piece: nat)
    requires 0 < d && low < d && t == d * q + low && q == RADIX * top + piece && piece < RADIX
    ensures Low26(t / d) == piece
  {
    RemainderIs(t, d, q, low);
    RemainderIs(q, RADIX, top, piece);
  }

  lemma Piece0(b0: nat, b1: nat, b2: nat, b3: nat, t: nat)
    requires b0 < 0x100 && b1 < 0x100 && b2 < 0x100 && b3 < 0x100 && t == Word(b0, b1, b2, b3)
    ensures Low26(t) == b0 + 0x100 * b1 + 0x1_0000 * b2 + 0x100_0000 * (b3 % 4)
  {
    PieceIs(t, 1, 0, t, b3 / 4, b0 + 0x100 * b1 + 0x1_0000 * b2 + 0x100_0000 * (b3 % 4));
  }

  lemma Piece1(b0: nat, b1: nat, b2: nat, b3: nat, t: nat)
    requires b0 < 0x100 && b1 < 0x100 && b2 < 0x100 && b3 < 0x100 && t == Word(b0, b1, b2, b3)
    ensures Low26(t / 4) == b0 / 4 + 0x40 * b1 + 0x4000 * b2 + 0x40_0000 * (b3 % 0x10)
  {
    PieceIs(t, 4, b0 % 4, b0 / 4 + 0x40 * b1 + 0x4000 * b2 + 0x40_0000 * b3, b3 / 0x10,
            b0 / 4 + 0x40 * b1 + 0x4000 * b2 + 0x40_0000 * (b3 % 0x10));
  }

  lemma Piece2(b0: nat, b1: nat, b2: nat, b3: nat, t: nat)
    requires b0 < 0x100 && b1 < 0x100 && b2 < 0x100 && b3 < 0x100 && t == Word(b0, b1, b2, b3)
    ensures Low26(t / 0x10) == b0 / 0x10 + 0x10 * b1 + 0x1000 * b2 + 0x10_0000 * (b3 % 0x40)
  {
    PieceIs(t, 0x10, b0 % 0x10, b0 / 0x10 + 0x10 * b1 + 0x1000 * b2 + 0x10_0000 * b3, b3 / 0x40,
            b0 / 0x10 + 0x10 * b1 + 0x1000 * b2 + 0x10_0000 * (b3 % 0x40));
  }

  lemma Piece3(b0: nat, b1: nat, b2: nat, b3: nat, t: nat)
    requires b0 < 0x100 && b1 < 0x100 && b2 < 0x100 && b3 < 0x100 && t == Word(b0, b1, b2, b3)
    ensures Low26(t / 0x40) == b0 / 0x40 + 4 * b1 + 0x400 * b2 + 0x4_0000 * b3
  {
    PieceIs(t, 0x40, b0 % 0x40, b0 / 0x40 + 4 * b1 + 0x400 * b2 + 0x4_0000 * b3, 0,
            b0 / 0x40 + 4 * b1 + 0x400 * b2 + 0x4_0000 * b3);
  }

  lemma Piece4(b0: nat, b1: nat, b2: nat, b3: nat, t: nat)
    requires b0 < 0x100 && t == Word(b0, b1, b2, b3)
    ensures t / 0x100 == b1 + 0x100 * b2 + 0x1_0000 * b3
  {
    RemainderIs(t, 0x100, b1 + 0x100 * b2 + 0x1_0000 * b3, b0);
  }

  /** Bytes 3, 6 and 9 are divided between two pieces: q is the upper part, r the lower. */
  lemma JoinPieces(l0: int, l1: int, l2: int, l3: int, l4: int, b: seq<int>, q3: int, r3: int, q6: int, r6: int,
                   q9: int, r9: int)
    requires |b| == 16 && b[3] == 4 * q3 + r3 && b[6] == 0x10 * q6 + r6 && b[9] == 0x40 * q9 + r9
    requires l0 == b[0] + 0x100 * b[1] + 0x1_0000 * b[2] + 0x100_0000 * r3
    requires l1 == q3 + 0x40 * b[4] + 0x4000 * b[5] + 0x40_0000 * r6
    requires l2 == q6 + 0x10 * b[7] + 0x1000 * b[8] + 0x10_0000 * r9
    requires l3 == q9 + 4 * b[10] + 0x400 * b[11] + 0x4_0000 * b[12]
    requires l4 == b[13] + 0x100 * b[14] + 0x1_0000 * b[15]
    ensures Value5(l0, l1, l2, l3, l4)
            == Word(b[0], b[1], b[2], b[3]) + 0x1_0000_0000 * Word(b[4], b[5], b[6], b[7])
               + 0x1_0000_0000_0000_0000 * Word(b[8], b[9], b[10], b[11])
               + 0x1_0000_0000_0000_0000_0000_0000 * Word(b[12], b[13], b[14], b[15])
  {
  }

  /** The five pieces are the base-2^26 digits of the sixteen bytes. */
  lemma PiecesValue(b: seq<U8>, l0: int, l1: int, l2: int, l3: int, l4: int)
    requires |b| == 16
    requires l0 == Piece(b, 0) && l1 == Piece(b, 1) && l2 == Piece(b, 2) && l3 == Piece(b, 3) && l4 == Piece(b, 4)
    ensures Value5(l0, l1, l2, l3, l4) == LeValue(b)
  {
    Piece0(b[0], b[1], b[2], b[3], Load32(b[0], b[1], b[2], b[3]));
    Piece1(b[3], b[4], b[5], b[6], Load32(b[3], b[4], b[5], b[6]));
    Piece2(b[6], b[7], b[8], b[9], Load32(b[6], b[7], b[8], b[9]));
    Piece3(b[9], b[10], b[11], b[12], Load32(b[9], b[10], b[11], b[12]));
    Piece4(b[12], b[13], b[14], b[15], Load32(b[12], b[13], b[14], b[15]));
    var b3, b6, b9 := b[3] as int, b[6] as int, b[9] as int;
    JoinPieces(l0, l1, l2, l3, l4, b, b3 / 4, b3 % 4, b6 / 0x10, b6 % 0x10, b9 / 0x40, b9 % 0x40);
    LeValue16(b);
  }
}

module Poly1305 {
  import opened Bits
  import opened Modular
  import opened ByteStrings
  import opened LittleEndian
  import opened Poly1305Spec
  import opened Poly1305Limbs
  import Poly1305Sum

  /** The clamp of lines 50-54 masks each piece; together they mask the whole number. */
  lemma ClampPieces(v: nat, l0: nat, l1: nat, l2: nat, l3: nat, l4: nat)
    requires v == Value5(l0, l1, l2, l3, l4)
    requires l0 < RADIX && l1 < RADIX && l2 < RADIX && l3 < RADIX
    ensures And(v, CLAMP)
            == Value5(And(l0, 0x3ff_ffff), And(l1, 0x3ff_ff03), And(l2, 0x3ff_c0ff), And(l3, 0x3f0_3fff),
                      And(l4, 0x00f_ffff))
  {
    var v3: nat, c3: nat := l3 + 0x400_0000 * l4, 0x3f0_3fff + 0x400_0000 * 0x00f_ffff;
    var v2: nat, c2: nat := l2 + 0x400_0000 * v3, 0x3ff_c0ff + 0x400_0000 * c3;
    var v1: nat, c1: nat := l1 + 0x400_0000 * v2, 0x3ff_ff03 + 0x400_0000 * c2;
    Pow2At(26);
    AndSplit(v, CLAMP, l0, v1, 0x3ff_ffff, c1, 26);
    AndSplit(v1, c1, l1, v2, 0x3ff_ff03, c2, 26);
    AndSplit(v2, c2, l2, v3, 0x3ff_c0ff, c3, 26);
    AndSplit(v3, c3, l3, l4, 0x3f0_3fff, 0x00f_ffff, 26);
  }

  /** Masking 26 or fewer bits of a wider word is masking its low 26 bits. */
  lemma MaskLow(x: nat, mask: nat)
    requires mask < RADIX
    ensures And(x, mask) == And(x % RADIX, mask)
  {
    Pow2At(26);
    AndSplit(x, mask, x % RADIX, x / RADIX, mask, 0, 26);
  }

  /** poly1305_init, lines 49-54 */
  method InitR(k: seq<U8>) returns (r: Limbs)
    requires |k| == 16
    ensures Reduced(r) && Value(r) == And(LeValue(k), CLAMP)
  {
    var w0, w1 := Load32(k[0], k[1], k[2], k[3]), Load32(k[3], k[4], k[5], k[6]) / 0x4;
    var w2 := Load32(k[6], k[7], k[8], k[9]) / 0x10;
    var w3, w4 := Load32(k[9], k[10], k[11], k[12]) / 0x40, Load32(k[12], k[13], k[14], k[15]) / 0x100;
    PiecesValue(k, w0 % RADIX, w1 % RADIX, w2 % RADIX, w3 % RADIX, w4);
    r := MaskPieces(w0, w1, w2, w3, w4, LeValue(k));
  }

  method MaskPieces(w0: U64, w1: U64, w2: U64, w3: U64, w4: U64, ghost v: nat) returns (r: Limbs)
    requires v == Value5(w0 % RADIX, w1 % RADIX, w2 % RADIX, w3 % RADIX, w4)
    ensures Reduced(r) && Value(r) == And(v, CLAMP)
  {
    AndBound(w0, 0x3ff_ffff);
    AndBound(w1, 0x3ff_ff03);
    AndBound(w2, 0x3ff_c0ff);
    AndBound(w3, 0x3f0_3fff);
    AndBound(w4, 0x00f_ffff);
    r := Limbs(And(w0, 0x3ff_ffff), And(w1, 0x3ff_ff03), And(w2, 0x3ff_c0ff), And(w3, 0x3f0_3fff), And(w4, 0x00f_ffff));
    MaskLow(w0, 0x3ff_ffff);
    MaskLow(w1, 0x3ff_ff03);
    MaskLow(w2, 0x3ff_c0ff);
    MaskLow(w3, 0x3f0_3fff);
    ClampPieces(v, w0 % RADIX, w1 % RADIX, w2 % RADIX, w3 % RADIX, w4);
    ValueIs(r);
  }

  /** The limbs hold the accumulator only modulo P, which is all that the product sees. */
  lemma TimesCongruent(a: int, b: int, v: int, r: nat)
    requires a % P == b % P
    ensures Times(a + v, r) == Times(b + v, r)
  {
    TimesIsProduct(a + v, r);
    TimesIsProduct(b + v, r);
    ProductsApart(a + v, b + v, a / P - b / P, r);
  }

  lemma ProductsApart(x: int, y: int, k: int, r: int)
    requires x == y + P * k
    ensures (x * r) % P == (y * r) % P
  {
    Multiples(y, P * k, k, r);
    Congruent(x * r, y * r, k * r, P);
  }

  lemma Multiples(y: int, pk: int, k: int, r: int)
    requires pk == P * k
    ensures (y + pk) * r == y * r + P * (k * r)
  {
  }

  lemma LeValueAppendOne(block: seq<U8>)
    requires |block| == 16
    ensures LeValue(block + [1]) == LeValue(block) + TWO128
  {
    LeValueConcat(block, [1]);
    assert LeValue([1]) == 1 + 256 * LeValue([1][1..]);
    Pow2At(8 * |block|);
  }

  lemma NextBlock(acc: nat, r: nat, m: seq<U8>, i: nat)
    requires i + 16 <= |m|
    ensures Accumulate(acc, r, m[i..]) == Accumulate(Mix(acc, LeValue(m[i..i + 16]) + TWO128, r), r, m[i + 16..])
  {
    LeValueAppendOne(m[i..i + 16]);
    assert m[i..i + 16] == m[i..][..16] && m[i + 16..] == m[i..][16..];
  }

  /** The closing block: the message's tail, a one, and zeros up to sixteen bytes. */
  lemma ClosingBlock(tail: seq<U8>, padded: seq<U8>)
    requires |tail| < 16 && |padded| == 16 && padded[..|tail|] == tail && padded[|tail|] == 1
    requires forall i :: |tail| < i < 16 ==> padded[i] == 0
    ensures LeValue(padded) == LeValue(tail + [1])
  {
    var zeros := padded[|tail| + 1..];
    assert padded == (tail + [1]) + zeros;
    LeValueConcat(tail + [1], zeros);
    LeValueZeros(zeros);
  }

  /** poly1305_init, lines 63-67 */
  method InitPad(k: seq<U8>) returns (p: Pad)
    requires |k| == 16
    ensures p.Words() && p.Value() == LeValue(k)
  {
    LeValue16(k);
    p := Pad(Load32(k[0], k[1], k[2], k[3]), Load32(k[4], k[5], k[6], k[7]),
             Load32(k[8], k[9], k[10], k[11]), Load32(k[12], k[13], k[14], k[15]));
    PadValueIs(p);
  }

  /** The message limbs of lines 101-105. */
  method ReadPieces(b: seq<U8>) returns (l0: U64, l1: U64, l2: U64, l3: U64, l4: U64)
    requires |b| == 16
    ensures l0 < RADIX && l1 < RADIX && l2 < RADIX && l3 < RADIX && l4 < 0x100_0000
    ensures Value5(l0, l1, l2, l3, l4) == LeValue(b)
  {
    l0, l1, l2, l3, l4 := Piece(b, 0), Piece(b, 1), Piece(b, 2), Piece(b, 3), Piece(b, 4);
    PiecesValue(b, l0, l1, l2, l3, l4);
  }

  /** One turn of the loop of poly1305_blocks, lines 100-121; hibit adds the appended bit. */
  method BlockStep(h: Limbs, r: Limbs, b: seq<U8>, hibit: U64, ghost rv: nat, ghost v: nat) returns (out: Limbs)
    requires Reduced(r) && Carried(h) && |b| == 16 && (hibit == 0 || hibit == 0x100_0000)
    requires rv == Value(r) && v == LeValue(b) + if hibit == 0 then 0 else TWO128
    ensures Carried(out)
    ensures Value(out) % P == Mix(Value(h) % P, v, rv)
  {
    var sum := AddBlock(h, b, hibit, v);
    out := MultiplyReduce(sum, r, Value(h) + v, rv);
    TimesCongruent(Value(h), Value(h) % P, v, rv);
  }

  method AddBlock(h: Limbs, b: seq<U8>, hibit: U64, ghost v: nat) returns (sum: Limbs)
    requires Carried(h) && |b| == 16 && (hibit == 0 || hibit == 0x100_0000)
    requires v == LeValue(b) + if hibit == 0 then 0 else TWO128
    ensures Value(h) >= 0 && Value(sum) == Value(h) + v
    ensures sum.l0 <= HMAX && sum.l1 <= HMAX && sum.l2 <= HMAX && sum.l3 <= HMAX && sum.l4 <= HMAX
  {
    var l0, l1, l2, l3, l4 := ReadPieces(b);
    sum := AddPieces(h, l0, l1, l2, l3, l4, hibit, v);
    ValueIs(h);
  }

  /** Lines 101-105. The top piece is below 2^24, so `| hibit` adds. */
  method AddPieces(h: Limbs, l0: U64, l1: U64, l2: U64, l3: U64, l4: U64, hibit: U64, ghost v: nat) returns (sum: Limbs)
    requires Carried(h) && (hibit == 0 || hibit == 0x100_0000)
    requires l0 < RADIX && l1 < RADIX && l2 < RADIX && l3 < RADIX && l4 < 0x100_0000
    requires v == Value5(l0, l1, l2, l3, l4) + (if hibit == 0 then 0 else TWO128)
    ensures Value(sum) == Value(h) + v
    ensures sum.l0 <= HMAX && sum.l1 <= HMAX && sum.l2 <= HMAX && sum.l3 <= HMAX && sum.l4 <= HMAX
  {
    sum := Limbs(h.l0 + l0, h.l1 + l1, h.l2 + l2, h.l3 + l3, h.l4 + (l4 + hibit));
    ValueIs(h);
    ValueIs(sum);
  }

  lemma EmptyAccumulator(r: nat, m: seq<U8>)
    requires m == []
    ensures Value(Limbs(0, 0, 0, 0, 0)) % P == Accumulate(0, r, m)
  {
    assert Accumulate(0, r, m) == 0;
    assert Value(Limbs(0, 0, 0, 0, 0)) == 0 by { ValueIs(Limbs(0, 0, 0, 0, 0)); }
  }

  /** A buffer that has been filled up behind its tail is one more block. */
  lemma FullBuffer(msg: seq<U8>, tail: seq<U8>, done: seq<U8>, block: seq<U8>, r: nat)
    requires msg == done + tail && |done| % 16 == 0 && |tail| < 16 == |block| && block[..|tail|] == tail
    ensures msg + block[|tail|..] == done + block && |done + block| % 16 == 0
    ensures Accumulate(0, r, done + block) == Accumulate(Accumulate(0, r, done), r, block)
  {
    FilledUp(done, tail, block);
    AccumulateConcat(0, r, done, block);
  }

  lemma FilledUp(done: seq<U8>, tail: seq<U8>, block: seq<U8>)
    requires |done| % 16 == 0 && |tail| < 16 == |block| && block[..|tail|] == tail
    ensures (done + tail) + block[|tail|..] == done + block && |done + block| % 16 == 0
  {
    assert block == tail + block[|tail|..];
  }

  lemma TailGrows(msg: seq<U8>, m: seq<U8>, left: nat)
    requires left <= |msg|
    ensures |msg + m| - (left + |m|) == |msg| - left
    ensures (msg + m)[..|msg| - left] == msg[..|msg| - left]
    ensures (msg + m)[|msg| - left..] == msg[|msg| - left..] + m
  {
  }

  lemma Reassemble(a: seq<U8>, m: seq<U8>, i: nat, j: nat)
    requires i <= j <= |m|
    ensures ((a + m[..i]) + m[i..j]) + m[j..] == a + m
  {
  }

  /** Lines 152-202: the fully reduced accumulator plus the pad. */
  method Digest(h: Limbs, pad: Pad, ghost acc: nat, ghost pv: nat) returns (mac: seq<U8>)
    requires Carried(h) && Value(h) % P == acc && pad.Words() && pad.Value() == pv
    ensures mac == Emit(acc, pv)
  {
    var out := FullyCarry(h);
    out := SelectResidue(out);
    mac := EmitTag(out, pad, acc, pv);
  }

  lemma BlockLess(n: nat)
    requires n % 16 == 0
    ensures (n - 16) % 16 == 0 && (n < 16 ==> n == 0)
  {
  }

  lemma WholeBlocks(a: nat, b: nat)
    requires a % 16 == 0 && b % 16 == 0
    ensures (a + b) % 16 == 0
  {
  }

  class Context {
    var r: Limbs
    var h: Limbs
    var pad: Pad
    var leftover: nat
    const buffer: array<U8>
    var final: bool

    ghost const rv: nat     // the clamped multiplier
    ghost const pv: nat     // the number added at the end
    ghost var msg: seq<U8>  // every byte given to Update so far

    /** Everything before the last, incomplete block is in the accumulator; the rest is buffered. */
    ghost predicate Valid()
      reads this, buffer
    {
      && buffer.Length == 16 && leftover < 16 && !final && Keyed() && Carried(h)
      && leftover <= |msg| && (|msg| - leftover) % 16 == 0
      && buffer[..leftover] == msg[|msg| - leftover..]
      && Value(h) % P == Accumulate(0, rv, msg[..|msg| - leftover])
    }

    ghost predicate Keyed()
      reads this
    {
      Reduced(r) && Value(r) == rv && pad.Words() && pad.Value() == pv
    }

    /** poly1305_init */
    constructor (key: seq<U8>)
      requires |key| == 32
      ensures Valid() && msg == [] && fresh(buffer)
      ensures rv == And(LeValue(key[..16]), CLAMP) && pv == LeValue(key[16..])
    {
      var r0 := InitR(key[..16]);
      var pad0 := InitPad(key[16..]);
      r, h, pad := r0, Limbs(0, 0, 0, 0, 0), pad0;
      leftover := 0;
      buffer := new U8[16];
      final := false;
      msg, rv, pv := [], Value(r0), LeValue(key[16..]);
      new;
      EmptyAccumulator(rv, msg[..|msg| - leftover]);
    }

    /** poly1305_blocks. With `final` set there is just the closing block, which carries its own one. */
    method Blocks(m: seq<U8>)
      requires Reduced(r) && Carried(h) && Value(r) == rv && |m| % 16 == 0
      requires final ==> |m| == 16
      modifies this`h
      ensures Carried(h)
      ensures !final ==> Value(h) % P == Accumulate(old(Value(h)) % P, rv, m)
      ensures final ==> Value(h) % P == Mix(old(Value(h)) % P, LeValue(m), rv)
    {
      var hibit: U64 := if final then 0 else 0x100_0000;
      var i := 0;
      while i + 16 <= |m|
        invariant 0 <= i <= |m| && (|m| - i) % 16 == 0 && Carried(h)
        invariant !final ==> Accumulate(Value(h) % P, rv, m[i..]) == Accumulate(old(Value(h)) % P, rv, m)
        invariant final ==> Value(h) % P == if i == 0 then old(Value(h)) % P else Mix(old(Value(h)) % P, LeValue(m), rv)
      {
        BlockAt(m, i, hibit);
        BlockLess(|m| - i);
        i := i + 16;
      }
      BlockLess(|m| - i);
      assert m[i..] == [];
    }

    /** One turn of the loop. */
    method BlockAt(m: seq<U8>, i: nat, hibit: U64)
      requires Reduced(r) && Carried(h) && Value(r) == rv && i + 16 <= |m| && hibit == (if final then 0 else 0x100_0000)
      modifies this`h
      ensures Carried(h)
      ensures !final ==> Accumulate(Value(h) % P, rv, m[i + 16..]) == Accumulate(old(Value(h)) % P, rv, m[i..])
      ensures final && |m| == 16 ==> Value(h) % P == Mix(old(Value(h)) % P, LeValue(m), rv)
    {
      var b := m[i..i + 16];
      ghost var acc, v := Value(h) % P, LeValue(b) + if final then 0 else TWO128;
      h := BlockStep(h, r, b, hibit, rv, v);
      NextBlock(acc, rv, m, i);
      assert |m| == 16 ==> b == m;
    }

    /** The two copy loops of poly1305_update. */
    method Store(m: seq<U8>)
      requires buffer.Length == 16 && leftover + |m| <= 16
      modifies buffer
      ensures buffer[..leftover + |m|] == old(buffer[..leftover]) + m
    {
      var i := 0;
      while i < |m|
        invariant 0 <= i <= |m|
        invariant buffer[..leftover + i] == old(buffer[..leftover]) + m[..i]
      {
        buffer[leftover + i] := m[i];
        i := i + 1;
        assert m[..i] == m[..i - 1] + [m[i - 1]];
      }
    }

    /** Whole blocks, when nothing is buffered. */
    method AbsorbWhole(m: seq<U8>)
      requires Valid() && leftover == 0 && |m| % 16 == 0
      modifies this`h, this`msg
      ensures Valid() && msg == old(msg) + m
    {
      ghost var before, all := msg, msg + m;
      assert before[..|before| - leftover] == before && all[..|all|] == all;
      WholeBlocks(|before|, |m|);
      AccumulateConcat(0, rv, before, m);
      Blocks(m);
      msg := all;
      assert msg[..|msg| - leftover] == all;
    }

    /** The full buffer, as one block. */
    method FlushBuffer(ghost tail: seq<U8>)
      requires buffer.Length == 16 && !final && Keyed() && Carried(h)
      requires |tail| <= |msg| && (|msg| - |tail|) % 16 == 0 && msg[|msg| - |tail|..] == tail
      requires |tail| < 16 && buffer[..|tail|] == tail
      requires Value(h) % P == Accumulate(0, rv, msg[..|msg| - |tail|])
      modifies this`h, this`msg, this`leftover
      ensures Valid() && leftover == 0
      ensures msg == old(msg) + buffer[|tail|..]
    {
      ghost var done, all := msg[..|msg| - |tail|], msg + buffer[|tail|..];
      var block := buffer[..];
      FullBuffer(msg, tail, done, block, rv);
      Blocks(block);
      msg := all;
      leftover := 0;
      assert msg[..|msg| - leftover] == all;
    }

    /** "handle leftover": lines 12-25 */
    method TopUp(m: seq<U8>) returns (want: nat)
      requires Valid() && leftover != 0
      modifies this`h, this`msg, this`leftover, buffer
      ensures Valid() && want <= |m| && msg == old(msg) + m[..want]
      ensures want == |m| || leftover == 0
    {
      want := if 16 - leftover > |m| then |m| else 16 - leftover;
      ghost var tail := buffer[..leftover];
      Store(m[..want]);
      if leftover + want < 16 {
        KeepTail(m[..want], tail);
      } else {
        assert buffer[..16] == tail + m[..want];
        assert buffer[..|tail|] == tail && buffer[|tail|..] == m[..want];
        FlushBuffer(tail);
      }
    }

    /** Accounts for bytes that have just been stored behind the buffered tail. */
    method KeepTail(m: seq<U8>, ghost tail: seq<U8>)
      requires buffer.Length == 16 && !final && Keyed() && Carried(h)
      requires leftover + |m| < 16 && leftover <= |msg| && (|msg| - leftover) % 16 == 0
      requires |tail| == leftover && tail == msg[|msg| - leftover..]
      requires buffer[..leftover + |m|] == tail + m
      requires Value(h) % P == Accumulate(0, rv, msg[..|msg| - leftover])
      modifies this`msg, this`leftover
      ensures Valid() && msg == old(msg) + m && leftover == old(leftover) + |m|
    {
      TailGrows(msg, m, leftover);
      leftover := leftover + |m|;
      msg := msg + m;
    }

    /** "store leftover": lines 35-40 */
    method KeepRest(m: seq<U8>)
      requires Valid() && leftover == 0 && |m| < 16
      modifies this`msg, this`leftover, buffer
      ensures Valid() && msg == old(msg) + m
    {
      Store(m);
      KeepTail(m, []);
    }

    /** poly1305_update */
    method Update(m: seq<U8>)
      requires Valid()
      modifies this`h, this`msg, this`leftover, buffer
      ensures Valid() && msg == old(msg) + m
    {
      ghost var before := msg;
      var off := 0;
      if leftover != 0 {
        off := TopUp(m);
      }
      assert msg == before + m[..off];
      if off < |m| {
        var want := (|m| - off) / 16 * 16;
        AbsorbWhole(m[off..off + want]);
        KeepRest(m[off + want..]);
        Reassemble(before, m, off, off + want);
      } else {
        assert m[..off] == m;
      }
    }

    /** poly1305_finish. The context is wiped: it has to be initialised again before further use. */
    method Finish() returns (mac: seq<U8>)
      requires Valid()
      modifies this, buffer
      ensures mac == Emit(Accumulate(0, rv, old(msg)), pv)
      ensures h == r == Limbs(0, 0, 0, 0, 0) && pad == Pad(0, 0, 0, 0)
    {
      Close();
      mac := Digest(h, pad, Accumulate(0, rv, msg), pv);
      h := Limbs(0, 0, 0, 0, 0);
      r := Limbs(0, 0, 0, 0, 0);
      pad := Pad(0, 0, 0, 0);
    }

    /** Lines 142-150: the last, short block. */
    method Close()
      requires Valid()
      modifies this`h, this`final, buffer
      ensures Keyed() && Carried(h) && Value(h) % P == Accumulate(0, rv, msg)
    {
      ghost var done, tail := msg[..|msg| - leftover], msg[|msg| - leftover..];
      assert done + tail == msg;
      AccumulateConcat(0, rv, done, tail);
      if leftover != 0 {
        PadBuffer();
        ClosingBlock(tail, buffer[..]);
        final := true;
        Blocks(buffer[..]);
      }
    }

    method PadBuffer()
      requires buffer.Length == 16 && 0 < leftover < 16
      modifies buffer
      ensures buffer[..leftover] == old(buffer[..leftover]) && buffer[leftover] == 1
      ensures forall j :: leftover < j < 16 ==> buffer[j] == 0
    {
      var i := leftover;
      buffer[i] := 1;
      i := i + 1;
      while i < 16
        invariant leftover < i <= 16
        invariant buffer[..leftover] == old(buffer[..leftover]) && buffer[leftover] == 1
        invariant forall j :: leftover < j < i ==> buffer[j] == 0
      {
        buffer[i] := 0;
        i := i + 1;
      }
    }
  }

  method UpdateAll(ctx: Context, parts: seq<seq<U8>>)
    requires ctx.Valid()
    modifies ctx, ctx.buffer
    ensures ctx.Valid() && ctx.msg == old(ctx.msg) + Flatten(parts)
  {
    if |parts| > 0 {
      UpdateAll(ctx, parts[..|parts| - 1]);
      ctx.Update(parts[|parts| - 1]);
      Joined(old(ctx.msg), Flatten(parts[..|parts| - 1]), parts[|parts| - 1]);
    }
  }

  lemma Joined(a: seq<U8>, b: seq<U8>, c: seq<U8>)
    ensures (a + b) + c == a + (b + c)
  {
  }

  method MacWith(ctx: Context, parts: seq<seq<U8>>) returns (mac: seq<U8>)
    requires ctx.Valid()
    modifies ctx, ctx.buffer
    ensures mac == Emit(Accumulate(0, ctx.rv, old(ctx.msg) + Flatten(parts)), ctx.pv)
  {
    UpdateAll(ctx, parts);
    mac := ctx.Finish();
  }

  method MacWithKey(key: seq<U8>, parts: seq<seq<U8>>) returns (mac: seq<U8>)
    requires |key| == 32
    ensures mac == Tag(key, Flatten(parts))
  {
    var ctx := new Context(key);
    assert [] + Flatten(parts) == Flatten(parts);
    mac := MacWith(ctx, parts);
  }

  /** The main result: any message in any division into updates gets the tag of section 2.5 of RFC 8439, which is
      (m0 r^n + m1 r^(n-1) + ... + m(n-1) r modulo 2^130 - 5) + s modulo 2^128, with block i, and a one bit above its
      last byte, for mi, the clamped first half of the key for r, and the second half for s. */
  method Mac(key: seq<U8>, parts: seq<seq<U8>>) returns (mac: seq<U8>)
    requires |key| == 32
    ensures mac == Tag(key, Flatten(parts)) && |mac| == 16
    ensures var r, s := And(LeValue(key[..16]), 0x0FFF_FFFC_0FFF_FFFC_0FFF_FFFC_0FFF_FFFF), LeValue(key[16..]);
            LeValue(mac) == Poly1305Sum.ClosedForm(Flatten(parts), r, s)
  {
    mac := MacWithKey(key, parts);
    Poly1305Sum.TagIsSum(key, Flatten(parts));
  }
}
