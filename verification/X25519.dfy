/** Numbers as little-endian sequences of 32-bit limbs, with positional weight kept symbolic. */
module Limbs32 {
  import opened Bits

  const B: int := 0x1_0000_0000

  /** x moved up by n limbs. */
  function Shl(x: int, n: nat): int {
    if n == 0 then x else B * Shl(x, n - 1)
  }

  function Val(s: seq<U32>): nat {
    if |s| == 0 then 0 else s[0] + B * Val(s[1..])
  }

  lemma {:induction false} ShlAdd(x: int, y: int, n: nat)
    ensures Shl(x + y, n) == Shl(x, n) + Shl(y, n)
  {
    if n > 0 { ShlAdd(x, y, n - 1); }
  }

  lemma {:induction false} ShlUp(x: int, n: nat)
    ensures Shl(B * x, n) == Shl(x, n + 1) == B * Shl(x, n)
  {
    if n > 0 { ShlUp(x, n - 1); }
  }

  lemma {:induction false} ShlShl(x: int, m: nat, n: nat)
    ensures Shl(Shl(x, m), n) == Shl(x, m + n)
  {
    if n > 0 { ShlShl(x, m, n - 1); }
  }

  lemma {:induction false} ShlZero(n: nat)
    ensures Shl(0, n) == 0
  {
    if n > 0 { ShlZero(n - 1); }
  }

  lemma {:induction false} ShlMul(x: int, y: int, n: nat)
    ensures Shl(x * y, n) == x * Shl(y, n)
  {
    if n > 0 {
      ShlMul(x, y, n - 1);
      MulSwap(x, Shl(y, n - 1));
    }
  }

  lemma MulSwap(x: int, y: int)
    ensures B * (x * y) == x * (B * y)
  {
  }

  /** A word with its carry: `t = lo + 2^32 * hi`, at position n. */
  lemma ShlCarry(t: int, lo: int, hi: int, n: nat)
    requires t == lo + B * hi
    ensures Shl(t, n) == Shl(lo, n) + Shl(hi, n + 1)
  {
    ShlAdd(lo, B * hi, n);
    ShlUp(hi, n);
  }

  lemma {:induction false} ValAppend(s: seq<U32>, x: U32)
    ensures Val(s + [x]) == Val(s) + Shl(x, |s|)
  {
    if |s| == 0 {
      assert s + [x] == [x];
      assert Val([x]) == x + B * Val([x][1..]);
    } else {
      assert (s + [x])[1..] == s[1..] + [x];
      ValAppend(s[1..], x);
    }
  }

  lemma ValPrefix(s: seq<U32>, i: nat)
    requires i < |s|
    ensures Val(s[..i + 1]) == Val(s[..i]) + Shl(s[i], i)
  {
    assert s[..i + 1] == s[..i] + [s[i]];
    ValAppend(s[..i], s[i]);
  }

  /** One step of a carry loop: word `t` arrives at position |xs| with carry c0; lo stays, c1 moves on. */
  lemma CarryStep(xs: seq<U32>, c0: int, t: int, lo: U32, c1: int)
    requires lo + B * c1 == c0 + t
    ensures Val(xs + [lo]) + Shl(c1, |xs| + 1) == Val(xs) + Shl(c0, |xs|) + Shl(t, |xs|)
  {
    ValAppend(xs, lo);
    ShlCarry(c0 + t, lo, c1, |xs|);
    ShlAdd(c0, t, |xs|);
  }

  lemma {:induction false} ValConcat(s: seq<U32>, t: seq<U32>)
    ensures Val(s + t) == Val(s) + Shl(Val(t), |s|)
  {
    if |s| == 0 {
      assert s + t == t;
    } else {
      assert (s + t)[1..] == s[1..] + t;
      ValConcat(s[1..], t);
    }
  }

  lemma {:induction false} ValUpdate(s: seq<U32>, k: nat, x: U32)
    requires k < |s|
    ensures Val(s[k := x]) == Val(s) + Shl(x as int - s[k] as int, k)
  {
    if k == 0 {
      assert s[k := x][1..] == s[1..];
    } else {
      assert s[k := x][1..] == s[1..][k - 1 := x];
      ValUpdate(s[1..], k - 1, x);
    }
  }

  lemma {:induction false} ValBound(s: seq<U32>)
    ensures Val(s) < Shl(1, |s|)
  {
    if |s| > 0 { ValBound(s[1..]); }
  }

  lemma {:induction false} ShlPositive(x: int, n: nat)
    requires x > 0
    ensures Shl(x, n) > 0
  {
    if n > 0 { ShlPositive(x, n - 1); }
  }

  lemma ValAppendZero(s: seq<U32>, x: U32)
    ensures Val(s + [x]) == 0 <==> Val(s) == 0 && x == 0
  {
    ValAppend(s, x);
    if x > 0 { ShlPositive(x, |s|); } else { ShlZero(|s|); }
  }

  lemma {:induction false} ValZeros(s: seq<U32>)
    requires forall i :: 0 <= i < |s| ==> s[i] == 0
    ensures Val(s) == 0
  {
    if |s| > 0 { ValZeros(s[1..]); }
  }

  lemma Shl8(x: int)
    ensures Shl(x, 8) == 0x1_0000_0000_0000_0000_0000_0000_0000_0000_0000_0000_0000_0000_0000_0000_0000_0000 * x
    ensures Shl(x, 7) == 0x1_0000_0000_0000_0000_0000_0000_0000_0000_0000_0000_0000_0000_0000_0000 * x
  {
    var a := Shl(x, 2);
    assert a == B * Shl(x, 1) == B * (B * x);
    var c := Shl(x, 4);
    assert c == B * Shl(x, 3) == B * (B * a);
    var d := Shl(x, 6);
    assert d == B * Shl(x, 5) == B * (B * c);
    assert Shl(x, 8) == B * Shl(x, 7) == B * (B * d);
  }
}

/** Arithmetic modulo 2^255 - 19. */
module Field25519 {
  import opened Modular

  const P: int := 0x7FFF_FFFF_FFFF_FFFF_FFFF_FFFF_FFFF_FFFF_FFFF_FFFF_FFFF_FFFF_FFFF_FFFF_FFFF_FFED
  const TWO255: int := 0x8000_0000_0000_0000_0000_0000_0000_0000_0000_0000_0000_0000_0000_0000_0000_0000
  const TWO256: int := 0x1_0000_0000_0000_0000_0000_0000_0000_0000_0000_0000_0000_0000_0000_0000_0000_0000

  function FAdd(x: int, y: int): nat {
    (x + y) % P
  }

  function FSub(x: int, y: int): nat {
    (x - y) % P
  }

  /** The product in the field. */
  function FMul(x: int, n: nat): (r: nat)
    ensures r < P
  {
    MulMod(x, n, P)
  }

  lemma FMulIsProduct(x: int, n: nat)
    ensures FMul(x, n) == (x * n) % P
  {
    MulModIsProduct(x, n, P);
  }

  /** Products see only residues. */
  lemma FMulCongruent(a: int, b: nat, x: int, y: nat)
    requires a % P == x % P && b % P == y % P
    ensures FMul(a, b) == FMul(x, y)
  {
    FMulIsProduct(a, b);
    FMulIsProduct(x, y);
    var j, k := a / P - x / P, b / P - y / P;
    assert a == x + P * j && b == y + P * k;
    ProductCongruent(a, b, x, y, j, k);
  }

  lemma ProductCongruent(a: int, b: int, x: int, y: int, j: int, k: int)
    requires a == x + P * j && b == y + P * k
    ensures (a * b) % P == (x * y) % P
  {
    assert a * b == x * y + P * (x * k + j * y + P * (j * k));
    Congruent(a * b, x * y, x * k + j * y + P * (j * k), P);
  }

  lemma FMulCommutes(x: nat, y: nat)
    ensures FMul(x, y) == FMul(y, x)
  {
    FMulIsProduct(x, y);
    FMulIsProduct(y, x);
    assert x * y == y * x;
  }

  lemma FAddCongruent(a: int, b: int)
    ensures (a + b) % P == FAdd(a % P, b % P)
  {
    Congruent(a + b, a % P + b % P, a / P + b / P, P);
  }

  lemma FSubCongruent(a: int, b: int)
    ensures (a - b) % P == FSub(a % P, b % P)
  {
    Congruent(a - b, a % P - b % P, a / P - b / P, P);
  }

  /** Subtracting the difference recovers the subtrahend. */
  lemma FSubTwice(a: int, b: int)
    requires 0 <= b < P
    ensures FSub(a, FSub(a, b)) == b
  {
    var k := (a - b) / P;
    Congruent(a - FSub(a, b), b, k, P);
  }

  /** What propagate leaves of a number t: every multiple of 2^255 is replaced by as many times 19. */
  function Fold(t: int): int {
    t - P * (t / TWO255)
  }

  lemma FoldFacts(t: int)
    requires 0 <= t && 19 * (t / TWO255) < 0x1_0000_0000
    ensures Fold(t) % P == t % P
    ensures 0 <= Fold(t) < TWO255 + 0x1_0000_0000
    ensures Fold(t) == t % TWO255 + 19 * (t / TWO255)
  {
    Congruent(t, Fold(t), t / TWO255, P);
  }
}

module FieldLimbs {
  import opened Modular
  import opened Bits
  import opened Limbs32
  import opened Field25519

  /** The bound that every field operation leaves behind: below 2^255 plus one word. */
  predicate Loose(v: int) {
    0 <= v < TWO255 + 0x1_0000_0000
  }

  ghost function V(x: array<U32>): nat
    reads x
  {
    Val(x[..])
  }

  /** The field element that an array stands for. */
  ghost function R(x: array<U32>): nat
    reads x
  {
    V(x) % P
  }

  /** adc0 */
  method Adc0(carry: U32, acc: U32) returns (low: U32, carry': U32)
    ensures low + B * carry' == carry as int + acc as int
  {
    var total: U64 := carry as int + acc as int;
    carry' := total / B;
    low := total % B;
  }

  /** adc */
  method Adc(carry: U32, acc: U32, mand: U32) returns (low: U32, carry': U32)
    ensures low + B * carry' == carry as int + acc as int + mand as int
  {
    var total: U64 := carry as int + acc as int + mand as int;
    carry' := total / B;
    low := total % B;
  }

  lemma MulBound(x: int, y: int, n: int)
    requires 0 <= x <= n && 0 <= y <= n
    ensures 0 <= x * y <= n * n
  {
    assert x * y <= n * y;
    assert n * y <= n * n;
  }

  /** umaal: the double-width product plus two words never overflows. */
  method Umaal(carry: U32, acc: U32, mand: U32, mier: U32) returns (low: U32, carry': U32)
    ensures low + B * carry' == mand as int * mier as int + acc as int + carry as int
  {
    MulBound(mand, mier, B - 1);
    var tmp: U64 := mand as int * mier as int + acc as int + carry as int;
    carry' := tmp / B;
    low := tmp % B;
  }

  /** The loop shared by propagate and canon: x += c, carry out returned. */
  method AddWord(x: array<U32>, c: U32) returns (carry: U32)
    requires x.Length == 8
    modifies x
    ensures Val(x[..]) + TWO256 * carry == old(Val(x[..])) + c
  {
    ghost var s := x[..];
    carry := c;
    var i := 0;
    while i < 8
      invariant 0 <= i <= 8 && forall k :: i <= k < 8 ==> x[k] == s[k]
      invariant Val(x[..i]) + Shl(carry, i) == Val(s[..i]) + c
    {
      ghost var before, c0 := x[..i], carry;
      x[i], carry := Adc0(carry, x[i]);
      assert x[..i + 1] == before + [x[i]];
      CarryStep(before, c0, s[i], x[i], carry);
      ValPrefix(s, i);
      i := i + 1;
    }
    assert x[..8] == x[..] && s[..8] == s;
    Shl8(carry);
  }

  /** propagate. Precondition of the source: `over` is small, so that 19 * over fits one word. */
  method Propagate(x: array<U32>, over: U32)
    requires x.Length == 8 && 19 * (2 * over + 1) < B
    modifies x
    ensures Val(x[..]) == Fold(old(Val(x[..])) + TWO256 * over)
    ensures Loose(Val(x[..])) && Val(x[..]) % P == (old(Val(x[..])) + TWO256 * over) % P
  {
    ghost var s := x[..];
    var top: U32 := x[7] / 0x8000_0000;
    x[7] := x[7] % 0x8000_0000;
    assert x[..] == s[7 := x[7]];
    ghost var t, low := Val(s) + TWO256 * over, Val(x[..]);
    ClearTop(s, over, t, low);
    var carry := AddWord(x, (top + 2 * over) * 19);
    NoCarryOut(Val(x[..]), carry, Fold(t));
  }

  lemma NoCarryOut(o: int, carry: int, t: int)
    requires o + TWO256 * carry == t < TWO256 && 0 <= o && 0 <= carry
    ensures o == t
  {
  }

  /** Clearing bit 31 of the top limb removes as many 2^255 as the number holds. */
  lemma ClearTop(s: seq<U32>, over: U32, t: int, low: int)
    requires |s| == 8 && 19 * (2 * over + 1) < B
    requires t == Val(s) + TWO256 * over && low == Val(s[7 := s[7] % 0x8000_0000])
    ensures Fold(t) == low + 19 * (s[7] / 0x8000_0000 + 2 * over) < TWO256
    ensures Loose(Fold(t)) && Fold(t) % P == t % P
  {
    var top, rest := s[7] / 0x8000_0000, s[7] % 0x8000_0000;
    assert Val(s) == low + TWO255 * top by {
      ValUpdate(s, 7, rest);
      Shl8(rest as int - s[7] as int);
    }
    assert low < TWO255 by {
      assert s[7 := rest] == s[..7] + [rest];
      ValAppend(s[..7], rest);
      ValBound(s[..7]);
      Shl8(rest);
      Shl8(1);
    }
    TopBits(Val(s), low, top, over);
  }

  lemma TopBits(v: nat, low: nat, top: int, over: int)
    requires v == low + TWO255 * top && low < TWO255 && 0 <= top <= 1 && 0 <= over && 19 * (2 * over + 1) < B
    ensures var t := v + TWO256 * over;
            t / TWO255 == top + 2 * over && t % TWO255 == low
            && Fold(t) == low + 19 * (top + 2 * over) < TWO256
            && Loose(Fold(t)) && Fold(t) % P == t % P
  {
    var t := v + TWO256 * over;
    assert t == low + TWO255 * (top + 2 * over);
    assert t / TWO255 == top + 2 * over;
    FoldFacts(t);
  }

  /** The loop of add. */
  method AddLimbs(out: array<U32>, a: array<U32>, b: array<U32>) returns (carry: U32)
    requires out.Length == 8 && a.Length == 8 && b.Length == 8
    modifies out
    ensures carry <= 1 && V(out) + TWO256 * carry == old(V(a)) + old(V(b))
  {
    ghost var sa, sb := a[..], b[..];
    carry := 0;
    var i := 0;
    while i < 8
      invariant 0 <= i <= 8 && carry <= 1
      invariant forall k :: i <= k < 8 ==> a[k] == sa[k] && b[k] == sb[k]
      invariant Val(out[..i]) + Shl(carry, i) == Val(sa[..i]) + Val(sb[..i])
    {
      ghost var before, c0 := out[..i], carry;
      out[i], carry := Adc(carry, a[i], b[i]);
      assert out[..i + 1] == before + [out[i]];
      AddStep(before, c0, sa, sb, i, out[i], carry);
      i := i + 1;
    }
    assert out[..8] == out[..] && sa[..8] == sa && sb[..8] == sb;
    Shl8(carry);
  }

  /** add. The operands may be the output. */
  method Add(out: array<U32>, a: array<U32>, b: array<U32>)
    requires out.Length == 8 && a.Length == 8 && b.Length == 8
    modifies out
    ensures Loose(V(out)) && R(out) == FAdd(old(R(a)), old(R(b)))
  {
    FAddCongruent(V(a), V(b));
    var carry := AddLimbs(out, a, b);
    Propagate(out, carry);
  }

  lemma AddStep(before: seq<U32>, c0: int, sa: seq<U32>, sb: seq<U32>, i: nat, lo: U32, c1: int)
    requires i == |before| < |sa| == |sb| && lo + B * c1 == c0 + sa[i] as int + sb[i] as int
    requires Val(before) + Shl(c0, i) == Val(sa[..i]) + Val(sb[..i])
    ensures Val(before + [lo]) + Shl(c1, i + 1) == Val(sa[..i + 1]) + Val(sb[..i + 1])
  {
    CarryStep(before, c0, sa[i] as int + sb[i] as int, lo, c1);
    ValPrefix(sa, i);
    ValPrefix(sb, i);
    ShlAdd(sa[i], sb[i], i);
  }

  /** `out = carry = carry + a - b; carry >>= 32` in a signed double word. */
  method Sbb(carry: int, a: U32, b: U32) returns (low: U32, carry': int)
    requires -38 <= carry <= 0
    ensures -38 <= carry' <= 0 && low + B * carry' == carry + a as int - b as int
  {
    var t := carry + a as int - b as int;
    low := t % B;
    carry' := t / B;
  }

  /** The loop of sub, started from -38. */
  method SubLimbs(out: array<U32>, a: array<U32>, b: array<U32>) returns (carry: int)
    requires out.Length == 8 && a.Length == 8 && b.Length == 8
    modifies out
    ensures V(out) + TWO256 * carry == old(V(a)) - old(V(b)) - 38
  {
    ghost var sa, sb := a[..], b[..];
    carry := -38;
    var i := 0;
    while i < 8
      invariant 0 <= i <= 8 && -38 <= carry <= 0
      invariant forall k :: i <= k < 8 ==> a[k] == sa[k] && b[k] == sb[k]
      invariant Val(out[..i]) + Shl(carry, i) == Val(sa[..i]) - Val(sb[..i]) - 38
    {
      ghost var before, c0 := out[..i], carry;
      out[i], carry := Sbb(carry, a[i], b[i]);
      assert out[..i + 1] == before + [out[i]];
      SubStep(before, c0, sa, sb, i, out[i], carry);
      i := i + 1;
    }
    assert out[..8] == out[..] && sa[..8] == sa && sb[..8] == sb;
    Shl8(carry);
  }

  /** sub: 2^256 is added back through propagate. The borrow is 0 or -1, because the subtrahend stays
      below 2^256 - 38. */
  method Sub(out: array<U32>, a: array<U32>, b: array<U32>)
    requires out.Length == 8 && a.Length == 8 && b.Length == 8
    requires V(b) < TWO256 - 38
    modifies out
    ensures Loose(V(out)) && R(out) == FSub(old(R(a)), old(R(b)))
  {
    ghost var av, bv := V(a), V(b);
    Below(a[..]);
    var carry := SubLimbs(out, a, b);
    Below(out[..]);
    BorrowBit(V(out), carry, av, bv);
    Propagate(out, 1 + carry);
  }

  lemma Below(s: seq<U32>)
    requires |s| == 8
    ensures Val(s) < TWO256
  {
    ValBound(s);
    Shl8(1);
  }

  lemma SubStep(before: seq<U32>, c0: int, sa: seq<U32>, sb: seq<U32>, i: nat, lo: U32, c1: int)
    requires i == |before| < |sa| == |sb| && lo + B * c1 == c0 + sa[i] as int - sb[i] as int
    requires Val(before) + Shl(c0, i) == Val(sa[..i]) - Val(sb[..i]) - 38
    ensures Val(before + [lo]) + Shl(c1, i + 1) == Val(sa[..i + 1]) - Val(sb[..i + 1]) - 38
  {
    CarryStep(before, c0, sa[i] as int - sb[i] as int, lo, c1);
    ValPrefix(sa, i);
    ValPrefix(sb, i);
    ShlAdd(sa[i] as int - sb[i] as int, sb[i], i);
  }

  lemma BorrowBit(o: int, carry: int, a: int, b: int)
    requires o + TWO256 * carry == a - b - 38
    requires 0 <= o < TWO256 && 0 <= a < TWO256 && 0 <= b < TWO256 - 38
    ensures carry == 0 || carry == -1
    ensures (o + TWO256 * (1 + carry)) % P == FSub(a % P, b % P)
  {
    FSubCongruent(a, b);
    Congruent(o + TWO256 * (1 + carry), a - b, 2, P);
  }

  /** Position k of an accumulator takes the low word of p + s[k] + c0; the high word moves on. */
  lemma RowStep(s: seq<U32>, k: nat, p: int, c0: int, lo: U32, c1: int)
    requires k < |s| && lo + B * c1 == p + s[k] + c0
    ensures Val(s[k := lo]) + Shl(c1, k + 1) == Val(s) + Shl(c0, k) + Shl(p, k)
  {
    ValUpdate(s, k, lo);
    ShlCarry(p + s[k] + c0, lo, c1, k);
    ShlAdd(p + s[k], c0, k);
    ShlAdd(p, s[k], k);
    ShlAdd(lo as int - s[k] as int, s[k], k);
  }

  /** One more limb of the row mand * a, at row position i. */
  lemma RowGrows(mand: U32, sa: seq<U32>, i: nat, j: nat, row: int, p: int)
    requires j < |sa| && row == mand * Val(sa[..j]) && p == mand as int * sa[j] as int
    ensures mand * Val(sa[..j + 1]) == row + Shl(p, j)
    ensures Shl(row + Shl(p, j), i) == Shl(row, i) + Shl(p, i + j)
  {
    ValPrefix(sa, j);
    ShlMul(mand, sa[j], j);
    Distribute(mand, Val(sa[..j]), Shl(sa[j], j));
    ShlAdd(row, Shl(p, j), i);
    ShlShl(p, j, i);
  }

  lemma Distribute(m: int, x: int, y: int)
    ensures m * (x + y) == m * x + m * y
  {
  }

  /** The inner loop of mul: accum += mand * a, shifted by i limbs. Returns the number added. */
  method MulRow(accum: array<U32>, i: nat, mand: U32, a: array<U32>) returns (ghost row: int)
    requires accum.Length == 16 && a.Length == 8 && i < 8 && accum != a
    requires forall k :: i + 8 <= k < 16 ==> accum[k] == 0
    modifies accum
    ensures row == mand * Val(a[..]) && Val(accum[..]) == old(Val(accum[..])) + Shl(row, i)
    ensures forall k :: i + 9 <= k < 16 ==> accum[k] == 0
  {
    ghost var base := Val(accum[..]);
    ghost var sa := a[..];
    var carry2: U32 := 0;
    row := 0;
    ShlZero(i);
    var j := 0;
    while j < 8
      invariant 0 <= j <= 8 && row == mand * Val(sa[..j])
      invariant Val(accum[..]) + Shl(carry2, i + j) == base + Shl(row, i)
      invariant forall k :: i + 8 <= k < 16 ==> accum[k] == 0
    {
      ghost var s, c0, p := accum[..], carry2, mand as int * a[j] as int;
      accum[i + j], carry2 := Umaal(carry2, accum[i + j], mand, a[j]);
      assert accum[..] == s[i + j := accum[i + j]];
      RowStep(s, i + j, p, c0, accum[i + j], carry2);
      RowGrows(mand, sa, i, j, row, p);
      row := row + Shl(p, j);
      j := j + 1;
    }
    assert sa[..8] == sa;
    ghost var s := accum[..];
    ValUpdate(s, i + 8, carry2);
    accum[i + 8] := carry2;
    assert accum[..] == s[i + 8 := carry2];
  }

  lemma ProductGrows(av: nat, sb: seq<U32>, i: nat, prod: int, row: int)
    requires i < |sb| && prod == av * Val(sb[..i]) && row == sb[i] * av
    ensures av * Val(sb[..i + 1]) == prod + Shl(row, i)
  {
    ValPrefix(sb, i);
    Distribute(av, Val(sb[..i]), Shl(sb[i], i));
    ShlMul(av, sb[i], i);
  }

  /** Sixteen limbs of product. */
  method Product(a: array<U32>, b: array<U32>, nb: nat) returns (accum: array<U32>, ghost prod: int)
    requires a.Length == 8 && nb <= b.Length && nb <= 8
    ensures fresh(accum) && accum.Length == 16
    ensures prod == Val(a[..]) * Val(b[..nb]) && Val(accum[..]) == prod
  {
    accum := new U32[16](_ => 0);
    ghost var sb, av := b[..nb], Val(a[..]);
    prod := 0;
    ValZeros(accum[..]);
    var i := 0;
    while i < nb
      invariant 0 <= i <= nb && fresh(accum)
      invariant prod == av * Val(sb[..i]) && Val(accum[..]) == prod
      invariant forall k :: i + 8 <= k < 16 ==> accum[k] == 0
    {
      ghost var row := MulRow(accum, i, b[i], a);
      ProductGrows(av, sb, i, prod, row);
      prod := prod + Shl(row, i);
      i := i + 1;
    }
    assert sb[..nb] == sb;
  }

  /** The second loop of mul: out = low half + 38 * high half. */
  method FoldProduct(out: array<U32>, accum: array<U32>) returns (carry2: U32)
    requires out.Length == 8 && accum.Length == 16 && out != accum
    modifies out
    ensures Val(out[..]) + TWO256 * carry2 == Val(accum[..8]) + 38 * Val(accum[8..])
  {
    ghost var lo, hi := accum[..8], accum[8..];
    carry2 := 0;
    var j := 0;
    while j < 8
      invariant 0 <= j <= 8
      invariant Val(out[..j]) + Shl(carry2, j) == Val(lo[..j]) + 38 * Val(hi[..j])
    {
      ghost var before, c0 := out[..j], carry2;
      out[j], carry2 := Umaal(carry2, accum[j], 38, accum[j + 8]);
      assert out[..j + 1] == before + [out[j]];
      FoldStep(before, c0, lo, hi, j, out[j], carry2);
      j := j + 1;
    }
    assert out[..8] == out[..] && lo[..8] == lo && hi[..8] == hi;
    Shl8(carry2);
  }

  lemma FoldStep(before: seq<U32>, c0: int, lo: seq<U32>, hi: seq<U32>, j: nat, w: U32, c1: int)
    requires j == |before| < |lo| == |hi| && w + B * c1 == 38 * (hi[j] as int) + lo[j] as int + c0
    requires Val(before) + Shl(c0, j) == Val(lo[..j]) + 38 * Val(hi[..j])
    ensures Val(before + [w]) + Shl(c1, j + 1) == Val(lo[..j + 1]) + 38 * Val(hi[..j + 1])
  {
    CarryStep(before, c0, lo[j] as int + 38 * (hi[j] as int), w, c1);
    ValPrefix(lo, j);
    ValPrefix(hi, j);
    ShlAdd(lo[j], 38 * (hi[j] as int), j);
    ShlMul(38, hi[j], j);
  }

  /** mul, for any number nb of multiplier limbs; out may be a or b. */
  method Mul(out: array<U32>, a: array<U32>, b: array<U32>, nb: nat)
    requires out.Length == 8 && a.Length == 8 && nb <= b.Length && nb <= 8
    modifies out
    ensures Loose(V(out)) && R(out) == FMul(old(R(a)), old(Val(b[..nb])) % P)
  {
    ghost var av, bv := Val(a[..]), Val(b[..nb]);
    var accum, prod := Product(a, b, nb);
    FMulIsProduct(av, bv);
    FMulCongruent(av, bv, av % P, bv % P);
    var carry2 := FoldProduct(out, accum);
    FoldedCarry(out[..], accum[..], carry2, prod);
    Propagate(out, carry2);
  }

  lemma FoldedCarry(o: seq<U32>, acc: seq<U32>, carry: int, prod: int)
    requires |o| == 8 && |acc| == 16 && carry >= 0 && Val(acc) == prod
    requires Val(o) + TWO256 * carry == Val(acc[..8]) + 38 * Val(acc[8..])
    ensures carry <= 38
    ensures (Val(o) + TWO256 * carry) % P == prod % P
  {
    assert acc == acc[..8] + acc[8..];
    ValConcat(acc[..8], acc[8..]);
    Shl8(Val(acc[8..]));
    Shl8(1);
    ValBound(acc[..8]);
    ValBound(acc[8..]);
    HighHalf(Val(acc[..8]), Val(acc[8..]), carry, Val(o), prod);
  }

  lemma HighHalf(lo: int, hi: int, carry: int, o: int, prod: int)
    requires 0 <= lo < TWO256 && 0 <= hi < TWO256 && 0 <= o && 0 <= carry
    requires prod == lo + TWO256 * hi && o + TWO256 * carry == lo + 38 * hi
    ensures carry <= 38 && (o + TWO256 * carry) % P == prod % P
  {
    Congruent(prod, lo + 38 * hi, 2 * hi, P);
  }

  /** sqr, mul1 and sqr1 */
  method Mul1(out: array<U32>, a: array<U32>)
    requires out.Length == 8 && a.Length == 8
    modifies out
    ensures Loose(V(out)) && R(out) == FMul(old(R(a)), old(R(out)))
  {
    assert out[..8] == out[..];
    Mul(out, a, out, 8);
  }

  method Sqr(out: array<U32>, a: array<U32>)
    requires out.Length == 8 && a.Length == 8
    modifies out
    ensures Loose(V(out)) && R(out) == FMul(old(R(a)), old(R(a)))
  {
    assert a[..8] == a[..];
    Mul(out, a, a, 8);
  }
}
