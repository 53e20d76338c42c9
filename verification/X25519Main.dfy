/** x25519(): the ladder, the inversion chain and the canonical output. */
module X25519 {
  import opened Bits
  import opened LittleEndian
  import opened Limbs32
  import opened Field25519
  import opened FieldPowers
  import opened FieldLimbs
  import opened LadderSpec
  import opened X25519Ladder

  /** `sqr(a, prev); prev = a` n times: the exponent doubles n times. */
  method SquareTimes(a: array<U32>, prev: array<U32>, n: nat, ghost z: nat, ghost e: nat)
    requires a.Length == 8 && prev.Length == 8 && n > 0 && R(prev) == FPow(z, e)
    modifies a
    ensures Loose(V(a)) && R(a) == FPow(z, e * Pow2(n))
  {
    var j := n;
    var p := prev;
    ghost var f: nat := e;
    while j > 0
      invariant 0 <= j <= n && p.Length == 8 && (p == prev || p == a) && (j < n ==> p == a && Loose(V(a)))
      invariant R(p) == FPow(z, f) && f * Pow2(j) == e * Pow2(n)
    {
      Sqr(a, p);
      p := a;
      FPowAdd(z, f, f);
      DoubleExponent(f, j);
      f := f + f;
      j := j - 1;
    }
  }

  lemma DoubleExponent(f: nat, j: nat)
    requires j > 0
    ensures (f + f) * Pow2(j - 1) == f * Pow2(j)
  {
    Regroup(f, Pow2(j - 1));
  }

  lemma Regroup(f: int, q: int)
    ensures (f + f) * q == f * (2 * q)
  {
  }

  ghost predicate Powers(xs: seq<array<U32>>, z: nat, ex: Exponents)
    requires |xs| == 5
    reads xs
  {
    forall k :: 1 <= k <= 4 && ex.At(k) >= 0 ==> R(xs[k]) == FPow(z, ex.At(k))
  }

  ghost predicate Distinct(xs: seq<array<U32>>) {
    |xs| == 5 && (forall k :: 0 <= k < 5 ==> xs[k].Length == 8)
    && (forall j, k :: 0 <= j < k < 5 ==> xs[j] != xs[k])
  }

  /** Lines 290-298: z3 = z2^(2^255 - 21), for every z2. */
  method PowerChain(xs: seq<array<U32>>) returns (ghost e: nat)
    requires Distinct(xs)
    modifies xs[2], xs[3], xs[4]
    ensures e == P - 2 && R(xs[3]) == FPow(R(xs[1]), e)
  {
    ghost var z := R(xs[1]);
    ghost var ex := Table(0);
    FPowOne(z);
    var prev := xs[1];
    var i := 0;
    while i < 13
      invariant 0 <= i <= 13 && z == R(xs[1]) && ex == Table(i)
      invariant ex.prev < 5 && prev == xs[ex.prev] && Powers(xs, z, ex)
    {
      var s := STEPS[i];
      RowReady(i);
      TableStep(i);
      prev := ChainTurn(xs, prev, s, z, ex);
      ex := ex.After(s);
      i := i + 1;
    }
    e := ex.e3;
  }

  lemma FPowOne(z: nat)
    requires z < P
    ensures FPow(z, 1) == z
  {
    FMulCommutes(1, z);
    FMulOne(z);
  }

  /** One row of the table. */
  method ChainTurn(xs: seq<array<U32>>, prev: array<U32>, s: ChainStep, ghost z: nat, ghost ex: Exponents)
    returns (a: array<U32>)
    requires Distinct(xs) && 2 <= s.a <= 4 && 1 <= s.c <= 4 && s.a != s.c && s.n > 0
    requires 1 <= ex.prev <= 4 && prev == xs[ex.prev] && ex.At(ex.prev) >= 0 && ex.At(s.c) >= 0
    requires Powers(xs, z, ex)
    modifies xs[2], xs[3], xs[4]
    ensures a == xs[s.a] && Powers(xs, z, ex.After(s)) && R(xs[1]) == old(R(xs[1]))
  {
    a := xs[s.a];
    ghost var e: nat := ex.At(ex.prev) * Pow2(s.n);
    SquareTimes(a, prev, s.n, z, ex.At(ex.prev));
    MulPower(a, xs[s.c], z, e, ex.At(s.c));
  }

  method MulPower(a: array<U32>, c: array<U32>, ghost z: nat, ghost e: nat, ghost ec: nat)
    requires a.Length == 8 && c.Length == 8 && R(a) == FPow(z, e) && R(c) == FPow(z, ec)
    modifies a
    ensures R(a) == FPow(z, e + ec)
  {
    FPowAdd(z, ec, e);
    Mul1(a, c);
  }

  /** The second loop of canon: x -= 19, with the OR of the resulting limbs. */
  method SubNineteen(x: array<U32>) returns (res: U32)
    requires x.Length == 8 && V(x) >= 19
    modifies x
    ensures V(x) == old(V(x)) - 19
    ensures res == 0 <==> V(x) == 0
  {
    ghost var s := x[..];
    var carry: int := -19;
    res := 0;
    var i := 0;
    while i < 8
      invariant 0 <= i <= 8 && -19 <= carry <= 0 && forall k :: i <= k < 8 ==> x[k] == s[k]
      invariant Val(x[..i]) + Shl(carry, i) == Val(s[..i]) - 19
      invariant res == 0 <==> Val(x[..i]) == 0
    {
      ghost var before, c0 := x[..i], carry;
      x[i], carry := Sbb(carry, x[i], 0);
      res := OrWord(res, x[i]);
      assert x[..i + 1] == before + [x[i]];
      CarryStep(before, c0, s[i], x[i], carry);
      ValAppendZero(before, x[i]);
      ValPrefix(s, i);
      i := i + 1;
    }
    assert x[..8] == x[..] && s[..8] == s;
    Shl8(carry);
    Shl8(1);
    ValBound(x[..]);
    NoBorrow(Val(x[..]), carry, Val(s));
  }

  lemma NoBorrow(o: int, carry: int, v: int)
    requires o + TWO256 * carry == v - 19 && v >= 19 && 0 <= o < TWO256 && carry <= 0
    ensures carry == 0
  {
  }

  method OrWord(a: U32, b: U32) returns (c: U32)
    ensures c == 0 <==> a == 0 && b == 0
  {
    Pow2At(32);
    OrBound(a, b, 32);
    OrZero(a, b);
    c := Or(a, b);
  }

  /** canon: the least residue, and all ones exactly when it is zero. */
  method Canon(x: array<U32>) returns (ret: U32)
    requires x.Length == 8 && Loose(V(x))
    modifies x
    ensures V(x) == old(R(x))
    ensures ret == if V(x) == 0 then 0xFFFF_FFFF else 0
  {
    ghost var v := V(x);
    var carry0 := AddWord(x, 19);
    NoCarry(v, V(x), carry0);
    Propagate(x, carry0);
    var res := SubNineteen(x);
    ret := (res as int - 1) % 0x1_0000_0000_0000_0000 / B % B;
  }

  /** Adding 19 carries past 2^255 exactly when the number was P or more. */
  lemma NoCarry(v: int, o: int, carry: int)
    requires Loose(v) && 0 <= carry && 0 <= o && o + TWO256 * carry == v + 19
    ensures carry == 0 && Fold(o) == v % P + 19
  {
    assert carry == 0;
    if v < P {
      assert o / TWO255 == 0;
    } else {
      assert o / TWO255 == 1;
      assert v % P == v - P;
    }
  }

  function ToLimbs(b: seq<U8>): (s: seq<U32>)
    requires |b| % 4 == 0
    ensures |s| == |b| / 4
  {
    if |b| == 0 then [] else [Load32(b[0], b[1], b[2], b[3])] + ToLimbs(b[4..])
  }

  lemma {:induction false} ToLimbsValue(b: seq<U8>)
    requires |b| % 4 == 0
    ensures Val(ToLimbs(b)) == LeValue(b)
  {
    if |b| > 0 {
      ToLimbsValue(b[4..]);
      LimbStep(b, 4, ToLimbs(b[4..]));
    }
  }

  lemma LimbStep(b: seq<U8>, w: nat, rest: seq<U32>)
    requires w == 4 <= |b| && Val(rest) == LeValue(b[w..])
    ensures Val([Load32(b[0], b[1], b[2], b[3])] + rest) == LeValue(b)
  {
    FirstLimb(b, w);
    ValCons(Load32(b[0], b[1], b[2], b[3]), rest);
  }

  lemma ValCons(w: U32, rest: seq<U32>)
    ensures Val([w] + rest) == w + B * Val(rest)
  {
    assert ([w] + rest)[1..] == rest;
  }

  lemma FirstLimb(b: seq<U8>, w: nat)
    requires w == 4 <= |b|
    ensures LeValue(b) == Load32(b[0], b[1], b[2], b[3]) + B * LeValue(b[w..])
  {
    assert b == b[..w] + b[w..];
    LeValueConcat(b[..w], b[w..]);
    LeValue4(b[..w]);
    Pow2At(8 * w);
  }

  lemma {:induction false} ToLimbsAt(b: seq<U8>, i: nat)
    requires |b| % 4 == 0 && 4 * i + 3 < |b|
    ensures i < |ToLimbs(b)| && ToLimbs(b)[i] == Load32(b[4 * i], b[4 * i + 1], b[4 * i + 2], b[4 * i + 3])
  {
    if i > 0 {
      var rest, j := b[4..], 4 * (i - 1);
      ToLimbsAt(rest, i - 1);
      assert ToLimbs(b)[i] == ToLimbs(rest)[i - 1];
      assert rest[j] == b[4 * i] && rest[j + 1] == b[4 * i + 1];
      assert rest[j + 2] == b[4 * i + 2] && rest[j + 3] == b[4 * i + 3];
    }
  }

  /** swapin */
  method SwapIn(b: seq<U8>) returns (x: array<U32>)
    requires |b| == 32
    ensures fresh(x) && x.Length == 8 && V(x) == LeValue(b)
  {
    x := new U32[8];
    var i := 0;
    while i < 8
      invariant 0 <= i <= 8 && x[..i] == ToLimbs(b)[..i]
    {
      ToLimbsAt(b, i);
      x[i] := Load32(b[4 * i], b[4 * i + 1], b[4 * i + 2], b[4 * i + 3]);
      i := i + 1;
    }
    assert x[..] == ToLimbs(b);
    ToLimbsValue(b);
  }

  function FromLimbs(s: seq<U32>): (b: seq<U8>)
    ensures |b| == 4 * |s|
  {
    if |s| == 0 then [] else FromLimbs(s[..|s| - 1]) + Store32(s[|s| - 1])
  }

  lemma {:induction false} FromLimbsValue(s: seq<U32>)
    ensures LeValue(FromLimbs(s)) == Val(s)
  {
    if |s| > 0 {
      var t, w := s[..|s| - 1], s[|s| - 1];
      FromLimbsValue(t);
      StoreAppends(FromLimbs(t), w, |t|);
      assert s == t + [w];
      ValAppend(t, w);
    }
  }

  lemma {:induction false} StoreAppends(b: seq<U8>, w: U32, n: nat)
    requires |b| == 4 * n
    ensures LeValue(b + Store32(w)) == LeValue(b) + Shl(w, n)
  {
    LeValueStore32(w, Store32(w));
    ConcatWord(b, Store32(w), w, n);
  }

  lemma {:induction false} ConcatWord(b: seq<U8>, t: seq<U8>, w: int, n: nat)
    requires |b| == 4 * n && LeValue(t) == w
    ensures LeValue(b + t) == LeValue(b) + Shl(w, n)
  {
    LeValueConcat(b, t);
    ShlIsPow2(w, n);
  }

  lemma {:induction false} ShlIsPow2(x: int, n: nat)
    ensures Shl(x, n) == Pow2(8 * (4 * n)) * x
  {
    if n == 0 {
      assert Pow2(0) * x == x;
    } else {
      ShlIsPow2(x, n - 1);
      Pow2Add(32, 8 * (4 * (n - 1)));
      Pow2At(32);
      Regroup3(B, Pow2(8 * (4 * (n - 1))), x);
    }
  }

  lemma Regroup3(a: int, b: int, c: int)
    ensures a * (b * c) == (a * b) * c
  {
  }

  /** swapout */
  method SwapOut(x: array<U32>) returns (out: seq<U8>)
    requires x.Length == 8
    ensures |out| == 32 && LeValue(out) == V(x)
  {
    out := [];
    var i := 0;
    while i < 8
      invariant 0 <= i <= 8 && out == FromLimbs(x[..i])
    {
      assert x[..i + 1][..i] == x[..i];
      out := out + Store32(x[i]);
      i := i + 1;
    }
    assert x[..8] == x[..];
    FromLimbsValue(x[..]);
  }

  /** The value x25519 returns in `out`: x2 / z2 for the ladder's (x2 : z2), with 0 for z2 = 0. */
  function Result(scalar: seq<U8>, u: seq<U8>, clamp: bool, e: nat): nat {
    var s := Ladder(LeValue(u) % P, ScalarBits(Scalar(scalar, clamp)));
    FMul(FPow(s.z2, e), s.x2)
  }

  /** x25519_core: the registers start as (1, 0, x1, 1). */
  method Core(scalar: seq<U8>, u: seq<U8>, clamp: bool) returns (xs: seq<array<U32>>)
    requires |scalar| == 32 && |u| == 32
    ensures Distinct(xs) && fresh(xs[0]) && fresh(xs[2]) && fresh(xs[3]) && fresh(xs[4])
    ensures State(R(xs[0]), R(xs[1]), R(xs[2]), R(xs[3]))
         == Ladder(LeValue(u) % P, ScalarBits(Scalar(scalar, clamp)))
  {
    var x1 := SwapIn(u);
    var x2 := Small(1);
    var z2 := Small(0);
    var x3 := SwapIn(u);
    var z3 := Small(1);
    var t1 := new U32[8];
    LadderLoop(x2, z2, x3, z3, t1, x1, scalar, clamp);
    xs := [x2, z2, x3, z3, t1];
  }

  method Small(n: U32) returns (x: array<U32>)
    ensures fresh(x) && x.Length == 8 && V(x) == n
  {
    x := new U32[8](_ => 0);
    x[0] := n;
    ValZeros(x[1..]);
    assert x[..][1..] == x[1..];
  }

  /** x25519. `e` is the exponent of the inversion, P - 2. */
  method ScalarMult(scalar: seq<U8>, u: seq<U8>, clamp: bool) returns (out: seq<U8>, ret: int, ghost e: nat)
    requires |scalar| == 32 && |u| == 32
    ensures e == P - 2 && |out| == 32
    ensures LeValue(out) == Result(scalar, u, clamp, e) < P
    ensures ret == if clamp && LeValue(out) == 0 then -1 else 0
  {
    var xs := Core(scalar, u, clamp);
    ghost var s := Ladder(LeValue(u) % P, ScalarBits(Scalar(scalar, clamp)));
    e := PowerChain(xs);
    Mul1(xs[0], xs[3]);
    var r := Canon(xs[0]);
    out := SwapOut(xs[0]);
    ret := if !clamp then 0 else if r >= 0x8000_0000 then r - B else r;
  }
}
