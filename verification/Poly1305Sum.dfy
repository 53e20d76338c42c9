/** Poly1305 in closed form: the message as the coefficients of a polynomial in r. */
module Poly1305Sum {
  import opened Bits
  import opened Modular
  import opened LittleEndian
  import opened Poly1305Spec

  function Power(r: nat, k: nat): nat {
    if k == 0 then 1 else Power(r, k - 1) * r
  }

  /** Block i of a message: sixteen bytes, or what is left. */
  function Block(m: seq<U8>, i: nat): (b: seq<U8>)
    requires 16 * i < |m|
    ensures 0 < |b| <= 16
  {
    if 16 * i + 16 <= |m| then m[16 * i..16 * i + 16] else m[16 * i..]
  }

  /** A block as a number, with one more bit set right above its last byte. */
  function Coefficient(m: seq<U8>, i: nat): nat
    requires 16 * i < |m|
  {
    LeValue(Block(m, i)) + Pow2(8 * |Block(m, i)|)
  }

  function Product(c: nat, p: nat): nat {
    c * p
  }

  /** The sum over i < k of coefficient i times r^(n - i). */
  function Sum(m: seq<U8>, r: nat, k: nat, n: nat): nat
    requires k <= n && 16 * k < |m| + 16
  {
    if k == 0 then 0 else Sum(m, r, k - 1, n) + Product(Coefficient(m, k - 1), Power(r, n - k + 1))
  }

  lemma {:induction false} SumScales(m: seq<U8>, r: nat, k: nat, n: nat)
    requires k <= n && 16 * k < |m| + 16
    ensures Sum(m, r, k, n + 1) == Sum(m, r, k, n) * r
    decreases k
  {
    if k > 0 {
      SumScales(m, r, k - 1, n);
      Scaled(Sum(m, r, k - 1, n), Coefficient(m, k - 1), Power(r, n - k + 1), r);
    }
  }

  lemma Scaled(s: nat, c: nat, p: nat, r: nat)
    ensures s * r + Product(c, p * r) == (s + Product(c, p)) * r
  {
  }

  lemma {:induction false} MarkedValue(b: seq<U8>)
    ensures LeValue(b + [1]) == LeValue(b) + Pow2(8 * |b|)
  {
    var one := [1];
    assert one[1..] == [] && LeValue(one) == 1;
    LeValueConcat(b, one);
    TimesOne(Pow2(8 * |b|), LeValue(one));
  }

  lemma TimesOne(x: int, one: int)
    requires one == 1
    ensures x * one == x
  {
  }

  /** Horner's rule, one coefficient at a time. */
  function Fed(s: nat, c: nat, r: nat): nat {
    s * r + c * r
  }

  /** One block more: everything so far is multiplied by r once more. */
  lemma AbsorbAdds(acc: nat, q: nat, r: nat, s: nat, b: seq<U8>, c: nat) returns (q': nat)
    requires s == acc + P * q && c == LeValue(b) + Pow2(8 * |b|)
    ensures Fed(s, c, r) == Absorb(acc, r, b) + P * q'
  {
    MarkedValue(b);
    q' := MixIs(acc, q, r, s, c);
  }

  lemma MixIs(acc: nat, q: nat, r: nat, s: nat, c: nat) returns (q': nat)
    requires s == acc + P * q
    ensures Fed(s, c, r) == Mix(acc, c, r) + P * q'
  {
    var x := (acc + c) * r;
    TimesIsProduct(acc + c, r);
    Shifted(s, acc, c, r, q);
    q' := q * r + x / P;
  }

  lemma Shifted(s: nat, acc: int, c: nat, r: nat, k: int)
    requires s == acc + P * k
    ensures Fed(s, c, r) == (acc + c) * r + P * (k * r)
  {
    Distribute(acc, c, P * k, r);
    Regroup(P, k, r);
  }

  lemma Distribute(x: int, y: int, z: int, r: int)
    ensures (x + z) * r + y * r == (x + y) * r + z * r
  {
  }

  lemma Regroup(x: int, y: int, z: int)
    ensures (x * y) * z == x * (y * z)
  {
  }

  lemma OneBlock(acc: nat, r: nat, b: seq<U8>)
    requires 0 < |b| <= 16
    ensures Accumulate(acc, r, b) == Absorb(acc, r, b)
  {
    if |b| == 16 { assert b[..16] == b && b[16..] == []; }
  }

  lemma NextBlock(r: nat, a: seq<U8>, b: seq<U8>, s: nat, q: nat, c: nat) returns (q': nat)
    requires |a| % 16 == 0 && 0 < |b| <= 16 && s == Accumulate(0, r, a) + P * q && c == LeValue(b) + Pow2(8 * |b|)
    ensures Fed(s, c, r) == Accumulate(0, r, a + b) + P * q'
  {
    var acc := Accumulate(0, r, a);
    AccumulateConcat(0, r, a, b);
    OneBlock(acc, r, b);
    q' := AbsorbAdds(acc, q, r, s, b, c);
  }

  lemma NextTerm(m: seq<U8>, r: nat, k: nat, s: nat)
    requires 16 * k < |m| && s == Sum(m, r, k, k)
    ensures Sum(m, r, k + 1, k + 1) == Fed(s, Coefficient(m, k), r)
  {
    SumScales(m, r, k, k);
    FirstPower(r);
  }

  /** The message up to block k. */
  function Before(m: seq<U8>, k: nat): seq<U8> {
    if 16 * k <= |m| then m[..16 * k] else m
  }

  lemma BeforeNext(m: seq<U8>, k: nat)
    requires 16 * k < |m|
    ensures Before(m, k + 1) == Before(m, k) + Block(m, k) && |Before(m, k)| % 16 == 0
  {
  }

  lemma {:induction false} Horner(m: seq<U8>, r: nat, k: nat) returns (q: nat)
    requires 16 * k < |m| + 16
    ensures Sum(m, r, k, k) == Accumulate(0, r, Before(m, k)) + P * q
  {
    if k == 0 {
      q := 0;
    } else {
      q := Horner(m, r, k - 1);
      q := HornerStep(m, r, k - 1, q, Sum(m, r, k - 1, k - 1), Sum(m, r, k, k));
    }
  }

  lemma HornerStep(m: seq<U8>, r: nat, k: nat, q: nat, s: nat, t: nat) returns (q': nat)
    requires 16 * k < |m| && s == Accumulate(0, r, Before(m, k)) + P * q
    requires s == Sum(m, r, k, k) && t == Sum(m, r, k + 1, k + 1)
    ensures t == Accumulate(0, r, Before(m, k + 1)) + P * q'
  {
    BeforeNext(m, k);
    NextTerm(m, r, k, s);
    q' := NextBlock(r, Before(m, k), Block(m, k), s, q, Coefficient(m, k));
  }

  lemma {:induction false} AccumulateBound(acc: nat, r: nat, m: seq<U8>)
    requires acc < P
    ensures Accumulate(acc, r, m) < P
    decreases |m|
  {
    if |m| >= 16 { AccumulateBound(Absorb(acc, r, m[..16]), r, m[16..]); }
  }

  lemma FirstPower(r: nat)
    ensures Power(r, 1) == r
  {
    assert Power(r, 0) == 1;
  }

  /** With n blocks: the sum of (block i and a one bit above it) * r^(n - i) over all i, modulo 2^130 - 5, plus s,
      modulo 2^128. */
  function ClosedForm(m: seq<U8>, r: nat, s: nat): nat {
    var n := (|m| + 15) / 16;
    (Sum(m, r, n, n) % P + s) % TWO128
  }

  /** The tag of section 2.5 of RFC 8439: with n blocks, the clamped first half of the key for r and the second half
      for s, it is s plus the polynomial at r modulo 2^130 - 5, modulo 2^128. */
  lemma TagIsSum(key: seq<U8>, m: seq<U8>)
    requires |key| == 32
    ensures var r, s := And(LeValue(key[..16]), 0x0FFF_FFFC_0FFF_FFFC_0FFF_FFFC_0FFF_FFFF), LeValue(key[16..]);
            |Tag(key, m)| == 16 && LeValue(Tag(key, m)) == ClosedForm(m, r, s)
  {
    var r, s := And(LeValue(key[..16]), CLAMP), LeValue(key[16..]);
    var acc := Accumulate(0, r, m);
    EmitValue(acc, s, 16);
    ClosedIs(m, r, s, acc);
  }

  lemma ClosedIs(m: seq<U8>, r: nat, s: nat, acc: nat)
    requires acc == Accumulate(0, r, m)
    ensures ClosedForm(m, r, s) == (acc + s) % TWO128
  {
    var n := (|m| + 15) / 16;
    var q := Horner(m, r, n);
    assert Before(m, n) == m;
    AccumulateBound(0, r, m);
    RemainderIs(Sum(m, r, n, n), P, q, acc);
  }

  lemma EmitValue(acc: nat, pad: nat, n: nat)
    requires n == 16
    ensures |Emit(acc, pad)| == n && LeValue(Emit(acc, pad)) == (acc + pad) % TWO128
  {
    var v := (acc + pad) % TWO128;
    LeValueOfBytes(v, n);
    Pow2At(8 * n);
    RemainderIs(v, TWO128, 0, v);
  }
}
