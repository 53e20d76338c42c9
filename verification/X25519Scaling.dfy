/** How the 256-step ladder with delayed swaps relates to simpler ladders. */
module LadderTheory {
  import opened Modular
  import opened Bits
  import opened LittleEndian
  import opened Field25519
  import opened FieldPowers
  import opened LadderSpec
  import X25519

  /** The textbook ladder: swap, step, swap back, for every bit from the top down to bit i. */
  function Plain(x1: nat, bits: seq<bool>, i: nat): State
    requires i <= |bits|
    decreases |bits| - i
  {
    if i == |bits| then State(1, 0, x1, 1)
    else CSwap(bits[i], Step(x1, CSwap(bits[i], Plain(x1, bits, i + 1))))
  }

  /** Merging each swap-back with the next swap changes nothing. */
  lemma {:induction false} DelayedSwaps(x1: nat, bits: seq<bool>, i: nat)
    requires i <= |bits|
    ensures var (s, swap) := Run(x1, bits, i); CSwap(swap, s) == Plain(x1, bits, i)
    decreases |bits| - i
  {
    if i < |bits| {
      DelayedSwaps(x1, bits, i + 1);
      var (s, swap) := Run(x1, bits, i + 1);
      assert CSwap(swap != bits[i], s) == CSwap(bits[i], CSwap(swap, s));
    }
  }

  lemma LadderIsPlain(x1: nat, bits: seq<bool>)
    ensures Ladder(x1, bits) == Plain(x1, bits, 0)
  {
    DelayedSwaps(x1, bits, 0);
  }

  /** A product in the field, by way of the product in the integers. */
  lemma FMulResidue(t: int, a: nat, ta: int, r: nat)
    requires ta == t * a && r == t % P
    ensures FMul(r, a) == ta % P
  {
    FMulIsProduct(r, a);
    ModMulLeft(t, a);
  }

  lemma FMulValue(t: int, a: nat, ta: int)
    requires ta == t * a
    ensures FMul(t, a) == ta % P
  {
    FMulIsProduct(t, a);
  }

  lemma Distribute(x: int, z: int, a: int)
    ensures (x + z) * a == x * a + z * a && (x - z) * a == x * a - z * a
  {
  }

  lemma FMulAddRight(x: nat, z: nat, a: nat)
    ensures FAdd(FMul(x, a), FMul(z, a)) == FMul(FAdd(x, z), a)
  {
    FMulOfSum(x, z, a, x * a, z * a);
  }

  lemma FMulSubRight(x: nat, z: nat, a: nat)
    ensures FSub(FMul(x, a), FMul(z, a)) == FMul(FSub(x, z), a)
  {
    FMulOfSum(x, z, a, x * a, z * a);
  }

  lemma FMulOfSum(x: nat, z: nat, a: nat, xa: int, za: int)
    requires xa == x * a && za == z * a
    ensures FAdd(FMul(x, a), FMul(z, a)) == FMul(FAdd(x, z), a)
    ensures FSub(FMul(x, a), FMul(z, a)) == FMul(FSub(x, z), a)
  {
    FMulValue(x, a, xa);
    FMulValue(z, a, za);
    Distribute(x, z, a);
    FMulResidue(x + z, a, xa + za, FAdd(x, z));
    FMulResidue(x - z, a, xa - za, FSub(x, z));
    FAddCongruent(xa, za);
    FSubCongruent(xa, za);
  }

  lemma FMulPairs(x: nat, a: nat, y: nat, b: nat)
    ensures FMul(FMul(x, a), FMul(y, b)) == FMul(FMul(x, y), FMul(a, b))
  {
    FMulAssociates(x, a, FMul(y, b));
    FMulAssociates(a, y, b);
    FMulCommutes(a, y);
    FMulAssociates(y, a, b);
    FMulAssociates(x, y, FMul(a, b));
  }

  /** t is s with each point's projective coordinates multiplied by a factor of its own. */
  predicate Scaled(s: State, t: State, a: nat, b: nat) {
    t.x2 == FMul(s.x2, a) && t.z2 == FMul(s.z2, a) && t.x3 == FMul(s.x3, b) && t.z3 == FMul(s.z3, b)
  }

  /** A step scales the doubled point by a^4 and the summed point by (ab)^2. */
  lemma StepScales(x1: nat, s: State, t: State, a: nat, b: nat)
    requires Scaled(s, t, a, b)
    ensures Scaled(Step(x1, s), Step(x1, t), Square(Square(a)), Square(FMul(b, a)))
  {
    DoubledScales(s, t, a, b, Square(Square(a)));
    SummedScales(x1, s, t, a, b, Square(FMul(b, a)));
  }

  lemma DoubledScales(s: State, t: State, a: nat, b: nat, a4: nat)
    requires Scaled(s, t, a, b) && a4 == Square(Square(a))
    ensures FMul(AA(t), BB(t)) == FMul(FMul(AA(s), BB(s)), a4)
    ensures FMul(E(t), FAdd(AA(t), FMul(121665, E(t)))) == FMul(FMul(E(s), FAdd(AA(s), FMul(121665, E(s)))), a4)
  {
    var a2 := Square(a);
    SquaresScale(s, t, a, b, a2);
    FMulPairs(AA(s), a2, BB(s), a2);
    FMulSubRight(AA(s), BB(s), a2);
    FMulAssociates(121665, E(s), a2);
    var m := FMul(121665, E(s));
    FMulAddRight(AA(s), m, a2);
    FMulPairs(E(s), a2, FAdd(AA(s), m), a2);
  }

  lemma SquaresScale(s: State, t: State, a: nat, b: nat, a2: nat)
    requires Scaled(s, t, a, b) && a2 == Square(a)
    ensures AA(t) == FMul(AA(s), a2) && BB(t) == FMul(BB(s), a2)
  {
    FMulAddRight(s.x2, s.z2, a);
    FMulSubRight(s.x2, s.z2, a);
    FMulPairs(Sum(s), a, Sum(s), a);
    FMulPairs(Diff(s), a, Diff(s), a);
  }

  lemma CrossScales(s: State, t: State, a: nat, b: nat, ab: nat)
    requires Scaled(s, t, a, b) && ab == FMul(b, a)
    ensures DA(t) == FMul(DA(s), ab) && CB(t) == FMul(CB(s), ab)
  {
    FMulAddRight(s.x2, s.z2, a);
    FMulSubRight(s.x2, s.z2, a);
    FMulAddRight(s.x3, s.z3, b);
    FMulSubRight(s.x3, s.z3, b);
    FMulPairs(FSub(s.x3, s.z3), b, Sum(s), a);
    FMulPairs(FAdd(s.x3, s.z3), b, Diff(s), a);
  }

  lemma SummedScales(x1: nat, s: State, t: State, a: nat, b: nat, c2: nat)
    requires Scaled(s, t, a, b) && c2 == Square(FMul(b, a))
    ensures Square(FAdd(DA(t), CB(t))) == FMul(Square(FAdd(DA(s), CB(s))), c2)
    ensures FMul(x1, Square(FSub(DA(t), CB(t)))) == FMul(FMul(x1, Square(FSub(DA(s), CB(s)))), c2)
  {
    var ab := FMul(b, a);
    CrossScales(s, t, a, b, ab);
    FMulAddRight(DA(s), CB(s), ab);
    FMulSubRight(DA(s), CB(s), ab);
    FMulPairs(FAdd(DA(s), CB(s)), ab, FAdd(DA(s), CB(s)), ab);
    FMulPairs(FSub(DA(s), CB(s)), ab, FSub(DA(s), CB(s)), ab);
    FMulAssociates(x1, Square(FSub(DA(s), CB(s))), c2);
  }

  lemma FMulSmall(x: nat)
    requires x < P
    ensures FMul(x, 1) == x && FMul(1, x) == x && FMul(0, x) == 0 && FMul(x, 0) == 0
  {
    FMulOne(x);
    FMulCommutes(x, 1);
    FMulCommutes(x, 0);
  }

  /** A zero bit at the very top turns (1 : 0), (x1 : 1) into (1 : 0), (4 x1^2 : 4 x1). */
  lemma FirstStep(x1: nat, b: nat)
    requires x1 < P && b == FMul(x1, 4)
    ensures Scaled(State(1, 0, x1, 1), Step(x1, State(1, 0, x1, 1)), 1, b)
  {
    FirstDoubled(x1);
    FirstSummed(x1, b);
    FMulSmall(1);
    FMulSmall(b);
  }

  lemma FirstDoubled(x1: nat)
    ensures var s := State(1, 0, x1, 1);
            FMul(AA(s), BB(s)) == 1 && FMul(E(s), FAdd(AA(s), FMul(121665, E(s)))) == 0
  {
    var s := State(1, 0, x1, 1);
    assert Sum(s) == 1 && Diff(s) == 1;
    FMulSmall(1);
    assert E(s) == 0;
    FMulSmall(FAdd(AA(s), FMul(121665, E(s))));
  }

  lemma FirstSummed(x1: nat, b: nat)
    requires x1 < P && b == FMul(x1, 4)
    ensures var s := State(1, 0, x1, 1);
            Square(FAdd(DA(s), CB(s))) == FMul(x1, b) && FMul(x1, Square(FSub(DA(s), CB(s)))) == b
  {
    var s := State(1, 0, x1, 1);
    var d, c := FSub(x1, 1), FAdd(x1, 1);
    FMulSmall(d);
    FMulSmall(c);
    assert DA(s) == d && CB(s) == c;
    var two := 2;
    SumOfNeighbours(x1, two);
    DifferenceOfNeighbours(x1);
    SquareOfTwo(two);
    SquareOfMultiple(x1, two, 4);
    SquareOfMinusTwo(P - 2);
  }

  lemma SquareOfMultiple(x: nat, m: nat, n: nat)
    requires Square(m) == n
    ensures Square(FMul(x, m)) == FMul(x, FMul(x, n))
  {
    FMulPairs(x, m, x, m);
    FMulAssociates(x, x, n);
  }

  lemma SquareOfTwo(two: nat)
    requires two == 2
    ensures Square(two) == 4
  {
    FMulValue(two, two, 4);
  }

  lemma SquareOfMinusTwo(m: nat)
    requires m == P - 2
    ensures Square(m) == 4
  {
    FMulIsProduct(m, m);
    assert m * m == 4 + P * (P - 4);
    Congruent(m * m, 4, P - 4, P);
  }

  lemma SumOfNeighbours(x: nat, two: nat)
    requires x < P && two == 2
    ensures FAdd(FSub(x, 1), FAdd(x, 1)) == FMul(x, two)
  {
    FAddCongruent(x - 1, x + 1);
    FMulValue(x, two, (x - 1) + (x + 1));
  }

  lemma DifferenceOfNeighbours(x: int)
    ensures FSub(FSub(x, 1), FAdd(x, 1)) == P - 2
  {
    FSubCongruent(x - 1, x + 1);
    assert (x - 1) - (x + 1) == -2;
  }

  /** With the top bit clear, the longer ladder stays a copy of the shorter one, scaled by powers of 4 x1. */
  lemma {:induction false} ExtraStepScales(x1: nat, bits: seq<bool>, k: nat, w: nat) returns (i: nat, j: nat)
    requires x1 < P && |bits| > 0 && !bits[|bits| - 1] && k < |bits| && w == FMul(x1, 4)
    ensures Scaled(Plain(x1, bits[..|bits| - 1], k), Plain(x1, bits, k), FPow(w, i), FPow(w, j))
    decreases |bits| - k
  {
    var short := bits[..|bits| - 1];
    if k == |bits| - 1 {
      i, j := 0, 1;
      FirstStep(x1, w);
      FirstPower(w);
    } else {
      i, j := ExtraStepScales(x1, bits, k + 1, w);
      var s, t := CSwap(bits[k], Plain(x1, short, k + 1)), CSwap(bits[k], Plain(x1, bits, k + 1));
      if bits[k] { i, j := j, i; }
      StepScales(x1, s, t, FPow(w, i), FPow(w, j));
      PowersOfStep(w, i, j);
      i, j := 4 * i, 2 * (j + i);
      if bits[k] { i, j := j, i; }
    }
  }

  lemma FirstPower(w: nat)
    requires w < P
    ensures FPow(w, 0) == 1 && FPow(w, 1) == w
  {
    FMulSmall(w);
  }

  lemma PowersOfStep(w: nat, i: nat, j: nat)
    ensures Square(Square(FPow(w, i))) == FPow(w, 4 * i)
    ensures Square(FMul(FPow(w, j), FPow(w, i))) == FPow(w, 2 * (j + i))
  {
    SquaredPower(w, i, 2 * i);
    SquaredPower(w, 2 * i, 4 * i);
    FPowAdd(w, j, i);
    SquaredPower(w, j + i, 2 * (j + i));
  }

  lemma SquaredPower(w: nat, i: nat, twice: nat)
    requires twice == i + i
    ensures Square(FPow(w, i)) == FPow(w, twice)
  {
    FPowAdd(w, i, i);
  }

  /** The ladder that runs one step more, over a clear top bit, ends in the same coordinates, both multiplied by a
      power of 4 x1. */
  lemma TopBitClear(x1: nat, bits: seq<bool>) returns (e: nat)
    requires x1 < P && |bits| > 0 && !bits[|bits| - 1]
    ensures var s, t, k := Ladder(x1, bits[..|bits| - 1]), Ladder(x1, bits), FPow(FMul(x1, 4), e);
            t.x2 == FMul(s.x2, k) && t.z2 == FMul(s.z2, k) && FMul(t.x2, s.z2) == FMul(s.x2, t.z2)
  {
    LadderIsPlain(x1, bits);
    LadderIsPlain(x1, bits[..|bits| - 1]);
    var f;
    e, f := ExtraStepScales(x1, bits, 0, FMul(x1, 4));
    var s, k := Ladder(x1, bits[..|bits| - 1]), FPow(FMul(x1, 4), e);
    FMulAssociates(s.x2, k, s.z2);
    FMulCommutes(k, s.z2);
  }

  lemma {:induction false} FPowProduct(x: nat, y: nat, e: nat)
    ensures FPow(FMul(x, y), e) == FMul(FPow(x, e), FPow(y, e))
    decreases e
  {
    if e == 0 {
      FMulSmall(1);
    } else {
      FPowProduct(x, y, e - 1);
      FMulPairs(FPow(x, e - 1), FPow(y, e - 1), x, y);
    }
  }

  lemma {:induction false} PowersOfOne(e: nat)
    ensures FPow(1, e) == 1
    decreases e
  {
    if e > 0 {
      PowersOfOne(e - 1);
      FMulSmall(1);
    }
  }

  /** When x1 has an inverse y, so has every power of 4 x1. */
  lemma UnitPower(x1: nat, y: nat, e: nat) returns (f: nat)
    requires FMul(x1, y) == 1
    ensures FMul(FPow(FMul(x1, 4), e), f) == 1
  {
    var quarter, four := (3 * P + 1) / 4, 4;
    FMulIsProduct(four, quarter);
    Congruent(four * quarter, 1, 3, P);
    FMulPairs(x1, four, y, quarter);
    FMulSmall(1);
    var w, v := FMul(x1, four), FMul(y, quarter);
    assert FMul(w, v) == 1;
    f := FPow(v, e);
    FPowProduct(w, v, e);
    PowersOfOne(e);
  }

  /** Clamping clears bit 255. */
  lemma ClampedTopBit(scalar: seq<U8>)
    requires |scalar| == 32
    ensures !ScalarBits(Scalar(scalar, true))[255]
  {
    var bytes := seq(|scalar|, i requires 0 <= i < |scalar| => ClampByte(scalar[i], i));
    LeValueBit(bytes, 255);
    BitIsShift(bytes[31], 7);
    Pow2Small(7);
  }

  /** For a clamped scalar the 256 steps end in the coordinates of the 255 steps of section 5 of RFC 7748, both
      multiplied by k. When x1 has an inverse y, so has k: each ladder's end is a multiple of the other's, which makes
      them the same projective point. */
  lemma ClampedLadder(x1: nat, y: nat, scalar: seq<U8>) returns (k: nat, f: nat)
    requires x1 < P && |scalar| == 32
    ensures var bits := ScalarBits(Scalar(scalar, true));
            var s, t := Ladder(x1, bits[..255]), Ladder(x1, bits);
            && t.x2 == FMul(s.x2, k) && t.z2 == FMul(s.z2, k) && FMul(t.x2, s.z2) == FMul(s.x2, t.z2)
            && (FMul(x1, y) == 1 ==> FMul(k, f) == 1 && s.x2 == FMul(t.x2, f) && s.z2 == FMul(t.z2, f))
  {
    var bits := ScalarBits(Scalar(scalar, true));
    ClampedTopBit(scalar);
    var e := TopBitClear(x1, bits);
    k, f := FPow(FMul(x1, 4), e), 0;
    if FMul(x1, y) == 1 {
      f := UnitPower(x1, y, e);
      var s := Ladder(x1, bits[..255]);
      LadderReduced(x1, bits[..255]);
      ScaleBack(s.x2, k, f);
      ScaleBack(s.z2, k, f);
    }
  }

  lemma ScaleBack(x: nat, k: nat, f: nat)
    requires x < P && FMul(k, f) == 1
    ensures FMul(FMul(x, k), f) == x
  {
    FMulAssociates(x, k, f);
    FMulSmall(x);
  }

  lemma {:induction false} PlainReduced(x1: nat, bits: seq<bool>, i: nat)
    requires x1 < P && i <= |bits|
    ensures var s := Plain(x1, bits, i); s.x2 < P && s.z2 < P && s.x3 < P && s.z3 < P
    decreases |bits| - i
  {
    if i < |bits| { PlainReduced(x1, bits, i + 1); }
  }

  lemma LadderReduced(x1: nat, bits: seq<bool>)
    requires x1 < P
    ensures var s := Ladder(x1, bits); s.x2 < P && s.z2 < P
  {
    LadderIsPlain(x1, bits);
    PlainReduced(x1, bits, 0);
  }

  /** What x25519 returns, with e for 2^255 - 21, is therefore the 255-step result times k^(e + 1); the two are equal
      whenever that power is 1. */
  lemma ClampedResult(scalar: seq<U8>, u: seq<U8>, e: nat) returns (i: nat)
    requires |scalar| == 32
    ensures var x1, bits := LeValue(u) % P, ScalarBits(Scalar(scalar, true));
            var s := Ladder(x1, bits[..255]);
            X25519.Result(scalar, u, true, e) == FMul(FMul(FPow(s.z2, e), s.x2), FPow(FPow(FMul(x1, 4), i), e + 1))
  {
    var x1, bits := LeValue(u) % P, ScalarBits(Scalar(scalar, true));
    ClampedTopBit(scalar);
    i := TopBitClear(x1, bits);
    var s, k := Ladder(x1, bits[..255]), FPow(FMul(x1, 4), i);
    FPowProduct(s.z2, k, e);
    FMulPairs(FPow(s.z2, e), FPow(k, e), s.x2, k);
  }

  /** Section 5 of RFC 7748 masks bit 255 of the u-coordinate; the code reduces all 256 bits. The two
      agree exactly on the encodings whose top bit is clear. */
  lemma UnmaskedCoordinate(u: nat)
    requires u < TWO256
    ensures u % P == (u % TWO255) % P <==> u < TWO255
  {
    if u >= TWO255 {
      var v := u - TWO255;
      assert u % TWO255 == v;
      assert u == v + 19 + P;
      Congruent(u, v + 19, 1, P);
    }
  }

  /** What x25519 returns for a coordinate with bit 255 set is what it returns for the masked coordinate plus 19. */
  lemma UnmaskedResult(scalar: seq<U8>, u: seq<U8>, v: seq<U8>, clamp: bool, e: nat)
    requires |scalar| == 32 && |u| == 32 && |v| == 32
    requires LeValue(v) == if LeValue(u) < TWO255 then LeValue(u) else LeValue(u) - TWO255 + 19
    ensures X25519.Result(scalar, u, clamp, e) == X25519.Result(scalar, v, clamp, e)
  {
    var x, y := LeValue(u), LeValue(v);
    if x >= TWO255 {
      assert x == y + P;
      Congruent(x, y, 1, P);
    }
  }
}
