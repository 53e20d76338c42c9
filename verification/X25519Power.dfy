/** Powers in the field, and the thirteen-step chain that raises to the power 2^255 - 21. */
module FieldPowers {
  import opened Modular
  import opened Bits
  import opened Field25519

  function FPow(x: nat, e: nat): (r: nat)
    ensures r < P
  {
    if e == 0 then 1 else FMul(FPow(x, e - 1), x)
  }

  lemma ModMulLeft(a: int, z: int)
    ensures ((a % P) * z) % P == (a * z) % P
  {
    var q, r := a / P, a % P;
    assert a == r + P * q;
    assert a * z == r * z + P * (q * z);
    Congruent(a * z, r * z, q * z, P);
  }

  lemma FMulNested(x: nat, y: nat, z: nat)
    ensures FMul(FMul(x, y), z) == (x * y * z) % P
  {
    FMulIsProduct(x, y);
    FMulIsProduct(FMul(x, y), z);
    ModMulLeft(x * y, z);
  }

  lemma FMulAssociates(x: nat, y: nat, z: nat)
    ensures FMul(FMul(x, y), z) == FMul(x, FMul(y, z))
  {
    FMulNested(x, y, z);
    FMulNested(y, z, x);
    FMulCommutes(x, FMul(y, z));
    Rotate(x, y, z);
  }

  lemma Rotate(x: int, y: int, z: int)
    ensures x * y * z == y * z * x
  {
  }

  lemma FMulOne(x: nat)
    requires x < P
    ensures FMul(x, 1) == x
  {
    FMulIsProduct(x, 1);
  }

  lemma {:induction false} FPowAdd(x: nat, m: nat, n: nat)
    ensures FMul(FPow(x, m), FPow(x, n)) == FPow(x, m + n)
  {
    if n == 0 {
      FMulOne(FPow(x, m));
    } else {
      FPowAdd(x, m, n - 1);
      FMulAssociates(FPow(x, m), FPow(x, n - 1), x);
    }
  }

  datatype ChainStep = ChainStep(a: nat, c: nat, n: nat)

  /** The table of lines 275-289: target register, multiplier register, number of squarings. */
  const STEPS: seq<ChainStep> := [
    ChainStep(2, 1, 1), ChainStep(2, 1, 1), ChainStep(4, 2, 3), ChainStep(2, 4, 6), ChainStep(3, 1, 1),
    ChainStep(3, 2, 12), ChainStep(4, 3, 25), ChainStep(2, 3, 25), ChainStep(2, 4, 50), ChainStep(3, 2, 125),
    ChainStep(3, 1, 2), ChainStep(3, 1, 2), ChainStep(3, 1, 1)]

  /** The exponents of z2 held by registers 1 to 4 (-1: not a power yet), and the last one written. */
  datatype Exponents = Exponents(e1: int, e2: int, e3: int, e4: int, prev: nat) {
    function At(k: nat): int {
      if k == 1 then e1 else if k == 2 then e2 else if k == 3 then e3 else if k == 4 then e4 else -1
    }

    function After(s: ChainStep): Exponents {
      var e := At(prev) * Pow2(s.n) + At(s.c);
      Exponents(e1, if s.a == 2 then e else e2, if s.a == 3 then e else e3, if s.a == 4 then e else e4, s.a)
    }
  }

  const K12: int := 0xFFF
  const K13: int := 0x1FFF
  const K25: int := 0x1FF_FFFF
  const K50: int := 0x3_FFFF_FFFF_FFFF
  const K75: int := 0x7FF_FFFF_FFFF_FFFF_FFFF
  const K125: int := 0x1FFF_FFFF_FFFF_FFFF_FFFF_FFFF_FFFF_FFFF
  const K250: int := 0x3FF_FFFF_FFFF_FFFF_FFFF_FFFF_FFFF_FFFF_FFFF_FFFF_FFFF_FFFF_FFFF_FFFF_FFFF_FFFF
  const K252: int := 0xFFF_FFFF_FFFF_FFFF_FFFF_FFFF_FFFF_FFFF_FFFF_FFFF_FFFF_FFFF_FFFF_FFFF_FFFF_FFFD
  const K254: int := 0x3FFF_FFFF_FFFF_FFFF_FFFF_FFFF_FFFF_FFFF_FFFF_FFFF_FFFF_FFFF_FFFF_FFFF_FFFF_FFF5
  const K255: int := 0x7FFF_FFFF_FFFF_FFFF_FFFF_FFFF_FFFF_FFFF_FFFF_FFFF_FFFF_FFFF_FFFF_FFFF_FFFF_FFEB

  /** The registers after i steps: each step finds powers in the registers it reads. */
  function Table(i: nat): Exponents {
    if i == 0 then Exponents(1, -1, -1, -1, 1)
    else if i == 1 then Exponents(1, 3, -1, -1, 2)
    else if i == 2 then Exponents(1, 7, -1, -1, 2)
    else if i == 3 then Exponents(1, 7, -1, 63, 4)
    else if i == 4 then Exponents(1, K12, -1, 63, 2)
    else if i == 5 then Exponents(1, K12, K13, 63, 3)
    else if i == 6 then Exponents(1, K12, K25, 63, 3)
    else if i == 7 then Exponents(1, K12, K25, K50, 4)
    else if i == 8 then Exponents(1, K75, K25, K50, 2)
    else if i == 9 then Exponents(1, K125, K25, K50, 2)
    else if i == 10 then Exponents(1, K125, K250, K50, 3)
    else if i == 11 then Exponents(1, K125, K252, K50, 3)
    else if i == 12 then Exponents(1, K125, K254, K50, 3)
    else Exponents(1, K125, K255, K50, 3)
  }

  /** Every row reads registers that hold powers. */
  lemma RowReady(i: nat)
    requires i < 13
    ensures var s, ex := STEPS[i], Table(i);
            2 <= s.a <= 4 && 1 <= s.c <= 4 && s.a != s.c && s.n > 0
            && 1 <= ex.prev <= 4 && ex.At(ex.prev) >= 0 && ex.At(s.c) >= 0
  {
  }

  lemma TableStep(i: nat)
    requires i < 13
    ensures Table(i).After(STEPS[i]) == Table(i + 1)
  {
    var n := STEPS[i].n;
    if n <= 6 {
      SmallPower(n);
    } else if n == 12 {
      Power12(n);
    } else if n == 25 {
      Power25(n);
    } else if n == 50 {
      Power50(n);
    } else {
      Power125(n);
    }
  }

  lemma SmallPower(n: nat)
    requires n in {1, 2, 3, 6}
    ensures Pow2(n) == if n == 1 then 2 else if n == 2 then 4 else if n == 3 then 8 else 0x40
  {
    if n > 1 {
      assert Pow2(n) == 4 * Pow2(n - 2);
      if n == 6 { SmallPower(n / 2); Pow2Add(n / 2, n / 2); }
    }
  }

  lemma Power12(n: nat)
    requires n == 12
    ensures Pow2(n) == K12 + 1
  {
    SmallPower(n / 2);
    Pow2Product(n / 2, n / 2, 0x40, 0x40);
  }

  lemma Power25(n: nat)
    requires n == 25
    ensures Pow2(n) == K25 + 1
  {
    Power12(n - 13);
    assert Pow2(n - 12) == 2 * Pow2(n - 13);
    Pow2Product(n - 13, n - 12, K12 + 1, 2 * (K12 + 1));
  }

  lemma Power50(n: nat)
    requires n == 50
    ensures Pow2(n) == K50 + 1
  {
    Power25(n / 2);
    Pow2Product(n / 2, n / 2, K25 + 1, K25 + 1);
  }

  lemma Power125(n: nat)
    requires n == 125
    ensures Pow2(n) == K125 + 1
  {
    Power50(n - 75);
    Power25(n - 100);
    Pow2Product(n - 75, n - 100, K50 + 1, K25 + 1);
    Pow2Product(n - 75 + (n - 100), n - 75, K75 + 1, K50 + 1);
  }
}
