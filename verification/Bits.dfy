/** Machine words as bounded integers, and C's bitwise operators on naturals.

The operators are defined bit by bit, independently of the arithmetic that the
rest of the project replaces them with; the lemmas below are that replacement. */
module Bits {

  type U8 = x: int | 0 <= x < 0x100
  type U16 = x: int | 0 <= x < 0x1_0000
  type U32 = x: int | 0 <= x < 0x1_0000_0000
  type U64 = x: int | 0 <= x < 0x1_0000_0000_0000_0000

  function Pow2(n: nat): (r: nat)
    ensures r > 0
  {
    if n == 0 then 1 else 2 * Pow2(n - 1)
  }

  lemma {:induction false} Pow2Add(m: nat, n: nat)
    ensures Pow2(m + n) == Pow2(m) * Pow2(n)
  {
    if m == 0 {
    } else {
      Pow2Add(m - 1, n);
      assert Pow2(m + n) == 2 * Pow2(m - 1 + n);
    }
  }

  lemma {:induction false} Pow2Small(n: nat)
    requires n <= 8
    ensures Pow2(n) == [1, 2, 4, 8, 0x10, 0x20, 0x40, 0x80, 0x100][n]
  {
    if n > 0 { Pow2Small(n - 1); }
  }

  /** The powers of two that the C sources spell in hexadecimal. */
  lemma {:induction false} Pow2At(n: nat)
    ensures n == 13 ==> Pow2(n) == 0x2000
    ensures n == 16 ==> Pow2(n) == 0x1_0000
    ensures n == 24 ==> Pow2(n) == 0x100_0000
    ensures n == 26 ==> Pow2(n) == 0x400_0000
    ensures n == 32 ==> Pow2(n) == 0x1_0000_0000
    ensures n == 64 ==> Pow2(n) == 0x1_0000_0000_0000_0000
    ensures n == 128 ==> Pow2(n) == 0x1_0000_0000_0000_0000_0000_0000_0000_0000
  {
    if n == 26 {
      Pow2At(n / 2);
      Pow2Product(n / 2, n / 2, 0x2000, 0x2000);
    } else if n == 32 {
      Pow2At(n / 2);
      Pow2Product(n / 2, n / 2, 0x1_0000, 0x1_0000);
    } else if n == 64 {
      Pow2At(n / 2);
      Pow2Product(n / 2, n / 2, 0x1_0000_0000, 0x1_0000_0000);
    } else if n == 128 {
      Pow2At(n / 2);
      Pow2Product(n / 2, n / 2, 0x1_0000_0000_0000_0000, 0x1_0000_0000_0000_0000);
    } else if n == 13 {
      Pow2Small(n - 8);
      Pow2Small(n - 5);
      Pow2Product(n - 8, n - 5, 0x20, 0x100);
    } else if n == 16 {
      Pow2Small(n - 8);
      Pow2Product(n - 8, n - 8, 0x100, 0x100);
    } else if n == 24 {
      Pow2At(n - 8);
      Pow2Small(n - 16);
      Pow2Product(n - 8, n - 16, 0x1_0000, 0x100);
    }
  }

  lemma Pow2Product(m: nat, n: nat, p: nat, q: nat)
    requires Pow2(m) == p && Pow2(n) == q
    ensures Pow2(m + n) == p * q
  {
    Pow2Add(m, n);
  }

  /** Bit k of x. */
  predicate Bit(x: nat, k: nat) {
    if k == 0 then x % 2 == 1 else Bit(x / 2, k - 1)
  }

  function And(x: nat, y: nat): nat {
    if x == 0 || y == 0 then 0
    else (if x % 2 == 1 && y % 2 == 1 then 1 else 0) + 2 * And(x / 2, y / 2)
  }

  function Or(x: nat, y: nat): nat {
    if x == 0 then y else if y == 0 then x
    else (if x % 2 == 1 || y % 2 == 1 then 1 else 0) + 2 * Or(x / 2, y / 2)
  }

  function Xor(x: nat, y: nat): nat
    decreases x
  {
    if x == 0 then y else if y == 0 then x
    else (if x % 2 != y % 2 then 1 else 0) + 2 * Xor(x / 2, y / 2)
  }

  lemma {:induction false} AndBit(x: nat, y: nat, k: nat)
    ensures Bit(And(x, y), k) <==> Bit(x, k) && Bit(y, k)
    decreases k
  {
    if x == 0 || y == 0 {
      ZeroBit(k);
    } else if k > 0 {
      AndBit(x / 2, y / 2, k - 1);
    }
  }

  lemma {:induction false} OrBit(x: nat, y: nat, k: nat)
    ensures Bit(Or(x, y), k) <==> Bit(x, k) || Bit(y, k)
    decreases k
  {
    if x == 0 || y == 0 {
      ZeroBit(k);
    } else if k > 0 {
      OrBit(x / 2, y / 2, k - 1);
    }
  }

  lemma {:induction false} ZeroBit(k: nat)
    ensures !Bit(0, k)
  {
    if k > 0 { ZeroBit(k - 1); }
  }

  /** Halving lo + 2^k * hi halves lo and keeps hi one place lower. */
  lemma HalveSplit(lo: nat, hi: nat, k: nat)
    requires k > 0
    ensures (lo + Pow2(k) * hi) % 2 == lo % 2
    ensures (lo + Pow2(k) * hi) / 2 == lo / 2 + Pow2(k - 1) * hi
  {
    var t := Pow2(k - 1) * hi;
    assert Pow2(k) * hi == 2 * t;
    assert (lo + 2 * t) / 2 == lo / 2 + t;
  }

  /** Bitwise AND works on the low k bits and on the rest separately. */
  lemma {:induction false} AndSplit(x: nat, m: nat, lo: nat, hi: nat, mlo: nat, mhi: nat, k: nat)
    requires lo < Pow2(k) && mlo < Pow2(k)
    requires x == lo + Pow2(k) * hi && m == mlo + Pow2(k) * mhi
    ensures And(x, m) == And(lo, mlo) + Pow2(k) * And(hi, mhi)
    decreases k
  {
    if k == 0 {
      assert x == hi && m == mhi;
    } else {
      HalveSplit(lo, hi, k);
      HalveSplit(mlo, mhi, k);
      AndSplit(x / 2, m / 2, lo / 2, hi, mlo / 2, mhi, k - 1);
      AndSplitStep(x, m, lo, mlo, Pow2(k - 1) * And(hi, mhi));
      Double(Pow2(k - 1), And(hi, mhi));
    }
  }

  lemma AndSplitStep(x: nat, m: nat, lo: nat, mlo: nat, rest: int)
    requires x % 2 == lo % 2 && m % 2 == mlo % 2
    requires And(x / 2, m / 2) == And(lo / 2, mlo / 2) + rest
    ensures And(x, m) == And(lo, mlo) + 2 * rest
  {
    AndStep(x, m);
    AndStep(lo, mlo);
  }

  lemma Double(q: int, z: int)
    ensures 2 * (q * z) == (2 * q) * z
  {
  }

  lemma AndStep(x: nat, y: nat)
    ensures And(x, y) == (if x % 2 == 1 && y % 2 == 1 then 1 else 0) + 2 * And(x / 2, y / 2)
  {
  }

  lemma {:induction false} AndBound(x: nat, y: nat)
    ensures And(x, y) <= x && And(x, y) <= y
    decreases x
  {
    if x != 0 && y != 0 { AndBound(x / 2, y / 2); }
  }

  lemma ModHalf(x: nat, q: nat)
    requires q > 0
    ensures x % (2 * q) == x % 2 + 2 * ((x / 2) % q)
  {
    var d, r := (x / 2) / q, (x / 2) % q;
    assert x / 2 == q * d + r;
    Double(q, d);
    assert x == (2 * q) * d + (2 * r + x % 2);
    RemainderIs(x, 2 * q, d, 2 * r + x % 2);
  }

  lemma QuotientUnique(n: int, d: int, r: int, e: int, s: int)
    requires 0 <= r < n && 0 <= s < n && n * d + r == n * e + s
    ensures d == e && r == s
  {
    var t := d - e;
    assert n * t == s - r;
  }

  lemma RemainderIs(x: int, n: int, d: int, r: int)
    requires 0 <= r < n && x == n * d + r
    ensures x % n == r && x / n == d
  {
    QuotientUnique(n, d, r, x / n, x % n);
  }

  /** Masking with 2^k - 1 is reduction modulo 2^k. */
  lemma AndLow(x: nat, k: nat)
    ensures And(x, Pow2(k) - 1) == x % Pow2(k)
  {
    AndLowIs(x, k, Pow2(k) - 1, x % Pow2(k));
  }

  lemma {:induction false} AndLowIs(x: nat, k: nat, m: nat, r: nat)
    requires m == Pow2(k) - 1 && r == x % Pow2(k)
    ensures And(x, m) == r
    decreases k
  {
    if k == 0 {
      AndBound(x, m);
    } else {
      var h, low := Pow2(k - 1) - 1, x / 2 % Pow2(k - 1);
      AndLowIs(x / 2, k - 1, h, low);
      LowHalf(x, k);
      AndLowStep(x, h, m, low);
    }
  }

  lemma AndLowStep(x: nat, h: nat, m: nat, low: nat)
    requires m == 2 * h + 1 && And(x / 2, h) == low
    ensures And(x, m) == x % 2 + 2 * low
  {
    AndStep(x, m);
  }

  lemma LowHalf(x: nat, k: nat)
    requires k > 0
    ensures x % Pow2(k) == x % 2 + 2 * (x / 2 % Pow2(k - 1))
  {
    ModHalf(x, Pow2(k - 1));
  }

  lemma AndMask(x: nat, k: nat, m: nat)
    requires m + 1 == Pow2(k)
    ensures And(x, m) == x % (m + 1)
  {
    AndLow(x, k);
  }

  lemma AndOnes(x: nat, k: nat)
    requires x < Pow2(k)
    ensures And(x, Pow2(k) - 1) == x
  {
    AndLow(x, k);
    RemainderIs(x, Pow2(k), 0, x);
  }

  lemma OrStep(x: nat, y: nat)
    ensures Or(x, y) == (if x % 2 == 1 || y % 2 == 1 then 1 else 0) + 2 * Or(x / 2, y / 2)
  {
  }

  /** Bitwise OR works on the low k bits and on the rest separately. */
  lemma {:induction false} OrSplit(x: nat, m: nat, lo: nat, hi: nat, mlo: nat, mhi: nat, k: nat)
    requires lo < Pow2(k) && mlo < Pow2(k)
    requires x == lo + Pow2(k) * hi && m == mlo + Pow2(k) * mhi
    ensures Or(x, m) == Or(lo, mlo) + Pow2(k) * Or(hi, mhi)
    decreases k
  {
    if k == 0 {
      assert x == hi && m == mhi;
    } else {
      HalveSplit(lo, hi, k);
      HalveSplit(mlo, mhi, k);
      OrSplit(x / 2, m / 2, lo / 2, hi, mlo / 2, mhi, k - 1);
      OrSplitStep(x, m, lo, mlo, Pow2(k - 1) * Or(hi, mhi));
      Double(Pow2(k - 1), Or(hi, mhi));
    }
  }

  lemma OrSplitStep(x: nat, m: nat, lo: nat, mlo: nat, rest: int)
    requires x % 2 == lo % 2 && m % 2 == mlo % 2
    requires Or(x / 2, m / 2) == Or(lo / 2, mlo / 2) + rest
    ensures Or(x, m) == Or(lo, mlo) + 2 * rest
  {
    OrStep(x, m);
    OrStep(lo, mlo);
  }

  /** OR of two words that share no bit position is their sum. */
  lemma OrDisjoint(lo: nat, hi: nat, k: nat)
    requires lo < Pow2(k)
    ensures Or(lo, Pow2(k) * hi) == lo + Pow2(k) * hi
  {
    OrSplit(lo, Pow2(k) * hi, lo, 0, 0, hi, k);
  }

  lemma {:induction false} OrBound(x: nat, y: nat, k: nat)
    requires x < Pow2(k) && y < Pow2(k)
    ensures Or(x, y) < Pow2(k)
  {
    if x != 0 && y != 0 && k > 0 { OrBound(x / 2, y / 2, k - 1); }
  }

  lemma {:induction false} OrZero(x: nat, y: nat)
    ensures Or(x, y) == 0 <==> x == 0 && y == 0
    decreases x
  {
    if x != 0 && y != 0 {
      OrStep(x, y);
      OrZero(x / 2, y / 2);
    }
  }

  lemma XorStep(x: nat, y: nat)
    ensures Xor(x, y) == (if x % 2 != y % 2 then 1 else 0) + 2 * Xor(x / 2, y / 2)
  {
  }

  lemma {:induction false} XorBound(x: nat, y: nat, k: nat)
    requires x < Pow2(k) && y < Pow2(k)
    ensures Xor(x, y) < Pow2(k)
  {
    if x != 0 && y != 0 && k > 0 { XorBound(x / 2, y / 2, k - 1); }
  }

  lemma {:induction false} XorCancel(x: nat, y: nat)
    ensures Xor(x, Xor(x, y)) == y
    decreases x
  {
    if x != 0 {
      XorStep(x, y);
      XorStep(x, Xor(x, y));
      XorCancel(x / 2, y / 2);
    }
  }

  lemma {:induction false} XorSymmetric(x: nat, y: nat)
    ensures Xor(x, y) == Xor(y, x)
    decreases x
  {
    if x != 0 && y != 0 { XorSymmetric(x / 2, y / 2); }
  }

  /** The exchange `a ^= (a ^ b) & mask; b ^= (a ^ b) & mask` for an all-ones and a zero mask. */
  lemma XorSwap(a: nat, b: nat)
    ensures Xor(a, Xor(a, b)) == b && Xor(b, Xor(a, b)) == a
    ensures Xor(a, 0) == a && Xor(b, 0) == b
  {
    XorCancel(a, b);
    XorSymmetric(a, b);
    XorCancel(b, a);
  }

  /** `(x >> k) & 1` */
  lemma {:induction false} BitIsShift(x: nat, k: nat)
    ensures Bit(x, k) <==> x / Pow2(k) % 2 == 1
  {
    if k > 0 {
      BitIsShift(x / 2, k - 1);
      DivTwice(x, Pow2(k - 1));
    } else {
      assert x / 1 == x;
    }
  }

  lemma DivTwice(x: nat, q: nat)
    requires q > 0
    ensures x / (2 * q) == x / 2 / q
  {
    var d, r := x / 2 / q, x / 2 % q;
    Double(q, d);
    RemainderIs(x, 2 * q, d, 2 * r + x % 2);
  }

  lemma {:induction false} XorSelf(x: nat)
    ensures Xor(x, x) == 0
  {
    if x != 0 { XorSelf(x / 2); }
  }

  /** The low k bits of lo + 2^k * hi are those of lo, the others those of hi. */
  lemma {:induction false} BitSplit(lo: nat, hi: nat, k: nat, i: nat)
    requires lo < Pow2(k)
    ensures Bit(lo + Pow2(k) * hi, i) <==> if i < k then Bit(lo, i) else Bit(hi, i - k)
    decreases k
  {
    if k == 0 {
      assert Pow2(k) * hi == hi;
    } else {
      HalveSplit(lo, hi, k);
      if i > 0 { BitSplit(lo / 2, hi, k - 1, i - 1); }
    }
  }
}
