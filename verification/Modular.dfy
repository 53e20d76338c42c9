/** Products modulo m as repeated addition, which keeps large products out of the proofs that only move them around. */
module Modular {
  import opened Bits

  /** n copies of x added up modulo m. */
  function MulMod(x: int, n: nat, m: nat): (r: nat)
    requires m > 0
    ensures r < m
  {
    if n == 0 then 0 else (MulMod(x, n - 1, m) + x) % m
  }

  lemma MulModIsProduct(x: int, n: nat, m: nat)
    requires m > 0
    ensures MulMod(x, n, m) == (x * n) % m
  {
    CopiesAre(x, n);
    MulModIsResidue(x, n, m);
  }

  /** n copies of x added up. */
  function Copies(x: int, n: nat): int {
    if n == 0 then 0 else Copies(x, n - 1) + x
  }

  lemma {:induction false} CopiesAre(x: int, n: nat)
    ensures Copies(x, n) == x * n
  {
    if n > 0 {
      CopiesAre(x, n - 1);
      assert x * n == x * (n - 1) + x;
    }
  }

  /** The product of two integers, out of sight of proofs that only move it around. */
  function Product(a: int, b: int): int {
    if b >= 0 then Copies(a, b) else -Copies(a, -b)
  }

  lemma ProductIs(a: int, b: int)
    ensures Product(a, b) == a * b
  {
    if b >= 0 {
      CopiesAre(a, b);
    } else {
      CopiesAre(a, -b);
      assert a * -b == -(a * b);
    }
  }

  lemma {:induction false} MulModIsResidue(x: int, n: nat, m: nat)
    requires m > 0
    ensures MulMod(x, n, m) == Copies(x, n) % m
  {
    if n > 0 {
      MulModIsResidue(x, n - 1, m);
      AddResidue(Copies(x, n - 1), x, m);
    } else {
      RemainderIs(0, m, 0, 0);
    }
  }

  lemma AddResidue(y: int, x: int, m: nat)
    requires m > 0
    ensures (y % m + x) % m == (y + x) % m
  {
    Congruent(y + x, y % m + x, y / m, m);
  }

  lemma Congruent(a: int, b: int, k: int, m: nat)
    requires m > 0 && a == b + m * k
    ensures a % m == b % m
  {
    var q, r := b / m, b % m;
    SumOfMultiples(m, q, k);
    RemainderIs(a, m, q + k, r);
  }

  lemma SumOfMultiples(m: int, q: int, k: int)
    ensures m * (q + k) == m * q + m * k
  {
  }
}
