/** The ladder step against the formulas of the curve v^2 = u^3 + 486662 u^2 + u, in projective u-coordinates. */
module Curve25519 {
  import opened Modular
  import opened Bits
  import opened LittleEndian
  import opened Field25519
  import opened LadderSpec

  /** Doubling (x : z). */
  function DoubleX(x: int, z: int): int {
    var d := Product(x, x) - Product(z, z);
    Product(d, d)
  }

  function DoubleZ(x: int, z: int): int {
    var m := Product(x, z);
    Product(4 * m, Product(x, x) + 486662 * m + Product(z, z))
  }

  /** Adding (x : z) and (y : w), which differ by (x1 : 1). */
  function AddX(x: int, z: int, y: int, w: int): int {
    var d := Product(x, y) - Product(z, w);
    4 * Product(d, d)
  }

  function AddZ(x1: int, x: int, z: int, y: int, w: int): int {
    var d := Product(x, w) - Product(z, y);
    Product(x1, 4 * Product(d, d))
  }

  /** The same in plain arithmetic. */
  lemma DoubleIs(x: int, z: int)
    ensures DoubleX(x, z) == (x * x - z * z) * (x * x - z * z)
    ensures DoubleZ(x, z) == 4 * (x * z) * (x * x + 486662 * (x * z) + z * z)
  {
    ProductIs(x, x);
    ProductIs(z, z);
    ProductIs(x, z);
    ProductIs(x * x - z * z, x * x - z * z);
    ProductIs(4 * (x * z), x * x + 486662 * (x * z) + z * z);
  }

  lemma AddIs(x1: int, x: int, z: int, y: int, w: int)
    ensures AddX(x, z, y, w) == 4 * ((x * y - z * w) * (x * y - z * w))
    ensures AddZ(x1, x, z, y, w) == x1 * (4 * ((x * w - z * y) * (x * w - z * y)))
  {
    ProductIs(x, y);
    ProductIs(z, w);
    ProductIs(x, w);
    ProductIs(z, y);
    ProductIs(x * y - z * w, x * y - z * w);
    ProductIs(x * w - z * y, x * w - z * y);
    ProductIs(x1, 4 * ((x * w - z * y) * (x * w - z * y)));
  }

  lemma SumOf(u: nat, v: nat, a: int, b: int)
    requires u == a % P && v == b % P
    ensures FAdd(u, v) == (a + b) % P && FSub(u, v) == (a - b) % P
  {
    FAddCongruent(a, b);
    FSubCongruent(a, b);
  }

  lemma ProductOf(u: nat, v: nat, a: int, b: int, ab: int)
    requires u == a % P && v == b % P && ab == Product(a, b)
    ensures FMul(u, v) == ab % P
  {
    ProductIs(a, b);
    FMulIsProduct(u, v);
    ProductCongruent(a, b, u, v, a / P, b / P);
  }

  lemma Squares(s: State, x: int, z: int, a: int, b: int)
    requires x == s.x2 && z == s.z2 && a == Product(x + z, x + z) && b == Product(x - z, x - z)
    ensures AA(s) == a % P && BB(s) == b % P && E(s) == (a - b) % P
  {
    ProductOf(Sum(s), Sum(s), x + z, x + z, a);
    ProductOf(Diff(s), Diff(s), x - z, x - z, b);
    SumOf(AA(s), BB(s), a, b);
  }

  lemma SquareIdentities(x: int, z: int, a: int, b: int)
    requires a == (x + z) * (x + z) && b == (x - z) * (x - z)
    ensures a == x * x + 2 * (x * z) + z * z && b == x * x - 2 * (x * z) + z * z && a - b == 4 * (x * z)
  {
  }

  lemma DoubleIdentities(xx: int, xz: int, zz: int, a: int, b: int)
    requires a == xx + 2 * xz + zz && b == xx - 2 * xz + zz && xz * xz == xx * zz
    ensures a * b == (xx - zz) * (xx - zz)
    ensures (a - b) * (a + 121665 * (a - b)) == 4 * xz * (xx + 486662 * xz + zz)
  {
    var m := xx + zz;
    assert a * b == (m + 2 * xz) * (m - 2 * xz) == m * m - 4 * (xz * xz);
    assert m * m - 4 * (xx * zz) == (xx - zz) * (xx - zz);
    assert a - b == 4 * xz;
  }

  lemma Doubles(x1: nat, s: State)
    ensures Step(x1, s).x2 == DoubleX(s.x2, s.z2) % P && Step(x1, s).z2 == DoubleZ(s.x2, s.z2) % P
  {
    var x: int, z: int := s.x2, s.z2;
    var a, b := Product(x + z, x + z), Product(x - z, x - z);
    Squares(s, x, z, a, b);
    DoubleValues(x, z, a, b);
    ProductOf(AA(s), BB(s), a, b, DoubleX(x, z));
    Tail(s, a, a - b, DoubleZ(x, z));
  }

  lemma DoubleValues(x: int, z: int, a: int, b: int)
    requires a == Product(x + z, x + z) && b == Product(x - z, x - z)
    ensures DoubleX(x, z) == Product(a, b) && DoubleZ(x, z) == Product(a - b, a + 121665 * (a - b))
  {
    ProductIs(x + z, x + z);
    ProductIs(x - z, x - z);
    DoubleIs(x, z);
    SquareIdentities(x, z, a, b);
    Interchange(x, z);
    DoubleIdentities(x * x, x * z, z * z, a, b);
    ProductIs(a, b);
    ProductIs(a - b, a + 121665 * (a - b));
  }

  lemma Interchange(x: int, z: int)
    ensures (x * z) * (x * z) == (x * x) * (z * z)
  {
  }

  lemma Tail(s: State, a: int, e: int, r: int)
    requires AA(s) == a % P && E(s) == e % P && r == Product(e, a + 121665 * e)
    ensures FMul(E(s), FAdd(AA(s), FMul(121665, E(s)))) == r % P
  {
    var c := 121665;
    ProductIs(c, e);
    ProductOf(c, E(s), c, e, c * e);
    SumOf(AA(s), FMul(c, E(s)), a, c * e);
    ProductOf(E(s), FAdd(AA(s), FMul(c, E(s))), e, a + c * e, r);
  }

  lemma Crossed(s: State, d: int, c: int)
    requires d == Product(s.x3 - s.z3, s.x2 + s.z2) && c == Product(s.x3 + s.z3, s.x2 - s.z2)
    ensures FAdd(DA(s), CB(s)) == (d + c) % P && FSub(DA(s), CB(s)) == (d - c) % P
  {
    ProductOf(FSub(s.x3, s.z3), Sum(s), s.x3 - s.z3, s.x2 + s.z2, d);
    ProductOf(FAdd(s.x3, s.z3), Diff(s), s.x3 + s.z3, s.x2 - s.z2, c);
    SumOf(DA(s), CB(s), d, c);
  }

  lemma CrossIdentities(x: int, z: int, y: int, w: int, d: int, c: int)
    requires d == (y - w) * (x + z) && c == (y + w) * (x - z)
    ensures d + c == 2 * (x * y - z * w) && d - c == -2 * (x * w - z * y)
  {
  }

  lemma SquareOfDouble(t: int, u: int)
    requires t == 2 * u || t == -2 * u
    ensures t * t == 4 * (u * u)
  {
  }

  lemma Adds(x1: nat, s: State)
    ensures Step(x1, s).x3 == AddX(s.x2, s.z2, s.x3, s.z3) % P
    ensures Step(x1, s).z3 == AddZ(x1, s.x2, s.z2, s.x3, s.z3) % P
  {
    var x: int, z: int, y: int, w: int := s.x2, s.z2, s.x3, s.z3;
    var d, c := Product(y - w, x + z), Product(y + w, x - z);
    Crossed(s, d, c);
    AddValues(x1, x, z, y, w, d, c);
    ProductOf(FAdd(DA(s), CB(s)), FAdd(DA(s), CB(s)), d + c, d + c, AddX(x, z, y, w));
    var q := Product(d - c, d - c);
    ProductOf(FSub(DA(s), CB(s)), FSub(DA(s), CB(s)), d - c, d - c, q);
    TimesResidue(x1, Square(FSub(DA(s), CB(s))), q, AddZ(x1, x, z, y, w));
  }

  lemma AddValues(x1: int, x: int, z: int, y: int, w: int, d: int, c: int)
    requires d == Product(y - w, x + z) && c == Product(y + w, x - z)
    ensures AddX(x, z, y, w) == Product(d + c, d + c) && AddZ(x1, x, z, y, w) == Product(x1, Product(d - c, d - c))
  {
    ProductIs(y - w, x + z);
    ProductIs(y + w, x - z);
    CrossIdentities(x, z, y, w, d, c);
    AddIs(x1, x, z, y, w);
    SquareOfDouble(d + c, x * y - z * w);
    SquareOfDouble(d - c, x * w - z * y);
    ProductIs(d + c, d + c);
    ProductIs(d - c, d - c);
    ProductIs(x1, Product(d - c, d - c));
  }

  lemma TimesResidue(x: nat, v: nat, q: int, r: int)
    requires v == q % P && r == Product(x, q)
    ensures FMul(x, v) == r % P
  {
    ProductIs(x, q);
    FMulIsProduct(x, v);
    ProductCongruent(x, q, x, v, 0, q / P);
  }

  /** u^3 + 486662 u^2 + u */
  function Cubic(u: int): int {
    Product(u, Product(u, u) + 486662 * u + 1)
  }

  ghost predicate OnCurve(u: int, v: int) {
    Product(v, v) % P == Cubic(u) % P
  }

  lemma CubicIs(u: int)
    ensures Cubic(u) == u * (u * u + 486662 * u + 1)
  {
    ProductIs(u, u);
    ProductIs(u, u * u + 486662 * u + 1);
  }

  /** The tangent at (u, v) has slope n / (2 v) with n = 3 u^2 + 2 * 486662 u + 1, and leads to the coordinate
      (n / (2 v))^2 - 486662 - 2 u. DoubleZ is (2 v)^2, and DoubleX is n^2 - (486662 + 2 u) * DoubleZ. */
  lemma TangentDoubles(u: int, v: int)
    requires OnCurve(u, v)
    ensures DoubleZ(u, 1) % P == (4 * Product(v, v)) % P
    ensures DoubleX(u, 1) == Product(Slope(u), Slope(u)) - Product(486662 + 2 * u, DoubleZ(u, 1))
  {
    AffineDouble(u);
    FourCongruent(Cubic(u), Product(v, v));
  }

  /** Twice v times the slope of the tangent. */
  function Slope(u: int): int {
    3 * Product(u, u) + 2 * 486662 * u + 1
  }

  lemma AffineDouble(u: int)
    ensures DoubleZ(u, 1) == 4 * Cubic(u)
    ensures DoubleX(u, 1) == Product(Slope(u), Slope(u)) - Product(486662 + 2 * u, DoubleZ(u, 1))
  {
    DoubleIs(u, 1);
    CubicIs(u);
    ProductIs(u, u);
    Regroup(4, u, u * u + 486662 * u + 1);
    TangentIdentity(u, 486662, u * u);
    ProductIs(Slope(u), Slope(u));
    ProductIs(486662 + 2 * u, DoubleZ(u, 1));
  }

  lemma Regroup(x: int, y: int, z: int)
    ensures (x * y) * z == x * (y * z)
  {
  }

  lemma TangentIdentity(u: int, a: int, uu: int)
    requires uu == u * u
    ensures (uu - 1) * (uu - 1) ==
            (3 * uu + 2 * a * u + 1) * (3 * uu + 2 * a * u + 1) - (a + 2 * u) * (4 * (u * (uu + a * u + 1)))
  {
  }

  /** The chord through (u, v) and (t, w) has slope (w - v) / (t - u), and the one through (u, v) and (t, -w) has slope
      (-w - v) / (t - u); over the denominator (t - u)^2 the coordinates of sum and difference are the n and m below.
      Their product is what AddX and AddZ compute with: (sum) * (difference) * (t - u)^2 = (u t - 1)^2. */
  lemma ChordAdds(u: int, v: int, t: int, w: int)
    requires OnCurve(u, v) && OnCurve(t, w)
    ensures var d := Product(t - u, t - u);
            var e := Product(486662 + u + t, d);
            var n, m := Product(w - v, w - v) - e, Product(w + v, w + v) - e;
            && (4 * Product(n, m)) % P == Product(d, AddX(u, 1, t, 1)) % P
            && AddZ(m, u, 1, t, 1) == Product(m, 4 * d)
  {
    var d := Product(t - u, t - u);
    var e := Product(486662 + u + t, d);
    var n, m := Product(w - v, w - v) - e, Product(w + v, w + v) - e;
    NormIs(v, w, e, n, m);
    NormCongruent(Product(v, v), Product(w, w), Cubic(u), Cubic(t), e);
    ChordIs(u, t, d, e);
    FourCongruent(Product(n, m), Norm(Cubic(u), Cubic(t), e));
    AddOfAffine(u, t, m, d);
  }

  /** (f + g - e)^2 - 4 f g */
  function Norm(f: int, g: int, e: int): int {
    Product(f + g - e, f + g - e) - 4 * Product(f, g)
  }

  lemma NormIs(v: int, w: int, e: int, n: int, m: int)
    requires n == Product(w - v, w - v) - e && m == Product(w + v, w + v) - e
    ensures Product(n, m) == Norm(Product(v, v), Product(w, w), e)
  {
    ProductIs(w - v, w - v);
    ProductIs(w + v, w + v);
    ProductIs(v, v);
    ProductIs(w, w);
    ProductIs(n, m);
    ProductIs(v * v, w * w);
    ProductIs(v * v + w * w - e, v * v + w * w - e);
    NormIdentity(v, w, e);
  }

  lemma ChordIs(u: int, t: int, d: int, e: int)
    requires d == Product(t - u, t - u) && e == Product(486662 + u + t, d)
    ensures 4 * Norm(Cubic(u), Cubic(t), e) == Product(d, AddX(u, 1, t, 1))
  {
    var f, g, r := Cubic(u), Cubic(t), (u * t - 1) * (u * t - 1);
    CubicIs(u);
    CubicIs(t);
    ProductIs(t - u, t - u);
    ProductIs(486662 + u + t, d);
    ChordIdentity(u, t, 486662, u + t, u * t, f, g, e, d);
    ProductIs(f + g - e, f + g - e);
    ProductIs(f, g);
    AddIs(0, u, 1, t, 1);
    ProductIs(d, AddX(u, 1, t, 1));
    Fourfold(d, r);
  }

  lemma AddOfAffine(u: int, t: int, m: int, d: int)
    requires d == Product(t - u, t - u)
    ensures AddZ(m, u, 1, t, 1) == Product(m, 4 * d)
  {
    ProductIs(t - u, t - u);
    AddIs(m, u, 1, t, 1);
    ProductIs(m, 4 * d);
    assert (u - t) * (u - t) == d;
  }

  lemma Fourfold(d: int, r: int)
    ensures d * (4 * r) == 4 * (d * r)
  {
  }

  lemma FourCongruent(a: int, b: int)
    requires a % P == b % P
    ensures (4 * a) % P == (4 * b) % P
  {
    Congruent(4 * a, 4 * b, 4 * (a / P - b / P), P);
  }

  lemma NormIdentity(v: int, w: int, e: int)
    ensures ((w - v) * (w - v) - e) * ((w + v) * (w + v) - e)
            == (v * v + w * w - e) * (v * v + w * w - e) - 4 * ((v * v) * (w * w))
  {
    var p, q := v * v + w * w - e, v * w;
    assert (w - v) * (w - v) - e == p - 2 * q && (w + v) * (w + v) - e == p + 2 * q;
    assert (p - 2 * q) * (p + 2 * q) == p * p - 4 * (q * q);
    Interchange(v, w);
  }

  lemma NormCongruent(x: int, y: int, f: int, g: int, e: int)
    requires x % P == f % P && y % P == g % P
    ensures Norm(x, y, e) % P == Norm(f, g, e) % P
  {
    var j, k := x / P - f / P, y / P - g / P;
    var a, b := x + y - e, f + g - e;
    ProductSame(a, a, b, b, j + k, j + k);
    ProductSame(x, y, f, g, j, k);
    var q, r := Product(a, a) / P - Product(b, b) / P, Product(x, y) / P - Product(f, g) / P;
    Congruent(Norm(x, y, e), Norm(f, g, e), q - 4 * r, P);
  }

  lemma ProductSame(a: int, b: int, x: int, y: int, j: int, k: int)
    requires a == x + P * j && b == y + P * k
    ensures Product(a, b) % P == Product(x, y) % P
  {
    ProductIs(a, b);
    ProductIs(x, y);
    ProductCongruent(a, b, x, y, j, k);
  }

  /** In the sum s and the product p of the two coordinates. */
  lemma ChordIdentity(u: int, t: int, a: int, s: int, p: int, f: int, g: int, e: int, d: int)
    requires s == u + t && p == u * t && d == (t - u) * (t - u) && e == (a + s) * d
    requires f == u * (u * u + a * u + 1) && g == t * (t * t + a * t + 1)
    ensures (f + g - e) * (f + g - e) - 4 * (f * g) == d * ((p - 1) * (p - 1))
  {
    assert d == s * s - 4 * p;
    var b := s * (p + 1) + 2 * (a * p);
    assert f + g - e == b by { SumOfCubics(u, t, a, s, p, f, g, e, d); }
    var c := (p - 1) * (p - 1) + s * s + a * (s * (p + 1)) + a * a * p;
    assert f * g == p * c by { ProductOfCubics(u, t, a, s, p, f, g, c); }
    InSumAndProduct(s, p, a, b, c, d);
  }

  lemma SumOfCubics(u: int, t: int, a: int, s: int, p: int, f: int, g: int, e: int, d: int)
    requires s == u + t && p == u * t && d == (t - u) * (t - u) && e == (a + s) * d
    requires f == u * (u * u + a * u + 1) && g == t * (t * t + a * t + 1)
    ensures f + g - e == s * (p + 1) + 2 * (a * p)
  {
    var x, y := u * u, t * t;
    CubicTerms(u, a, x, f);
    CubicTerms(t, a, y, g);
    SquaresOf(u, t, s, p);
    assert d == x + y - 2 * p;
    Cubes(u, t, x, y, s, p);
    FourTerms(a, x, y, -2 * p, 0);
    FourTerms(s, x, y, -2 * p, 0);
    assert e == a * d + s * d;
  }

  lemma CubicTerms(u: int, a: int, x: int, f: int)
    requires x == u * u && f == u * (x + a * u + 1)
    ensures f == u * x + a * x + u
  {
    FourTerms(u, x, a * u, 1, 0);
    Swing(u, a, u);
  }

  lemma SquaresOf(u: int, t: int, s: int, p: int)
    requires s == u + t && p == u * t
    ensures u * u + t * t == s * s - 2 * p && (t - u) * (t - u) == u * u + t * t - 2 * p
  {
  }

  lemma Cubes(u: int, t: int, x: int, y: int, s: int, p: int)
    requires x == u * u && y == t * t && s == u + t && p == u * t
    ensures u * x + t * y == s * (x + y) - s * p
  {
    assert s * p == t * x + u * y by { Swing(t, u, u); Swing(u, t, t); }
    assert s * (x + y) == u * x + u * y + t * x + t * y;
  }

  lemma ProductOfCubics(u: int, t: int, a: int, s: int, p: int, f: int, g: int, c: int)
    requires s == u + t && p == u * t && c == (p - 1) * (p - 1) + s * s + a * (s * (p + 1)) + a * a * p
    requires f == u * (u * u + a * u + 1) && g == t * (t * t + a * t + 1)
    ensures f * g == p * c
  {
    var h, i := u * u + a * u + 1, t * t + a * t + 1;
    Pairs(u, h, t, i);
    assert h * i == c by { FactorsOf(u, t, a, s, p, c); }
  }

  lemma FactorsOf(u: int, t: int, a: int, s: int, p: int, c: int)
    requires s == u + t && p == u * t && c == (p - 1) * (p - 1) + s * s + a * (s * (p + 1)) + a * a * p
    ensures (u * u + a * u + 1) * (t * t + a * t + 1) == c
  {
    Expanded(u * u, a * u, t * t, a * t);
    Pairs(u, u, t, t);
    SquaresOf(u, t, s, p);
    Mixed(u, t, a, s, p);
    Pairs(a, u, a, t);
    LastTerms(a, s, p, u, t);
  }

  lemma LastTerms(a: int, s: int, p: int, u: int, t: int)
    requires s == u + t
    ensures a * u + a * t == a * s && a * (s * (p + 1)) == a * (s * p) + a * s
    ensures (p - 1) * (p - 1) == p * p - 2 * p + 1
  {
  }

  lemma Pairs(u: int, h: int, t: int, i: int)
    ensures (u * h) * (t * i) == (u * t) * (h * i)
  {
  }

  lemma Expanded(x: int, y: int, z: int, w: int)
    ensures (x + y + 1) * (z + w + 1) == x * z + (x * w + y * z) + (x + z) + y * w + (y + w) + 1
  {
  }

  lemma Mixed(u: int, t: int, a: int, s: int, p: int)
    requires s == u + t && p == u * t
    ensures (u * u) * (a * t) + (a * u) * (t * t) == a * (s * p)
  {
    Pairs(u, u, a, t);
    Pairs(a, u, t, t);
    assert s * p == u * p + t * p;
  }

  lemma InSumAndProduct(s: int, p: int, a: int, b: int, c: int, d: int)
    requires b == s * (p + 1) + 2 * (a * p) && d == s * s - 4 * p
    requires c == (p - 1) * (p - 1) + s * s + a * (s * (p + 1)) + a * a * p
    ensures b * b - 4 * (p * c) == d * ((p - 1) * (p - 1))
  {
    var x, y, ss, r := s * (p + 1), a * p, s * s, (p - 1) * (p - 1);
    SquareOfSum(x, y);
    assert x * x == ss * r + 4 * (ss * p) by { OneMore(s, p, ss, r); }
    FourTerms(p, r, ss, a * x, a * a * p);
    assert p * (a * x) == x * y by { Swing(p, a, x); }
    assert p * (a * a * p) == y * y by { Pairs(a, p, a, p); Swing(p, a * a, p); }
    assert d * r == ss * r - 4 * (p * r) by { Less(ss, p, r); }
  }

  lemma SquareOfSum(x: int, y: int)
    ensures (x + 2 * y) * (x + 2 * y) == x * x + 4 * (x * y) + 4 * (y * y)
  {
  }

  lemma OneMore(s: int, p: int, ss: int, r: int)
    requires ss == s * s && r == (p - 1) * (p - 1)
    ensures (s * (p + 1)) * (s * (p + 1)) == ss * r + 4 * (ss * p)
  {
    Pairs(s, p + 1, s, p + 1);
    assert (p + 1) * (p + 1) == r + 4 * p;
    assert ss * (r + 4 * p) == ss * r + 4 * (ss * p);
  }

  lemma FourTerms(p: int, w: int, x: int, y: int, z: int)
    ensures p * (w + x + y + z) == p * w + p * x + p * y + p * z
  {
  }

  lemma Swing(p: int, a: int, x: int)
    ensures p * (a * x) == x * (a * p)
  {
  }

  lemma Less(x: int, p: int, r: int)
    ensures (x - 4 * p) * r == x * r - 4 * (p * r)
  {
  }
}

/** The ladder as scalar multiplication. */
module LadderMeaning {
  import opened Bits
  import opened LittleEndian
  import opened Field25519
  import opened LadderSpec
  import opened LadderTheory
  import opened Curve25519
  import opened FieldPowers
  import X25519

  /** mul(n, x, z) says that (x : z) stands for n times the point with coordinate x1. */
  type Multiples = (nat, nat, nat) -> bool

  /** From n and n + 1 times the point, the formulas lead to 2n, 2n + 1 and 2n + 2 times it. */
  ghost predicate Leads(mul: Multiples, x1: nat, n: nat, x: nat, z: nat, y: nat, w: nat) {
    mul(n, x, z) && mul(n + 1, y, w) ==>
      && mul(2 * n, DoubleX(x, z) % P, DoubleZ(x, z) % P)
      && mul(2 * n + 1, AddX(x, z, y, w) % P, AddZ(x1, x, z, y, w) % P)
      && mul(2 * n + 2, DoubleX(y, w) % P, DoubleZ(y, w) % P)
  }

  ghost predicate Additive(mul: Multiples, x1: nat) {
    && mul(0, 1, 0) && mul(1, x1, 1)
    && forall n, x, z, y, w {:trigger Leads(mul, x1, n, x, z, y, w)} :: Leads(mul, x1, n, x, z, y, w)
  }

  /** The registers stand for n and n + 1 times the point. */
  ghost predicate Stands(mul: Multiples, n: nat, s: State) {
    mul(n, s.x2, s.z2) && mul(n + 1, s.x3, s.z3)
  }

  /** The number that the bits from i on stand for. */
  function Number(bits: seq<bool>, i: nat): nat
    requires i <= |bits|
    decreases |bits| - i
  {
    if i == |bits| then 0 else 2 * Number(bits, i + 1) + if bits[i] then 1 else 0
  }

  lemma AddSymmetric(x1: int, x: int, z: int, y: int, w: int)
    ensures AddX(y, w, x, z) == AddX(x, z, y, w) && AddZ(x1, y, w, x, z) == AddZ(x1, x, z, y, w)
  {
    AddIs(x1, x, z, y, w);
    AddIs(x1, y, w, x, z);
    var t, u := x * w - z * y, y * z - w * x;
    assert u == -t && u * u == t * t;
  }

  lemma StepMultiplies(mul: Multiples, x1: nat, s: State, n: nat, bit: bool, t: State, m: nat)
    requires Additive(mul, x1) && Stands(mul, n, s)
    requires t == CSwap(bit, Step(x1, CSwap(bit, s))) && m == 2 * n + if bit then 1 else 0
    ensures Stands(mul, m, t)
  {
    var c := CSwap(bit, s);
    assert Leads(mul, x1, n, s.x2, s.z2, s.x3, s.z3);
    Doubles(x1, c);
    Adds(x1, c);
    AddSymmetric(x1, s.x2, s.z2, s.x3, s.z3);
  }

  lemma {:induction false} PlainMultiplies(mul: Multiples, x1: nat, bits: seq<bool>, i: nat)
    requires Additive(mul, x1) && i <= |bits|
    ensures Stands(mul, Number(bits, i), Plain(x1, bits, i))
    decreases |bits| - i
  {
    if i < |bits| {
      PlainMultiplies(mul, x1, bits, i + 1);
      var s, n := Plain(x1, bits, i + 1), Number(bits, i + 1);
      StepMultiplies(mul, x1, s, n, bits[i], Plain(x1, bits, i), Number(bits, i));
    }
  }

  lemma LadderMultiplies(mul: Multiples, x1: nat, bits: seq<bool>)
    requires Additive(mul, x1)
    ensures Stands(mul, Number(bits, 0), Ladder(x1, bits))
  {
    LadderIsPlain(x1, bits);
    PlainMultiplies(mul, x1, bits, 0);
  }

  /** The bits of a number stand for it. */
  lemma {:induction false} NumberOfBits(k: nat, bits: seq<bool>, i: nat)
    requires i <= |bits| && k < Pow2(|bits|) && forall j :: 0 <= j < |bits| ==> bits[j] == Bit(k, j)
    ensures Number(bits, i) == k / Pow2(i)
    decreases |bits| - i
  {
    if i == |bits| {
      RemainderIs(k, Pow2(i), 0, k);
    } else {
      NumberOfBits(k, bits, i + 1);
      BitIsShift(k, i);
      Halves(k, Pow2(i));
    }
  }

  lemma Halves(k: nat, p: nat)
    requires p > 0
    ensures k / p == 2 * (k / (2 * p)) + k / p % 2
  {
    var d, r := k / (2 * p), k % (2 * p);
    if r < p { RemainderIs(k, p, 2 * d, r); } else { RemainderIs(k, p, 2 * d + 1, r - p); }
  }

  lemma ScalarNumber(scalar: seq<U8>, clamp: bool)
    requires |scalar| == 32
    ensures Number(ScalarBits(Scalar(scalar, clamp)), 0) == Scalar(scalar, clamp)
  {
    var bytes := if clamp then seq(|scalar|, i requires 0 <= i < |scalar| => ClampByte(scalar[i], i)) else scalar;
    BitsOf(bytes, ScalarBits(LeValue(bytes)));
  }

  lemma BitsOf(bytes: seq<U8>, bits: seq<bool>)
    requires |bits| == 8 * |bytes| && forall j :: 0 <= j < |bits| ==> bits[j] == Bit(LeValue(bytes), j)
    ensures Number(bits, 0) == LeValue(bytes)
  {
    LeValueBound(bytes);
    NumberOfBits(LeValue(bytes), bits, 0);
  }

  /** Whatever is meant by k times a point: if the formulas of the curve respect it, x25519 ends in coordinates (x : z)
      of the scalar times the point, and returns x / z, that is x times z to the power e, with e for 2^255 - 21. */
  lemma ResultMultiplies(mul: Multiples, scalar: seq<U8>, u: seq<U8>, clamp: bool, e: nat) returns (x: nat, z: nat)
    requires |scalar| == 32 && Additive(mul, LeValue(u) % P)
    ensures mul(Scalar(scalar, clamp), x, z) && X25519.Result(scalar, u, clamp, e) == FMul(FPow(z, e), x)
  {
    var x1, bits := LeValue(u) % P, ScalarBits(Scalar(scalar, clamp));
    ScalarNumber(scalar, clamp);
    LadderMultiplies(mul, x1, bits);
    x, z := Ladder(x1, bits).x2, Ladder(x1, bits).z2;
  }

  /** decodeScalar25519, bit by bit: bit 254 is set, bit 255 and the lowest three are clear, the others are kept. */
  lemma ClampedBits(scalar: seq<U8>, i: nat)
    requires |scalar| == 32 && i < 256
    ensures Bit(Scalar(scalar, true), i) <==> i == 254 || (3 <= i < 254 && Bit(LeValue(scalar), i))
  {
    var bytes := seq(|scalar|, j requires 0 <= j < |scalar| => ClampByte(scalar[j], j));
    LeValueBit(bytes, i);
    LeValueBit(scalar, i);
    ClampedByte(scalar[i / 8], i / 8, i % 8);
  }

  lemma ClampedByte(b: U8, at: nat, j: nat)
    requires j < 8 && at < 32
    ensures Bit(ClampByte(b, at), j) <==>
            if at == 0 then j >= 3 && Bit(b, j) else if at == 31 then j == 6 || (j < 6 && Bit(b, j)) else Bit(b, j)
  {
    if at == 0 {
      ClearLow(b, j, 3);
    } else if at == 31 {
      SetSix(b, j, 6);
    }
  }

  lemma ClearLow(b: nat, j: nat, n: nat)
    requires n == 3
    ensures Bit(b - b % 8, j) <==> j >= n && Bit(b, j)
  {
    Pow2Small(n);
    BitSplit(0, b / 8, n, j);
    BitSplit(b % 8, b / 8, n, j);
    ZeroBit(j);
  }

  lemma SetSix(b: nat, j: nat, n: nat)
    requires n == 6 && j < 8
    ensures Bit(b % 0x40 + 0x40, j) <==> j == n || (j < n && Bit(b, j))
  {
    Pow2Small(n);
    BitSplit(b % 0x40, 1, n, j);
    BitSplit(b % 0x40, b / 0x40, n, j);
    if j > n { ZeroBit(j - n - 1); }
  }
}
