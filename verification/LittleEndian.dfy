/** Byte strings read as little-endian numbers, and back. */
module LittleEndian {
  import opened Bits

  function LeValue(s: seq<U8>): nat {
    if |s| == 0 then 0 else s[0] + 256 * LeValue(s[1..])
  }

  /** v with its n low bytes dropped. */
  function DropBytes(v: nat, n: nat): nat {
    if n == 0 then v else DropBytes(v / 256, n - 1)
  }

  /** The n low bytes of v, least significant first. */
  function LeBytes(v: nat, n: nat): (s: seq<U8>)
    ensures |s| == n
  {
    seq(n, i requires 0 <= i < n => DropBytes(v, i) % 256)
  }

  lemma LeBytesStep(v: nat, n: nat)
    requires n > 0
    ensures LeBytes(v, n) == [v % 256] + LeBytes(v / 256, n - 1)
  {
  }

  lemma {:induction false} LeValueBound(s: seq<U8>)
    ensures LeValue(s) < Pow2(8 * |s|)
  {
    if |s| > 0 {
      LeValueBound(s[1..]);
      Pow2Add(8, 8 * |s[1..]|);
    }
  }

  lemma {:induction false} LeValueConcat(a: seq<U8>, b: seq<U8>)
    ensures LeValue(a + b) == LeValue(a) + Pow2(8 * |a|) * LeValue(b)
  {
    if |a| == 0 {
      assert a + b == b;
    } else {
      assert (a + b)[1..] == a[1..] + b;
      LeValueConcat(a[1..], b);
      Pow2Add(8, 8 * |a[1..]|);
      Scale(256, LeValue(a[1..]), Pow2(8 * |a[1..]|), LeValue(b));
    }
  }

  lemma Scale(c: nat, x: nat, p: nat, y: nat)
    ensures c * (x + p * y) == c * x + (c * p) * y
  {
  }

  lemma {:induction false} LeValueZeros(s: seq<U8>)
    requires forall i :: 0 <= i < |s| ==> s[i] == 0
    ensures LeValue(s) == 0
  {
    if |s| > 0 { LeValueZeros(s[1..]); }
  }

  /** Decoding undoes encoding, up to the width of the encoding. */
  lemma {:induction false} LeValueOfBytes(v: nat, n: nat)
    ensures LeValue(LeBytes(v, n)) == v % Pow2(8 * n)
  {
    if n > 0 {
      LeValueOfBytes(v / 256, n - 1);
      LeBytesStep(v, n);
      Pow2Add(8, 8 * (n - 1));
      ModChain(v, Pow2(8 * (n - 1)));
    }
  }

  lemma ModChain(v: nat, q: nat)
    requires q > 0
    ensures v % (256 * q) == v % 256 + 256 * ((v / 256) % q)
  {
    var d, r := (v / 256) / q, (v / 256) % q;
    Scale(256, r, q, d);
    RemainderIs(v, 256 * q, d, 256 * r + v % 256);
  }

  /** Encoding undoes decoding. */
  lemma {:induction false} LeBytesOfValue(s: seq<U8>)
    ensures LeBytes(LeValue(s), |s|) == s
  {
    if |s| > 0 {
      LeBytesOfValue(s[1..]);
      LeBytesStep(LeValue(s), |s|);
    }
  }

  /** U8TO32 */
  function Load32(b0: U8, b1: U8, b2: U8, b3: U8): U32 {
    b0 + 0x100 * b1 + 0x1_0000 * b2 + 0x100_0000 * b3
  }

  /** The C macro assembles the same word with shifts and ORs. */
  lemma Load32IsOr(b0: U8, b1: U8, b2: U8, b3: U8)
    ensures Load32(b0, b1, b2, b3) == Or(Or(Or(b0, 0x100 * b1), 0x1_0000 * b2), 0x100_0000 * b3)
  {
    Pow2Small(8);
    Pow2At(16);
    Pow2At(24);
    OrDisjoint(b0, b1, 8);
    OrDisjoint(b0 + 0x100 * b1, b2, 16);
    OrDisjoint(b0 + 0x100 * b1 + 0x1_0000 * b2, b3, 24);
  }

  lemma LeValue4(s: seq<U8>)
    requires |s| == 4
    ensures LeValue(s) == Load32(s[0], s[1], s[2], s[3])
  {
    var t := s[1..];
    var u := t[1..];
    var v := u[1..];
    assert LeValue(v) == v[0] + 256 * LeValue(v[1..]) == v[0];
    assert LeValue(u) == u[0] + 256 * LeValue(v);
    assert LeValue(t) == t[0] + 256 * LeValue(u);
  }

  lemma LeValue8(s: seq<U8>)
    requires |s| == 8
    ensures LeValue(s) == Load32(s[0], s[1], s[2], s[3]) + 0x1_0000_0000 * Load32(s[4], s[5], s[6], s[7])
  {
    assert s == s[..4] + s[4..];
    LeValueConcat(s[..4], s[4..]);
    Pow2At(8 * |s[..4]|);
    LeValue4(s[..4]);
    LeValue4(s[4..]);
  }

  /** Sixteen bytes as four words. */
  lemma LeValue16(s: seq<U8>)
    requires |s| == 16
    ensures LeValue(s) == Load32(s[0], s[1], s[2], s[3]) + 0x1_0000_0000 * Load32(s[4], s[5], s[6], s[7])
                          + 0x1_0000_0000_0000_0000 * Load32(s[8], s[9], s[10], s[11])
                          + 0x1_0000_0000_0000_0000_0000_0000 * Load32(s[12], s[13], s[14], s[15])
  {
    assert s == s[..8] + s[8..];
    LeValueConcat(s[..8], s[8..]);
    LeValue8(s[..8]);
    LeValue8(s[8..]);
    Pow2At(8 * |s[..8]|);
    var lo, hi := LeValue(s[..8]), LeValue(s[8..]);
    assert LeValue(s) == lo + 0x1_0000_0000_0000_0000 * hi;
  }

  lemma {:induction false} LeBytesSplit(v: nat, n: nat, m: nat)
    ensures LeBytes(v, n + m) == LeBytes(v, n) + LeBytes(DropBytes(v, n), m)
  {
    if n > 0 {
      LeBytesSplit(v / 256, n - 1, m);
      LeBytesStep(v, n + m);
      LeBytesStep(v, n);
      assert n + m - 1 == n - 1 + m;
    }
  }

  lemma DropFour(v: nat)
    ensures DropBytes(v, 4) == v / 0x1_0000_0000
  {
    var w := v / 256 / 256;
    assert DropBytes(w, 2) == DropBytes(w / 256, 1) == DropBytes(w / 256 / 256, 0);
    assert DropBytes(v, 4) == DropBytes(w, 2);
  }

  /** U32TO8 stores the low four bytes of its argument, whatever is above them. */
  function Store32(v: nat): (s: seq<U8>)
    ensures |s| == 4
  {
    [v % 0x100, v / 0x100 % 0x100, v / 0x1_0000 % 0x100, v / 0x100_0000 % 0x100]
  }

  lemma Store32Value(v: nat)
    ensures var s := Store32(v); Load32(s[0], s[1], s[2], s[3]) == v % 0x1_0000_0000
  {
    var t1 := v / 0x100;
    var t2 := t1 / 0x100;
    var t3 := t2 / 0x100;
    assert t2 == v / 0x1_0000 && t3 == v / 0x100_0000;
    RemainderIs(v, 0x1_0000_0000, t3 / 0x100,
                v % 0x100 + 0x100 * (t1 % 0x100) + 0x1_0000 * (t2 % 0x100) + 0x100_0000 * (t3 % 0x100));
  }

  lemma LeValueStore32(v: nat, s: seq<U8>)
    requires s == Store32(v)
    ensures LeValue(s) == v % 0x1_0000_0000
  {
    Store32Value(v);
    LeValue4(s);
  }

  lemma Load32Injective(s: seq<U8>, t: seq<U8>)
    requires |s| == 4 && |t| == 4
    requires Load32(s[0], s[1], s[2], s[3]) == Load32(t[0], t[1], t[2], t[3])
    ensures s == t
  {
    DigitsInjective(s[0], s[1], s[2], s[3], t[0], t[1], t[2], t[3]);
  }

  lemma DigitsInjective(a0: int, a1: int, a2: int, a3: int, b0: int, b1: int, b2: int, b3: int)
    requires 0 <= a0 < 0x100 && 0 <= a1 < 0x100 && 0 <= a2 < 0x100
    requires 0 <= b0 < 0x100 && 0 <= b1 < 0x100 && 0 <= b2 < 0x100
    requires a0 + 0x100 * a1 + 0x1_0000 * a2 + 0x100_0000 * a3 == b0 + 0x100 * b1 + 0x1_0000 * b2 + 0x100_0000 * b3
    ensures a0 == b0 && a1 == b1 && a2 == b2 && a3 == b3
  {
    Digit(a0, a1 + 0x100 * a2 + 0x1_0000 * a3, b0, b1 + 0x100 * b2 + 0x1_0000 * b3);
    Digit(a1, a2 + 0x100 * a3, b1, b2 + 0x100 * b3);
    Digit(a2, a3, b2, b3);
  }

  lemma Digit(a: int, x: int, b: int, y: int)
    requires 0 <= a < 0x100 && 0 <= b < 0x100
    requires a + 0x100 * x == b + 0x100 * y
    ensures a == b && x == y
  {
  }

  lemma Store32IsLeBytes(w: nat, v: nat)
    requires v % 0x1_0000_0000 == w % 0x1_0000_0000
    ensures Store32(w) == LeBytes(v, 4)
  {
    Store32Value(w);
    LeValueOfBytes(v, 4);
    Pow2At(8 * 4);
    LeValue4(LeBytes(v, 4));
    Load32Injective(Store32(w), LeBytes(v, 4));
  }

  /** Four words stored one after the other encode the number they are the base-2^32 digits of. */
  lemma StoreFour(w0: nat, w1: nat, w2: nat, w3: nat, v: nat)
    requires v % 0x1_0000_0000 == w0 % 0x1_0000_0000
    requires v / 0x1_0000_0000 % 0x1_0000_0000 == w1 % 0x1_0000_0000
    requires v / 0x1_0000_0000_0000_0000 % 0x1_0000_0000 == w2 % 0x1_0000_0000
    requires v / 0x1_0000_0000_0000_0000_0000_0000 % 0x1_0000_0000 == w3 % 0x1_0000_0000
    ensures Store32(w0) + Store32(w1) + Store32(w2) + Store32(w3) == LeBytes(v, 16)
  {
    var q1, q2, q3 := v / 0x1_0000_0000, v / 0x1_0000_0000_0000_0000, v / 0x1_0000_0000_0000_0000_0000_0000;
    assert q1 / 0x1_0000_0000 == q2 && q2 / 0x1_0000_0000 == q3;
    LeBytesSplit(v, 4, 12); DropFour(v);
    LeBytesSplit(q1, 4, 8); DropFour(q1);
    LeBytesSplit(q2, 4, 4); DropFour(q2);
    Store32IsLeBytes(w0, v);
    Store32IsLeBytes(w1, q1);
    Store32IsLeBytes(w2, q2);
    Store32IsLeBytes(w3, q3);
  }

  /** Bit i of a little-endian number is bit i mod 8 of its byte i div 8. */
  lemma {:induction false} LeValueBit(s: seq<U8>, i: nat)
    requires i < 8 * |s|
    ensures Bit(LeValue(s), i) <==> Bit(s[i / 8], i % 8)
  {
    Pow2Small(8);
    BitSplit(s[0], LeValue(s[1..]), 8, i);
    if i >= 8 {
      LeValueBit(s[1..], i - 8);
      assert (i - 8) / 8 == i / 8 - 1 && (i - 8) % 8 == i % 8;
    }
  }
}
