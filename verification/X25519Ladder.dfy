/** The Montgomery ladder over the field, as in section 5 of RFC 7748. */
module LadderSpec {
  import opened Bits
  import opened LittleEndian
  import opened Field25519

  datatype State = State(x2: nat, z2: nat, x3: nat, z3: nat)

  function CSwap(swap: bool, s: State): State {
    if swap then State(s.x3, s.z3, s.x2, s.z2) else s
  }

  /** The products shared by the two halves of a ladder step. */
  function Sum(s: State): nat { FAdd(s.x2, s.z2) }
  function Diff(s: State): nat { FSub(s.x2, s.z2) }
  function AA(s: State): nat { FMul(Sum(s), Sum(s)) }
  function BB(s: State): nat { FMul(Diff(s), Diff(s)) }
  function E(s: State): nat { FSub(AA(s), BB(s)) }
  function DA(s: State): nat { FMul(FSub(s.x3, s.z3), Sum(s)) }
  function CB(s: State): nat { FMul(FAdd(s.x3, s.z3), Diff(s)) }
  function Square(x: nat): nat { FMul(x, x) }

  function Step(x1: nat, s: State): State {
    State(FMul(AA(s), BB(s)),
          FMul(E(s), FAdd(AA(s), FMul(121665, E(s)))),
          Square(FAdd(DA(s), CB(s))),
          FMul(x1, Square(FSub(DA(s), CB(s)))))
  }

  /** The ladder from the topmost bit down to bit i, with the pending swap. */
  function Run(x1: nat, bits: seq<bool>, i: nat): (r: (State, bool))
    requires i <= |bits|
    decreases |bits| - i
  {
    if i == |bits| then (State(1, 0, x1, 1), false)
    else
      var (s, swap) := Run(x1, bits, i + 1);
      (Step(x1, CSwap(swap != bits[i], s)), bits[i])
  }

  /** decodeScalar25519: clear the three low bits and the top bit, set bit 254. */
  function ClampByte(b: U8, i: nat): U8 {
    if i == 0 then b - b % 8 else if i == 31 then b % 0x40 + 0x40 else b
  }

  function Scalar(bytes: seq<U8>, clamp: bool): nat {
    if clamp then LeValue(seq(|bytes|, i requires 0 <= i < |bytes| => ClampByte(bytes[i], i))) else LeValue(bytes)
  }

  function ScalarBits(k: nat): (bits: seq<bool>)
    ensures |bits| == 256
  {
    seq(256, i requires 0 <= i < 256 => Bit(k, i))
  }

  function Ladder(x1: nat, bits: seq<bool>): State {
    var (s, swap) := Run(x1, bits, 0);
    CSwap(swap, s)
  }
}

module X25519Ladder {
  import opened Bits
  import opened Limbs32
  import opened Field25519
  import opened FieldLimbs
  import opened LadderSpec
  import opened LittleEndian

  /** Five field registers that do not overlap. */
  ghost predicate Registers(x2: array<U32>, z2: array<U32>, x3: array<U32>, z3: array<U32>, t1: array<U32>) {
    x2.Length == 8 && z2.Length == 8 && x3.Length == 8 && z3.Length == 8 && t1.Length == 8
    && x2 != z2 && x2 != x3 && x2 != z3 && x2 != t1 && z2 != x3 && z2 != z3 && z2 != t1
    && x3 != z3 && x3 != t1 && z3 != t1
  }

  /** ladder_part1, lines 207-212: the sums and differences and the two cross products. */
  method CrossProducts(x2: array<U32>, z2: array<U32>, x3: array<U32>, z3: array<U32>, t1: array<U32>, ghost s: State)
    requires Registers(x2, z2, x3, z3, t1)
    requires Loose(V(z2)) && Loose(V(z3)) && s == State(R(x2), R(z2), R(x3), R(z3))
    modifies x2, z2, x3, z3, t1
    ensures Loose(V(x2)) && Loose(V(z2)) && Loose(V(z3)) && Loose(V(t1))
    ensures R(t1) == Sum(s) && R(z2) == Diff(s) && R(z3) == DA(s) && R(x2) == CB(s)
  {
    Add(t1, x2, z2);
    Sub(z2, x2, z2);
    Add(x2, x3, z3);
    Sub(z3, x3, z3);
    FMulCommutes(R(t1), R(z3));
    Mul1(z3, t1);
    FMulCommutes(R(z2), R(x2));
    Mul1(x2, z2);
  }

  /** ladder_part1, lines 213-219 */
  method Doubling(x2: array<U32>, z2: array<U32>, x3: array<U32>, z3: array<U32>, t1: array<U32>, ghost s: State)
    requires Registers(x2, z2, x3, z3, t1)
    requires Loose(V(x2)) && Loose(V(z2)) && Loose(V(z3)) && Loose(V(t1))
    requires R(t1) == Sum(s) && R(z2) == Diff(s) && R(z3) == DA(s) && R(x2) == CB(s)
    modifies x2, z2, x3, z3, t1
    ensures Loose(V(x2)) && Loose(V(z2)) && Loose(V(x3)) && Loose(V(z3)) && Loose(V(t1))
    ensures R(x3) == FAdd(DA(s), CB(s)) && R(z3) == FSub(DA(s), CB(s))
    ensures R(t1) == AA(s) && R(x2) == E(s) && R(z2) == FAdd(AA(s), FMul(121665, E(s)))
  {
    Add(x3, z3, x2);
    Sub(z3, z3, x2);
    Mul1(t1, t1);
    Mul1(z2, z2);
    Sub(x2, t1, z2);
    AddMultiple(z2, x2, t1);
  }

  method AddMultiple(z2: array<U32>, x2: array<U32>, t1: array<U32>)
    requires z2.Length == 8 && x2.Length == 8 && t1.Length == 8 && z2 != x2 && z2 != t1 && Loose(V(t1))
    modifies z2
    ensures Loose(V(z2)) && R(z2) == FAdd(R(t1), FMul(121665, R(x2)))
  {
    MulA24(z2, x2);
    assert FAdd(R(z2), R(t1)) == FAdd(R(t1), R(z2));
    Add(z2, z2, t1);
  }

  /** `mul(z2, x2, a24, 1)`: the one-limb multiplication. */
  method MulA24(z2: array<U32>, x2: array<U32>)
    requires z2.Length == 8 && x2.Length == 8 && z2 != x2
    modifies z2
    ensures Loose(V(z2)) && R(z2) == FMul(121665, R(x2))
  {
    var a24 := new U32[1](_ => 121665);
    ghost var s := a24[..1];
    assert Val(s) == 121665 by { assert s[0] == 121665 && Val(s[1..]) == 0; }
    FMulCommutes(121665, R(x2));
    Mul(z2, x2, a24, 1);
  }

  /** ladder_part2 */
  method LadderPart2(x2: array<U32>, z2: array<U32>, x3: array<U32>, z3: array<U32>, t1: array<U32>, x1: array<U32>,
                     ghost s: State)
    requires Registers(x2, z2, x3, z3, t1) && x1.Length == 8 && x1 !in {x2, z2, x3, z3, t1}
    requires Loose(V(x2))
    requires R(x3) == FAdd(DA(s), CB(s)) && R(z3) == FSub(DA(s), CB(s))
    requires R(t1) == AA(s) && R(x2) == E(s) && R(z2) == FAdd(AA(s), FMul(121665, E(s)))
    modifies x2, z2, x3, z3
    ensures Loose(V(x2)) && Loose(V(z2)) && Loose(V(x3)) && Loose(V(z3))
    ensures State(R(x2), R(z2), R(x3), R(z3)) == Step(R(x1), s)
  {
    Mul1(z3, z3);
    Mul1(z3, x1);
    Mul1(x3, x3);
    Mul1(z2, x2);
    FSubTwice(AA(s), BB(s));
    Sub(x2, t1, x2);
    Mul1(x2, t1);
  }

  /** One limb of condswap: `xor = (a ^ b) & doswap; a ^= xor; b ^= xor`. */
  method SwapLimb(a: U32, b: U32, doswap: U32) returns (a': U32, b': U32)
    requires doswap == 0 || doswap == 0xFFFF_FFFF
    ensures (a', b') == if doswap == 0 then (a, b) else (b, a)
  {
    Pow2At(32);
    XorBound(a, b, 32);
    AndOnes(Xor(a, b), 32);
    XorSwap(a, b);
    var xor := And(Xor(a, b), doswap);
    a' := Xor(a, xor);
    b' := Xor(b, xor);
  }

  /** condswap over one register. */
  method SwapRegister(a: array<U32>, b: array<U32>, doswap: U32)
    requires a.Length == 8 && b.Length == 8 && a != b && (doswap == 0 || doswap == 0xFFFF_FFFF)
    modifies a, b
    ensures a[..] == if doswap == 0 then old(a[..]) else old(b[..])
    ensures b[..] == if doswap == 0 then old(b[..]) else old(a[..])
  {
    var i := 0;
    while i < 8
      invariant 0 <= i <= 8
      invariant forall k :: i <= k < 8 ==> a[k] == old(a[k]) && b[k] == old(b[k])
      invariant forall k :: 0 <= k < i ==> a[k] == if doswap == 0 then old(a[k]) else old(b[k])
      invariant forall k :: 0 <= k < i ==> b[k] == if doswap == 0 then old(b[k]) else old(a[k])
    {
      a[i], b[i] := SwapLimb(a[i], b[i], doswap);
      i := i + 1;
    }
  }

  /** condswap(x2, x3, doswap): (x2, z2) and (x3, z3) lie side by side, sixteen limbs each. */
  method CondSwap(x2: array<U32>, z2: array<U32>, x3: array<U32>, z3: array<U32>, t1: array<U32>, doswap: U32,
                  ghost s: State)
    requires Registers(x2, z2, x3, z3, t1) && (doswap == 0 || doswap == 0xFFFF_FFFF)
    requires Loose(V(z2)) && Loose(V(z3)) && s == State(R(x2), R(z2), R(x3), R(z3))
    modifies x2, z2, x3, z3
    ensures Loose(V(z2)) && Loose(V(z3)) && State(R(x2), R(z2), R(x3), R(z3)) == CSwap(doswap != 0, s)
    ensures {V(x2), V(x3)} == old({V(x2), V(x3)})
  {
    SwapRegister(x2, x3, doswap);
    SwapRegister(z2, z3, doswap);
  }

  /** -(limb_t)bit */
  function Mask(bit: bool): U32 {
    if bit then 0xFFFF_FFFF else 0
  }

  lemma MaskXor(a: bool, b: bool)
    ensures Xor(Mask(a), Mask(b)) == Mask(a != b)
  {
    XorSelf(0xFFFF_FFFF);
  }

  /** One turn of the loop of x25519_core, lines 256-260. */
  method LadderStep(x2: array<U32>, z2: array<U32>, x3: array<U32>, z3: array<U32>, t1: array<U32>, x1: array<U32>,
                    swap: bool, bit: bool, ghost s: State)
    requires Registers(x2, z2, x3, z3, t1) && x1.Length == 8 && x1 !in {x2, z2, x3, z3, t1}
    requires Loose(V(z2)) && Loose(V(z3)) && s == State(R(x2), R(z2), R(x3), R(z3))
    modifies x2, z2, x3, z3, t1
    ensures Loose(V(z2)) && Loose(V(z3))
    ensures State(R(x2), R(z2), R(x3), R(z3)) == Step(R(x1), CSwap(swap != bit, s))
  {
    MaskXor(swap, bit);
    CondSwap(x2, z2, x3, z3, t1, Xor(Mask(swap), Mask(bit)), s);
    ghost var s' := CSwap(swap != bit, s);
    CrossProducts(x2, z2, x3, z3, t1, s');
    Doubling(x2, z2, x3, z3, t1, s');
    LadderPart2(x2, z2, x3, z3, t1, x1, s');
  }

  /** Line 249: `bytei &= ~7` */
  lemma ClampFirst(b: U8)
    ensures ClampByte(b, 0) == And(b, 0xF8)
  {
    Pow2Small(3);
    Pow2Small(5);
    AndSplit(b, 0xF8, b % 8, b / 8, 0, 0x1F, 3);
    AndOnes(b / 8, 5);
  }

  /** Lines 251-252: `bytei &= 0x7F; bytei |= 0x40` */
  lemma ClampLast(b: U8)
    ensures ClampByte(b, 31) == Or(And(b, 0x7F), 0x40)
  {
    SevenBits(b);
    SetTop(And(b, 0x7F), b % 0x40, b / 0x40 % 2);
  }

  lemma SevenBits(b: U8)
    ensures And(b, 0x7F) == b % 0x40 + 0x40 * (b / 0x40 % 2)
  {
    Pow2Small(7);
    AndMask(b, 7, 0x7F);
    SplitSeven(b, b / 0x80);
  }

  lemma SplitSeven(b: nat, q: nat)
    requires q == b / 0x80
    ensures b % 0x80 == b % 0x40 + 0x40 * (b / 0x40 % 2)
  {
  }

  lemma SetTop(x: nat, lo: nat, hi: nat)
    requires x == lo + 0x40 * hi && lo < 0x40 && hi <= 1
    ensures Or(x, 0x40) == lo + 0x40
  {
    Pow2Small(6);
    OrSplit(x, 0x40, lo, hi, 0, 1, 6);
    assert Or(lo, 0) == lo && Or(hi, 1) == 1;
  }

  /** Lines 246-255: bit i of the scalar, clamped on the way. */
  method ScalarBit(scalar: seq<U8>, clamp: bool, i: nat) returns (bit: bool)
    requires |scalar| == 32 && i < 256
    ensures bit == ScalarBits(Scalar(scalar, clamp))[i]
  {
    var bytei := scalar[i / 8];
    if clamp {
      if i / 8 == 0 {
        bytei := bytei - bytei % 8;
      } else if i / 8 == 31 {
        bytei := bytei % 0x40 + 0x40;
      }
    }
    bit := bytei / Pow2(i % 8) % 2 == 1;
    BitIsShift(bytei, i % 8);
    ghost var bytes := if clamp then seq(32, k requires 0 <= k < 32 => ClampByte(scalar[k], k)) else scalar;
    LeValueBit(bytes, i);
  }

  /** The ladder loop of x25519_core, over the bits of the scalar from 255 down to 0. */
  method LadderLoop(x2: array<U32>, z2: array<U32>, x3: array<U32>, z3: array<U32>, t1: array<U32>, x1: array<U32>,
                    scalar: seq<U8>, clamp: bool)
    requires Registers(x2, z2, x3, z3, t1) && x1.Length == 8 && x1 !in {x2, z2, x3, z3, t1} && |scalar| == 32
    requires Loose(V(z2)) && Loose(V(z3)) && State(R(x2), R(z2), R(x3), R(z3)) == State(1, 0, R(x1), 1)
    modifies x2, z2, x3, z3, t1
    ensures State(R(x2), R(z2), R(x3), R(z3)) == Ladder(R(x1), ScalarBits(Scalar(scalar, clamp)))
  {
    ghost var s, u, bits := State(1, 0, R(x1), 1), R(x1), ScalarBits(Scalar(scalar, clamp));
    var swap := false;
    var i := 256;
    while i > 0
      invariant 0 <= i <= 256 && Loose(V(z2)) && Loose(V(z3)) && u == R(x1)
      invariant State(R(x2), R(z2), R(x3), R(z3)) == s && Run(u, bits, i) == (s, swap)
    {
      i := i - 1;
      var bit := ScalarBit(scalar, clamp, i);
      LadderStep(x2, z2, x3, z3, t1, x1, swap, bit, s);
      s := NextRun(u, bits, i, s, swap);
      swap := bit;
    }
    CondSwap(x2, z2, x3, z3, t1, Mask(swap), s);
  }

  lemma NextRun(x1: nat, bits: seq<bool>, i: nat, s: State, swap: bool) returns (s': State)
    requires i < |bits| && Run(x1, bits, i + 1) == (s, swap)
    ensures s' == Step(x1, CSwap(swap != bits[i], s)) && Run(x1, bits, i) == (s', bits[i])
  {
    s' := Step(x1, CSwap(swap != bits[i], s));
  }
}
