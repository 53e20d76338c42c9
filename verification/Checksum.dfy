/** The Internet checksum over a chain of buffers. */
module OnesComplement {
  import opened Bits

  const M: int := 0xFFFF

  /** End-around-carry addition of 16-bit words, section 2 of RFC 1071. */
  function Add(x: U16, y: U16): U16 {
    if x as int + y as int <= M then x + y else x + y - M
  }

  /** The flat sum over the bytes taken as little-endian words, an odd last byte filled up with zero. */
  function Sum(s: seq<U8>): U16 {
    if |s| == 0 then 0
    else if |s| == 1 then s[0] as int
    else Add(s[0] as int + 0x100 * s[1] as int, Sum(s[2..]))
  }

  /** The same over big-endian words, as on the network. */
  function NetworkSum(s: seq<U8>): U16 {
    if |s| == 0 then 0
    else if |s| == 1 then 0x100 * s[0] as int
    else Add(0x100 * s[0] as int + s[1] as int, NetworkSum(s[2..]))
  }

  /** v reduced by end-around carries: zero only for zero, and otherwise 1 to 0xFFFF. */
  function Reduce(v: nat): U16 {
    if v <= M then v else Reduce(v - M)
  }

  lemma {:induction false} ReduceIs(v: nat, r: int, k: int)
    requires 0 <= r <= M && (r == 0 <==> v == 0) && v == r + M * k
    ensures Reduce(v) as int == r
    decreases v
  {
    if v > M { ReduceIs(v - M, r, k - 1); }
  }

  lemma {:induction false} ReduceParts(v: nat) returns (k: int)
    ensures v == Reduce(v) as int + M * k && 0 <= k && (Reduce(v) == 0 <==> v == 0)
    decreases v
  {
    k := 0;
    if v > M {
      k := ReduceParts(v - M);
      k := k + 1;
    }
  }

  lemma ReduceSum(a: nat, b: nat)
    ensures Reduce(Reduce(a) + Reduce(b)) == Reduce(a + b)
  {
    var j := ReduceParts(a);
    var k := ReduceParts(b);
    var l := ReduceParts(Reduce(a) + Reduce(b));
    ReduceIs(a + b, Reduce(Reduce(a) + Reduce(b)), j + k + l);
  }

  lemma ReduceScaled(a: nat)
    ensures Reduce(0x100 * Reduce(a)) == Reduce(0x100 * a)
  {
    var j := ReduceParts(a);
    var l := ReduceParts(0x100 * Reduce(a));
    ReduceIs(0x100 * a, Reduce(0x100 * Reduce(a)), 0x100 * j + l);
  }

  /** 2^16 counts as one. */
  lemma ReduceTurn(a: nat)
    ensures Reduce(0x1_0000 * a) == Reduce(a)
  {
    var j := ReduceParts(a);
    ReduceIs(0x1_0000 * a, Reduce(a), a + j);
  }

  lemma ReduceSmall(x: U16)
    ensures Reduce(x) == x
  {
    ReduceIs(x, x, 0);
  }

  lemma AddIs(x: U16, y: U16)
    ensures Add(x, y) == Reduce(x as int + y as int)
  {
    ReduceIs(x as int + y as int, Add(x, y), if x as int + y as int <= M then 0 else 1);
  }

  /** Weighted sums of bytes: alternating weights, starting with 1 or with 256. */
  function Weigh(s: seq<U8>): nat {
    if |s| == 0 then 0 else s[0] as int + WeighHigh(s[1..])
  }

  function WeighHigh(s: seq<U8>): nat {
    if |s| == 0 then 0 else 0x100 * s[0] as int + Weigh(s[1..])
  }

  lemma {:induction false} SumIsWeighed(s: seq<U8>)
    ensures Sum(s) == Reduce(Weigh(s))
    decreases |s|
  {
    if |s| >= 2 {
      SumIsWeighed(s[2..]);
      var w: U16 := s[0] as int + 0x100 * s[1] as int;
      assert s[1..][1..] == s[2..];
      AddIs(w, Sum(s[2..]));
      ReduceSmall(w);
      ReduceSum(w, Weigh(s[2..]));
    } else if |s| == 1 {
      ReduceSmall(s[0] as int);
      assert s[1..] == [];
    }
  }

  lemma {:induction false} NetworkSumIsWeighed(s: seq<U8>)
    ensures NetworkSum(s) == Reduce(WeighHigh(s))
    decreases |s|
  {
    if |s| >= 2 {
      NetworkSumIsWeighed(s[2..]);
      var w: U16 := 0x100 * s[0] as int + s[1] as int;
      assert s[1..][1..] == s[2..];
      AddIs(w, NetworkSum(s[2..]));
      ReduceSmall(w);
      ReduceSum(w, WeighHigh(s[2..]));
    } else if |s| == 1 {
      ReduceSmall(0x100 * s[0] as int);
      assert s[1..] == [];
    }
  }

  /** Starting with the other weight turns the sum by eight bits. */
  lemma {:induction false} OtherWeight(s: seq<U8>)
    ensures Reduce(WeighHigh(s)) == Reduce(0x100 * Weigh(s))
    ensures Reduce(Weigh(s)) == Reduce(0x100 * WeighHigh(s))
    decreases |s|
  {
    if |s| > 0 {
      var t, b := s[1..], s[0] as int;
      OtherWeight(t);
      OtherStep(0x100 * b, Weigh(t), 0x100 * b, 0x100 * WeighHigh(t));
      ReduceTurn(b);
      OtherStep(b, WeighHigh(t), 0x1_0000 * b, 0x100 * Weigh(t));
    }
  }

  lemma OtherStep(a: nat, x: nat, b: nat, y: nat)
    requires Reduce(a) == Reduce(b) && Reduce(x) == Reduce(y)
    ensures Reduce(a + x) == Reduce(b + y)
  {
    ReduceSum(a, x);
    ReduceSum(b, y);
  }

  lemma {:induction false} WeighConcat(a: seq<U8>, b: seq<U8>)
    ensures Weigh(a + b) == Weigh(a) + if |a| % 2 == 0 then Weigh(b) else WeighHigh(b)
    ensures WeighHigh(a + b) == WeighHigh(a) + if |a| % 2 == 0 then WeighHigh(b) else Weigh(b)
    decreases |a|
  {
    if |a| == 0 {
      assert a + b == b;
    } else {
      assert (a + b)[1..] == a[1..] + b;
      WeighConcat(a[1..], b);
    }
  }
}

/** What the sum is, as a number. */
module ChecksumTheory {
  import opened Bits
  import opened OnesComplement

  /** The first k bytes, those at odd places counted 256 times. */
  function ByteSum(s: seq<U8>, k: nat): nat
    requires k <= |s|
  {
    if k == 0 then 0 else ByteSum(s, k - 1) + if k % 2 == 1 then s[k - 1] as int else 0x100 * s[k - 1] as int
  }

  lemma {:induction false} ByteSumIsWeighed(s: seq<U8>, k: nat)
    requires k <= |s|
    ensures ByteSum(s, k) == Weigh(s[..k])
    decreases k
  {
    if k > 0 {
      ByteSumIsWeighed(s, k - 1);
      assert s[..k] == s[..k - 1] + [s[k - 1]];
      WeighConcat(s[..k - 1], [s[k - 1]]);
      OneByte(s[k - 1]);
    }
  }

  lemma OneByte(x: U8)
    ensures Weigh([x]) == x as int && WeighHigh([x]) == 0x100 * x as int
  {
    assert [x][1..] == [];
  }

  /** Section 1 of RFC 1071: the sum of all 16-bit words modulo 0xFFFF, with 0xFFFF for zero unless every byte is. */
  lemma SumIs(s: seq<U8>)
    ensures Sum(s) as int % 0xFFFF == ByteSum(s, |s|) % 0xFFFF
    ensures Sum(s) == 0 <==> forall i :: 0 <= i < |s| ==> s[i] == 0
  {
    assert s[..|s|] == s;
    ByteSumIsWeighed(s, |s|);
    SumIsWeighed(s);
    ReduceModulo(Weigh(s));
    ZeroWeighs(s);
  }

  lemma ReduceModulo(v: nat)
    ensures Reduce(v) as int % 0xFFFF == v % 0xFFFF && (Reduce(v) == 0 <==> v == 0)
  {
    var k := ReduceParts(v);
    SameRemainder(v, Reduce(v), k);
  }

  lemma SameRemainder(v: int, r: int, k: int)
    requires v == r + 0xFFFF * k
    ensures r % 0xFFFF == v % 0xFFFF
  {
  }

  lemma {:induction false} ZeroWeighs(s: seq<U8>)
    ensures Weigh(s) == 0 <==> forall i :: 0 <= i < |s| ==> s[i] == 0
    ensures WeighHigh(s) == 0 <==> forall i :: 0 <= i < |s| ==> s[i] == 0
    decreases |s|
  {
    if |s| > 0 {
      ZeroWeighs(s[1..]);
      assert s == [s[0]] + s[1..];
    }
  }
}

module Checksum {
  import opened Bits
  import opened OnesComplement

  /** A buffer of a chain: its bytes, and whether they start at an odd address. */
  datatype Pbuf = Pbuf(data: seq<U8>, odd: bool)

  function Flatten(chain: seq<Pbuf>): seq<U8> {
    if |chain| == 0 then [] else Flatten(chain[..|chain| - 1]) + chain[|chain| - 1].data
  }

  /** FOLD_U32T and SWAP_BYTES_IN_WORD */
  function Fold(u: U32): U32 {
    u / 0x1_0000 + u % 0x1_0000
  }

  function Swap(w: U32): U32 {
    w % 0x100 * 0x100 + w / 0x100 % 0x100
  }

  lemma FoldOnce(u: U32)
    requires u <= 2 * M
    ensures Fold(u) == Reduce(u)
  {
    ReduceIs(u, Fold(u), u / 0x1_0000);
  }

  lemma FoldTwice(u: U32)
    ensures Fold(Fold(u)) == Reduce(u)
  {
    var v := Fold(u);
    ReduceIs(u, Fold(v), u / 0x1_0000 + v / 0x1_0000);
  }

  lemma SwapIs(w: U16)
    ensures Swap(w) == Reduce(0x100 * w as int)
  {
    ReduceIs(0x100 * w as int, Swap(w), w as int / 0x100);
  }

  /** The words of s from its start on. */
  lemma WeighWord(s: seq<U8>, i: nat)
    requires i % 2 == 0 && i + 1 < |s|
    ensures Weigh(s[..i + 2]) == Weigh(s[..i]) + s[i] as int + 0x100 * s[i + 1] as int
  {
    assert s[..i + 2] == s[..i] + [s[i], s[i + 1]];
    WeighConcat(s[..i], [s[i], s[i + 1]]);
    WeighPair(s[i], s[i + 1]);
  }

  lemma WeighPair(x: U8, y: U8)
    ensures Weigh([x, y]) == x as int + 0x100 * y as int
  {
    assert [x, y][1..] == [y] && [y][1..] == [];
    assert WeighHigh([y]) == 0x100 * y as int + Weigh([]);
  }

  /** Lines 146-161 from the aligned byte on: whole words go to sum, a last byte is left over. */
  method AddWords(s: seq<U8>) returns (sum: U32, rest: U8)
    requires |s| <= 0x2_0000
    ensures sum as int + rest as int == Weigh(s) && sum as int <= |s| / 2 * 0xFFFF && (|s| % 2 == 0 ==> rest == 0)
  {
    sum, rest := 0, 0;
    var i := 0;
    while |s| - i > 1
      invariant 0 <= i <= |s| && i % 2 == 0 && sum as int == Weigh(s[..i]) && sum as int <= i / 2 * 0xFFFF
    {
      WeighWord(s, i);
      sum := sum as int + (s[i] as int + 0x100 * s[i + 1] as int);
      i := i + 2;
    }
    WeighLast(s, i);
    if |s| - i > 0 {
      rest := s[i];
    }
  }

  /** A last byte without a partner stands in the low half of its word. */
  lemma {:induction false} WeighLast(s: seq<U8>, i: nat)
    requires |s| - 1 <= i <= |s| && i % 2 == 0
    ensures Weigh(s) == Weigh(s[..i]) + if i < |s| then s[i] as int else 0
  {
    var last := s[i..];
    assert s == s[..i] + last;
    WeighConcat(s[..i], last);
    if i < |s| {
      assert last == [s[i]] && last[1..] == [];
    }
  }

  /** lwip_standard_chksum: right whatever the alignment, and without overflow up to 0x20000 bytes. */
  method StandardChksum(p: Pbuf) returns (r: U16)
    requires |p.data| <= 0x2_0000
    ensures r == Sum(p.data)
  {
    SumIsWeighed(p.data);
    if p.odd && |p.data| > 0 {
      var sum, rest := AddWords(p.data[1..]);
      ghost var v := WeighHigh(p.data);
      assert v == sum as int + rest as int + 0x100 * p.data[0] as int;
      var all: U32 := sum as int + (rest as int + 0x100 * p.data[0] as int);
      FoldTwice(all);
      var f := Fold(Fold(all));
      SwapIs(f);
      ReduceScaled(v);
      OtherWeight(p.data);
      r := Swap(f);
    } else {
      var sum, rest := AddWords(p.data);
      var all: U32 := sum as int + rest as int;
      FoldTwice(all);
      r := Fold(Fold(all));
      if p.odd {
        SwapIs(r);
        ReduceSmall(0);
        r := Swap(r);
      }
    }
  }

  /** What the accumulator holds for the value v: turned by eight bits after an odd number of bytes. */
  ghost function Turned(v: nat, odd: bool): U16 {
    if odd then Reduce(0x100 * v) else Reduce(v)
  }

  /** The value v after a buffer more; w and x weigh its bytes from an even and from an odd position. */
  ghost function More(v: nat, odd: bool, w: nat, x: nat): nat {
    if odd then v + x else v + w
  }

  lemma TurnedMore(v: nat, odd: bool, w: nat, x: nat)
    requires Reduce(w) == Reduce(0x100 * x)
    ensures Reduce(Turned(v, odd) as int + Reduce(w) as int) == Turned(More(v, odd, w, x), odd)
  {
    if odd {
      ReduceSum(0x100 * v, 0x100 * x);
      assert 0x100 * v + 0x100 * x == 0x100 * (v + x);
    } else {
      ReduceSum(v, w);
    }
  }

  lemma TurnedSwap(v: nat, odd: bool)
    ensures Reduce(0x100 * Turned(v, odd) as int) == Turned(v, !odd)
  {
    if odd {
      ReduceScaled(0x100 * v);
      ReduceTurn(v);
      assert 0x100 * (0x100 * v) == 0x1_0000 * v;
    } else {
      ReduceScaled(v);
    }
  }

  /** One buffer: lines 266-274 and 574-579. */
  method AddBuffer(p: Pbuf, acc: U16, swapped: bool, ghost v: nat) returns (acc': U16, swapped': bool)
    requires |p.data| <= 0xFFFF && acc == Turned(v, swapped)
    ensures swapped' == (swapped != (|p.data| % 2 == 1))
    ensures acc' == Turned(More(v, swapped, Weigh(p.data), WeighHigh(p.data)), swapped')
  {
    var c := StandardChksum(p);
    SumIsWeighed(p.data);
    OtherWeight(p.data);
    TurnedMore(v, swapped, Weigh(p.data), WeighHigh(p.data));
    var sum: U32 := acc as int + c as int;
    FoldOnce(sum);
    acc', swapped' := Fold(sum), swapped;
    if |p.data| % 2 != 0 {
      swapped' := !swapped';
      SwapIs(acc');
      TurnedSwap(More(v, swapped, Weigh(p.data), WeighHigh(p.data)), swapped);
      acc' := Swap(acc');
    }
  }

  /** The walk over the chain, lines 262-280 and 573-586. */
  method SumChain(chain: seq<Pbuf>, start: U16) returns (acc: U16)
    requires forall i :: 0 <= i < |chain| ==> |chain[i].data| <= 0xFFFF
    ensures acc == Reduce(start as int + Weigh(Flatten(chain)))
  {
    var swapped := false;
    acc := start;
    ghost var v: nat := start;
    ReduceSmall(start);
    for i := 0 to |chain|
      invariant v == start as int + Weigh(Flatten(chain[..i])) && acc == Turned(v, swapped)
      invariant swapped == (|Flatten(chain[..i])| % 2 == 1)
    {
      assert chain[..i + 1][..i] == chain[..i];
      WeighConcat(Flatten(chain[..i]), chain[i].data);
      ghost var more := More(v, swapped, Weigh(chain[i].data), WeighHigh(chain[i].data));
      acc, swapped := AddBuffer(chain[i], acc, swapped, v);
      v := more;
    }
    assert chain[..|chain|] == chain;
    if swapped {
      SwapIs(acc);
      TurnedSwap(v, true);
      acc := Swap(acc);
    }
  }

  /** inet_chksum_pbuf: the complement of the flat sum, however the bytes are divided and aligned. */
  method ChksumPbuf(chain: seq<Pbuf>) returns (r: U16)
    requires forall i :: 0 <= i < |chain| ==> |chain[i].data| <= 0xFFFF
    ensures r as int == 0xFFFF - Sum(Flatten(chain)) as int
  {
    var acc := SumChain(chain, 0);
    SumIsWeighed(Flatten(chain));
    r := 0xFFFF - acc;
  }

  /** The pseudo header that goes before the data: addresses, zero and protocol, length; all in network order. */
  function PseudoHeader(src: seq<U8>, dst: seq<U8>, proto: U8, len: U16): seq<U8> {
    src + dst + [0, proto, len / 0x100, len % 0x100]
  }

  lemma PseudoHeaderLayout(src: seq<U8>, dst: seq<U8>, proto: U8, len: U16)
    requires |src| == 4 && |dst| == 4
    ensures var h := PseudoHeader(src, dst, proto, len);
            && |h| == 12 && h[..4] == src && h[4..8] == dst && h[8] == 0 && h[9] == proto
            && 0x100 * h[10] as int + h[11] as int == len as int
  {
  }

  /** inet_chksum_pseudo with inet_cksum_pseudo_base, for IPv4 addresses of four bytes. */
  method ChksumPseudo(chain: seq<Pbuf>, proto: U8, len: U16, src: seq<U8>, dst: seq<U8>) returns (r: U16)
    requires |src| == 4 && |dst| == 4 && forall i :: 0 <= i < |chain| ==> |chain[i].data| <= 0xFFFF
    ensures r as int == 0xFFFF - Sum(PseudoHeader(src, dst, proto, len) + Flatten(chain)) as int
  {
    var start: U32 := Word(src, 0) as int + Word(src, 2) as int + Word(dst, 0) as int + Word(dst, 2) as int;
    FoldTwice(start);
    var acc := SumChain(chain, Fold(Fold(start)));
    var tail := 0x100 * proto as int + SwapLen(len) as int;
    FoldTwice(acc as int + tail);
    PseudoSum(src, dst, proto, len, Flatten(chain), start, acc, tail);
    r := 0xFFFF - Fold(Fold(acc as int + tail));
  }

  lemma PseudoSum(src: seq<U8>, dst: seq<U8>, proto: U8, len: U16, data: seq<U8>, start: nat, acc: U16, tail: nat)
    requires |src| == 4 && |dst| == 4 && acc == Reduce(Reduce(start) as int + Weigh(data))
    requires start == Word(src, 0) as int + Word(src, 2) as int + Word(dst, 0) as int + Word(dst, 2) as int
    requires tail == 0x100 * proto as int + SwapLen(len) as int
    ensures Reduce(acc as int + tail) == Sum(PseudoHeader(src, dst, proto, len) + data)
  {
    SumIsWeighed(PseudoHeader(src, dst, proto, len) + data);
    PseudoWeighs(src, dst, proto, len, data);
    PseudoReduces(start, Weigh(data), tail);
  }

  /** ip4_addr_get_u32 and the masks: a 16-bit half of an address as it lies in memory. */
  function Word(s: seq<U8>, i: nat): U16
    requires i + 1 < |s|
  {
    s[i] as int + 0x100 * s[i + 1] as int
  }

  /** lwip_htons */
  function SwapLen(len: U16): U16 {
    len / 0x100 + 0x100 * (len % 0x100)
  }

  lemma PseudoReduces(start: nat, w: nat, tail: nat)
    ensures Reduce(Reduce(Reduce(start) as int + w) as int + tail) == Reduce(start + w + tail)
  {
    var i := ReduceParts(start);
    var j := ReduceParts(Reduce(start) as int + w);
    var k := ReduceParts(Reduce(Reduce(start) as int + w) as int + tail);
    ReduceIs(start + w + tail, Reduce(Reduce(Reduce(start) as int + w) as int + tail), i + j + k);
  }

  lemma WeighFour(s: seq<U8>)
    requires |s| == 4
    ensures Weigh(s) == Word(s, 0) as int + Word(s, 2) as int
  {
    assert s == [s[0], s[1]] + [s[2], s[3]];
    WeighConcat([s[0], s[1]], [s[2], s[3]]);
    WeighPair(s[0], s[1]);
    WeighPair(s[2], s[3]);
  }

  lemma PseudoWeighs(src: seq<U8>, dst: seq<U8>, proto: U8, len: U16, data: seq<U8>)
    requires |src| == 4 && |dst| == 4
    ensures Weigh(PseudoHeader(src, dst, proto, len) + data) ==
            Word(src, 0) as int + Word(src, 2) as int + Word(dst, 0) as int + Word(dst, 2) as int
            + Weigh(data) + (0x100 * proto as int + SwapLen(len) as int)
  {
    var t: seq<U8> := [0, proto, len / 0x100, len % 0x100];
    WeighConcat(src + dst + t, data);
    WeighConcat(src + dst, t);
    WeighConcat(src, dst);
    WeighFour(src);
    WeighFour(dst);
    WeighFour(t);
  }

  /** Byte order does not matter: the network's big-endian sum is the same with its bytes swapped. */
  lemma ByteOrder(s: seq<U8>)
    ensures NetworkSum(s) == Swap(Sum(s))
  {
    NetworkSumIsWeighed(s);
    SumIsWeighed(s);
    OtherWeight(s);
    ReduceScaled(Weigh(s));
    SwapIs(Sum(s));
  }

  /** A receiver that sums data and checksum together gets 0xFFFF. */
  lemma ChecksumVerifies(s: seq<U8>, r: U16)
    requires |s| % 2 == 0 && r as int == 0xFFFF - Sum(s) as int
    ensures Sum(s + [r % 0x100, r / 0x100]) == 0xFFFF
  {
    var c: seq<U8> := [r % 0x100, r / 0x100];
    SumIsWeighed(s);
    SumIsWeighed(s + c);
    WeighConcat(s, c);
    WeighPair(r % 0x100, r / 0x100);
    ReduceSum(Weigh(s), r);
    ReduceSmall(r);
    ReduceSmall(0xFFFF);
  }
}
