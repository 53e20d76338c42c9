/** Byte strings: zeros, and pieces put together. */
module ByteStrings {
  import opened Bits

  function Zeros(n: nat): seq<U8> {
    seq(n, i requires 0 <= i < n => 0)
  }

  function Flatten(parts: seq<seq<U8>>): seq<U8> {
    if |parts| == 0 then [] else Flatten(parts[..|parts| - 1]) + parts[|parts| - 1]
  }

  lemma Rejoined(a: seq<U8>, d: nat, len: nat)
    requires d + len <= |a|
    ensures a == a[..d] + a[d..d + len] + a[d + len..]
  {
  }

  lemma FlattenPush(parts: seq<seq<U8>>, x: seq<U8>)
    ensures Flatten(parts + [x]) == Flatten(parts) + x
  {
    assert (parts + [x])[..|parts|] == parts;
  }

  lemma {:induction false} FlattenConcat(a: seq<seq<U8>>, b: seq<seq<U8>>)
    ensures Flatten(a + b) == Flatten(a) + Flatten(b)
    decreases |b|
  {
    if |b| == 0 {
      assert a + b == a;
    } else {
      var n := |b| - 1;
      assert (a + b)[..|a| + n] == a + b[..n];
      FlattenConcat(a, b[..n]);
    }
  }

  lemma FlattenOne(x: seq<U8>)
    ensures Flatten([x]) == x
  {
    assert [x][..0] == [];
  }

  lemma FlattenCons(x: seq<U8>, rest: seq<seq<U8>>)
    ensures Flatten([x] + rest) == x + Flatten(rest)
  {
    FlattenConcat([x], rest);
    FlattenOne(x);
  }

  lemma FlattenHead(parts: seq<seq<U8>>)
    requires |parts| > 0
    ensures Flatten(parts) == parts[0] + Flatten(parts[1..])
  {
    var x, rest := parts[0], parts[1..];
    FlattenCons(x, rest);
    assert [x] + rest == parts;
  }
}

/** Writing into part of a byte buffer. */
module Buffers {
  import opened Bits

  /** Overwrites what follows the first |done| bytes. */
  method Append(from: seq<U8>, dst: array<U8>, at: nat, ghost done: seq<U8>, ghost rest: seq<U8>)
    requires dst[..] == done + rest && |done| == at && |from| <= |rest|
    modifies dst
    ensures dst[..] == (done + from) + rest[|from|..]
  {
    assert dst[..at] == done && dst[at + |from|..] == rest[|from|..];
    CopyIn(from, dst, at);
  }

  method CopyIn(from: seq<U8>, dst: array<U8>, at: nat)
    requires at + |from| <= dst.Length
    modifies dst
    ensures dst[..] == old(dst[..at]) + from + old(dst[at + |from|..])
  {
    for i := 0 to |from|
      invariant forall x :: at <= x < at + i ==> dst[x] == from[x - at]
      invariant forall x :: 0 <= x < dst.Length && !(at <= x < at + i) ==> dst[x] == old(dst[x])
    {
      dst[at + i] := from[i];
    }
  }

  /** memmove of everything from n on to the front. */
  method ShiftDown(dst: array<U8>, n: nat, len: nat)
    requires n <= len <= dst.Length
    modifies dst
    ensures dst[..len - n] == old(dst[n..len])
  {
    for i := 0 to len - n
      invariant forall x :: 0 <= x < i ==> dst[x] == old(dst[x + n])
      invariant forall x :: i <= x < dst.Length ==> dst[x] == old(dst[x])
    {
      dst[i] := dst[i + n];
    }
  }
}
