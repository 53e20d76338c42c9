/** BLAKE2s as a chain of compressions. The compression function stays a parameter: F(h, block, t, last). */
module Blake2sSpec {
  import opened Bits
  import opened ByteStrings
  import opened LittleEndian

  const BLOCK: int := 64
  const W64: int := 0x1_0000_0000_0000_0000

  type Words = s: seq<U32> | |s| == 8 witness seq(8, i => 0)

  type Compress = (Words, seq<U8>, nat, bool) -> Words

  /** The byte count is a 64-bit number. */
  function Offset(n: nat): nat {
    n % W64
  }

  /** Section 3.3 of RFC 7693: every block but the last is compressed with the number of bytes so far; the last,
      which may be full, is filled up with zeros and flagged. n bytes have gone before. */
  function Chained(F: Compress, h: Words, n: nat, msg: seq<U8>): Words
    decreases |msg|
  {
    if |msg| <= BLOCK then F(h, msg + Zeros(BLOCK - |msg|), Offset(n + |msg|), true)
    else Chained(F, F(h, msg[..BLOCK], Offset(n + BLOCK), false), n + BLOCK, msg[BLOCK..])
  }

  /** The state after whole blocks that are not the last. */
  function Absorbed(F: Compress, h: Words, n: nat, blocks: seq<U8>): Words
    decreases |blocks|
  {
    if |blocks| < BLOCK then h
    else Absorbed(F, F(h, blocks[..BLOCK], Offset(n + BLOCK), false), n + BLOCK, blocks[BLOCK..])
  }

  lemma {:induction false} ChainedSplit(F: Compress, h: Words, n: nat, a: seq<U8>, b: seq<U8>)
    requires |a| % BLOCK == 0 && |b| > 0
    ensures Chained(F, h, n, a + b) == Chained(F, Absorbed(F, h, n, a), n + |a|, b)
    decreases |a|
  {
    if |a| == 0 {
      assert a + b == b;
    } else {
      assert (a + b)[..BLOCK] == a[..BLOCK] && (a + b)[BLOCK..] == a[BLOCK..] + b;
      ChainedSplit(F, F(h, a[..BLOCK], Offset(n + BLOCK), false), n + BLOCK, a[BLOCK..], b);
    }
  }

  lemma {:induction false} AbsorbedMore(F: Compress, h: Words, n: nat, a: seq<U8>, b: seq<U8>)
    requires |a| % BLOCK == 0 && |b| == BLOCK
    ensures Absorbed(F, h, n, a + b) == F(Absorbed(F, h, n, a), b, Offset(n + |a| + BLOCK), false)
    decreases |a|
  {
    if |a| == 0 {
      assert a + b == b && b[..BLOCK] == b && b[BLOCK..] == [];
    } else {
      assert (a + b)[..BLOCK] == a[..BLOCK] && (a + b)[BLOCK..] == a[BLOCK..] + b;
      AbsorbedMore(F, F(h, a[..BLOCK], Offset(n + BLOCK), false), n + BLOCK, a[BLOCK..], b);
    }
  }

  /** A full buffer that is not the last block. */
  lemma AbsorbBuffer(F: Compress, h: Words, msg: seq<U8>, k: nat)
    requires k % BLOCK == 0 && |msg| == k + BLOCK
    ensures Absorbed(F, h, 0, msg) == F(Absorbed(F, h, 0, msg[..k]), msg[k..], Offset(|msg|), false)
  {
    assert msg == msg[..k] + msg[k..];
    AbsorbedMore(F, h, 0, msg[..k], msg[k..]);
  }

  /** The last block. */
  lemma CloseBuffer(F: Compress, h: Words, msg: seq<U8>, k: nat)
    requires k % BLOCK == 0 && k <= |msg| <= k + BLOCK && (k > 0 ==> k < |msg|)
    ensures Chained(F, h, 0, msg)
            == F(Absorbed(F, h, 0, msg[..k]), msg[k..] + Zeros(BLOCK - (|msg| - k)), Offset(|msg|), true)
  {
    assert msg == msg[..k] + msg[k..];
    if k > 0 {
      ChainedSplit(F, h, 0, msg[..k], msg[k..]);
    } else {
      assert msg[k..] == msg;
    }
  }

  function XorWord(v: U32, w: U32): U32 {
    WordXor(v, w);
    Xor(v, w)
  }

  lemma WordXor(v: U32, w: U32)
    ensures Xor(v, w) < 0x1_0000_0000
  {
    var n := 32;
    Pow2At(n);
    XorBound(v, w, n);
  }

  const IV: Words := [0x6A09E667, 0xBB67AE85, 0x3C6EF372, 0xA54FF53A, 0x510E527F, 0x9B05688C, 0x1F83D9AB, 0x5BE0CD19]

  function Parameter(outlen: U8, keylen: U8): Words {
    IV[0 := XorWord(IV[0], XorWord(XorWord(0x0101_0000, 0x100 * keylen as int), outlen))]
  }

  /** A key fills the first block. */
  function Keyed(key: seq<U8>, msg: seq<U8>): seq<U8>
    requires |key| <= 32
  {
    if |key| == 0 then msg else key + Zeros(BLOCK - |key|) + msg
  }

  function Output(h: Words, outlen: nat): seq<U8>
    requires outlen <= 32
  {
    seq(outlen, i requires 0 <= i < outlen => Store32(h[i / 4])[i % 4])
  }

  function Hash(F: Compress, outlen: nat, key: seq<U8>, msg: seq<U8>): seq<U8>
    requires 0 < outlen <= 32 && |key| <= 32
  {
    Output(Chained(F, Parameter(outlen, |key|), 0, Keyed(key, msg)), outlen)
  }
}

/** The hash block by block. */
module Blake2sTheory {
  import opened Bits
  import opened ByteStrings
  import opened LittleEndian
  import opened Blake2sSpec

  /** How many blocks len bytes take; none at all take one. */
  function BlockCount(len: nat): (n: nat)
    ensures n > 0 && 64 * (n - 1) <= len <= 64 * n && (n > 1 ==> 64 * (n - 1) < len)
  {
    if len == 0 then 1 else (len + 63) / 64
  }

  /** Block i: 64 bytes, or what is left, filled up with zeros. */
  function BlockAt(d: seq<U8>, i: nat): (b: seq<U8>)
    requires 64 * i <= |d|
    ensures |b| == 64
  {
    if 64 * i + 64 <= |d| then d[64 * i..64 * i + 64] else d[64 * i..] + Zeros(64 * i + 64 - |d|)
  }

  /** Step i of the chain hs over d, n bytes having gone before: block i, the number of bytes up to its end, and whether
      it is the last. */
  ghost predicate StepAt(F: Compress, hs: seq<Words>, d: seq<U8>, n: nat, i: nat)
    requires i < BlockCount(|d|) && |hs| == BlockCount(|d|) + 1
  {
    var count := if 64 * i + 64 <= |d| then 64 * i + 64 else |d|;
    hs[i + 1] == F(hs[i], BlockAt(d, i), (n + count) % 0x1_0000_0000_0000_0000, i == BlockCount(|d|) - 1)
  }

  lemma {:induction false} ChainedSteps(F: Compress, h: Words, n: nat, d: seq<U8>) returns (hs: seq<Words>)
    ensures |hs| == BlockCount(|d|) + 1 && hs[0] == h && hs[|hs| - 1] == Chained(F, h, n, d)
    ensures forall i :: 0 <= i < BlockCount(|d|) ==> StepAt(F, hs, d, n, i)
    decreases |d|
  {
    if |d| <= BLOCK {
      hs := [h, Chained(F, h, n, d)];
      OneBlock(d);
    } else {
      var next, rest := F(h, d[..BLOCK], Offset(n + BLOCK), false), d[BLOCK..];
      var tail := ChainedSteps(F, next, n + BLOCK, rest);
      hs := [h] + tail;
      OneMoreBlock(|d|);
      forall i | 0 <= i < BlockCount(|d|) ensures StepAt(F, hs, d, n, i) {
        if i > 0 { LaterStep(F, h, tail, d, n, i); }
      }
    }
  }

  lemma LaterStep(F: Compress, h: Words, tail: seq<Words>, d: seq<U8>, n: nat, i: nat)
    requires |d| > 64 && 0 < i < BlockCount(|d|) && |tail| == BlockCount(|d| - 64) + 1
    requires BlockCount(|d|) == BlockCount(|d| - 64) + 1 && StepAt(F, tail, d[64..], n + 64, i - 1)
    ensures StepAt(F, [h] + tail, d, n, i)
  {
    NextBlock(d, i);
  }

  lemma OneBlock(d: seq<U8>)
    requires |d| <= 64
    ensures BlockCount(|d|) == 1 && BlockAt(d, 0) == d + Zeros(64 - |d|)
  {
    assert d[0..] == d && (|d| == 64 ==> d[0..64] == d);
  }

  lemma OneMoreBlock(len: nat)
    requires len > 64
    ensures BlockCount(len) == BlockCount(len - 64) + 1
  {
  }

  lemma NextBlock(d: seq<U8>, i: nat)
    requires 0 < i && 64 * i <= |d|
    ensures BlockAt(d, i) == BlockAt(d[64..], i - 1)
  {
  }

  /** What is hashed: a key takes up the first block, filled up with zeros; then comes the message. */
  ghost predicate Joined(d: seq<U8>, key: seq<U8>, msg: seq<U8>) {
    if |key| == 0 then d == msg
    else && |d| == 64 + |msg| && |key| <= 64 && d[..|key|] == key && d[64..] == msg
         && forall i :: |key| <= i < 64 ==> d[i] == 0
  }

  /** Section 3.3 of RFC 7693, as a chain of states: the first is the initialisation vector with the two lengths; each
      block leads from one to the next; the digest is the start of the last, word by word and low byte first. */
  lemma HashSteps(F: Compress, outlen: nat, key: seq<U8>, msg: seq<U8>) returns (d: seq<U8>, hs: seq<Words>)
    requires 0 < outlen <= 32 && |key| <= 32
    ensures Joined(d, key, msg) && |hs| == BlockCount(|d|) + 1
    ensures hs[0][0] as int == Xor(0x6A09_E667, Xor(Xor(0x0101_0000, 0x100 * |key|), outlen))
    ensures hs[0][1..] == [0xBB67AE85, 0x3C6EF372, 0xA54FF53A, 0x510E527F, 0x9B05688C, 0x1F83D9AB, 0x5BE0CD19]
    ensures forall i :: 0 <= i < BlockCount(|d|) ==> StepAt(F, hs, d, 0, i)
    ensures |Hash(F, outlen, key, msg)| == outlen
    ensures forall j :: 0 <= j < outlen ==> Hash(F, outlen, key, msg)[j] == LeBytes(hs[|hs| - 1][j / 4], 4)[j % 4]
  {
    d := Keyed(key, msg);
    JoinsKey(key, msg);
    ParameterIs(outlen, |key|);
    hs := ChainedSteps(F, Parameter(outlen, |key|), 0, d);
    OutputIs(hs[|hs| - 1], outlen);
  }

  lemma JoinsKey(key: seq<U8>, msg: seq<U8>)
    requires |key| <= 32
    ensures Joined(Keyed(key, msg), key, msg)
  {
  }

  lemma ParameterIs(outlen: U8, keylen: U8)
    ensures Parameter(outlen, keylen)[0] as int
            == Xor(0x6A09_E667, Xor(Xor(0x0101_0000, 0x100 * keylen as int), outlen))
    ensures Parameter(outlen, keylen)[1..]
            == [0xBB67AE85, 0x3C6EF372, 0xA54FF53A, 0x510E527F, 0x9B05688C, 0x1F83D9AB, 0x5BE0CD19]
  {
  }

  lemma OutputIs(h: Words, outlen: nat)
    requires outlen <= 32
    ensures |Output(h, outlen)| == outlen
    ensures forall j :: 0 <= j < outlen ==> Output(h, outlen)[j] == LeBytes(h[j / 4], 4)[j % 4]
  {
    forall j | 0 <= j < outlen ensures Output(h, outlen)[j] == LeBytes(h[j / 4], 4)[j % 4] {
      Store32IsLeBytes(h[j / 4], h[j / 4]);
    }
  }
}

module Blake2s {
  import opened Bits
  import opened ByteStrings
  import opened LittleEndian
  import opened Blake2sSpec

  const W32: int := 0x1_0000_0000

  lemma NextBlock(n: nat)
    requires n % BLOCK == 0
    ensures (n + BLOCK) % BLOCK == 0
  {
  }

  lemma OffsetMore(m: nat, v: nat, n: nat)
    requires v == Offset(m) && n <= BLOCK
    ensures Offset(m + n) == if v + n < W64 then v + n else v + n - W64
  {
    var q := m / W64;
    if v + n < W64 {
      RemainderIs(m + n, W64, q, v + n);
    } else {
      RemainderIs(m + n, W64, q + 1, v + n - W64);
    }
  }

  function Total(t0: U32, t1: U32): nat {
    t0 as int + W32 * t1 as int
  }

  class Context {
    const b: array<U8>
    var h: Words
    var t0: U32
    var t1: U32
    var c: nat
    var outlen: nat
    /** What has been hashed, key block included, how much of it has been compressed, and the first state. */
    ghost var msg: seq<U8>
    ghost var done: nat
    ghost var h0: Words

    /** The last block is held back even when it is full, and the two words count what went before it. */
    ghost predicate Valid(F: Compress)
      reads this, b
    {
      Tracked(F) && (done > 0 ==> c > 0)
    }

    ghost predicate Tracked(F: Compress)
      reads this, b
    {
      && b.Length == BLOCK && c <= BLOCK && 0 < outlen <= 32 && done % BLOCK == 0
      && |msg| == done + c && b[..c] == msg[done..]
      && h == Absorbed(F, h0, 0, msg[..done]) && Total(t0, t1) == Offset(done)
    }

    constructor ()
      ensures fresh(b) && b.Length == BLOCK
    {
      b := new U8[BLOCK];
      h, t0, t1, c, outlen := IV, 0, 0, 0, 0;
    }

    /** The two-word counter, which stands at m, goes up by n. */
    method Count(n: nat, ghost m: nat)
      requires n <= BLOCK && Total(t0, t1) == Offset(m)
      modifies this`t0, this`t1
      ensures Total(t0, t1) == Offset(m + n)
    {
      OffsetMore(m, Total(t0, t1), n);
      t0 := if t0 as int + n < W32 then t0 as int + n else t0 as int + n - W32;
      if t0 as int < n {
        t1 := if t1 as int + 1 < W32 then t1 as int + 1 else 0;
      }
    }

    /** Lines 112-118: a full buffer is compressed only when more follows. */
    method Flush(F: Compress)
      requires Valid(F) && c == BLOCK
      modifies this`h, this`t0, this`t1, this`c, this`done
      ensures Tracked(F) && c == 0 && done == old(done) + BLOCK
    {
      AbsorbBuffer(F, h0, msg, done);
      assert b[..] == msg[done..];
      Count(c, done);
      h := F(h, b[..], Total(t0, t1), false);
      c := 0;
      done := done + BLOCK;
      NextBlock(old(done));
      assert done % BLOCK == 0;
      assert Total(t0, t1) == Offset(done);
      assert msg[..done] == msg && h == Absorbed(F, h0, 0, msg);
      assert b[..0] == msg[done..];
    }

    /** blake2s_update */
    method Update(F: Compress, data: seq<U8>)
      requires Valid(F)
      modifies this, b
      ensures Valid(F) && msg == old(msg) + data && h0 == old(h0) && outlen == old(outlen)
      ensures old(c) + |data| <= BLOCK ==> done == old(done) && forall k :: c <= k < BLOCK ==> b[k] == old(b[k])
    {
      for i := 0 to |data|
        invariant Valid(F) && msg == old(msg) + data[..i] && h0 == old(h0) && outlen == old(outlen)
        invariant old(c) + |data| <= BLOCK ==> done == old(done) && forall k :: c <= k < BLOCK ==> b[k] == old(b[k])
      {
        ghost var before := msg;
        assert before + [data[i]] == old(msg) + data[..i + 1] by {
          assert data[..i + 1] == data[..i] + [data[i]];
        }
        Add(F, data[i]);
      }
      assert data[..|data|] == data;
    }

    method Add(F: Compress, x: U8)
      requires Valid(F)
      modifies this`h, this`t0, this`t1, this`c, this`done, this`msg, b
      ensures Valid(F) && msg == old(msg) + [x]
      ensures old(c) < BLOCK ==> done == old(done) && c == old(c) + 1
                                 && forall k :: c <= k < BLOCK ==> b[k] == old(b[k])
    {
      if c == BLOCK {
        Flush(F);
      }
      Put(F, x);
    }

    method Put(F: Compress, x: U8)
      requires Tracked(F) && c < BLOCK
      modifies this`c, this`msg, b
      ensures Valid(F) && msg == old(msg) + [x] && c == old(c) + 1
      ensures forall k :: 0 <= k < BLOCK && k != old(c) ==> b[k] == old(b[k])
    {
      b[c] := x;
      c := c + 1;
      msg := msg + [x];
      assert msg[..done] == old(msg)[..done];
      assert b[..c] == old(b[..c]) + [x];
    }

    method ClearFrom(n: nat)
      requires b.Length == BLOCK && n <= BLOCK
      modifies b
      ensures forall k :: 0 <= k < BLOCK ==> b[k] == if k < n then old(b[k]) else 0
    {
      for i := n to BLOCK
        invariant forall k :: 0 <= k < BLOCK ==> b[k] == if k < n || k >= i then old(b[k]) else 0
      {
        b[i] := 0;
      }
    }

    /** blake2s_final */
    method Final(F: Compress) returns (out: seq<U8>)
      requires Valid(F)
      modifies this, b
      ensures out == Output(Chained(F, old(h0), 0, old(msg)), old(outlen))
    {
      CloseBuffer(F, h0, msg, done);
      Count(c, done);
      ClearFrom(c);
      assert b[..] == msg[done..] + Zeros(BLOCK - c);
      c := BLOCK;
      h := F(h, b[..], Total(t0, t1), true);
      out := Output(h, outlen);
    }

    /** Lines 97-101: the key is the start of a block that is full with zeros. */
    method TakeKey(F: Compress, key: seq<U8>)
      requires Valid(F) && msg == [] && 0 < |key| <= 32 && forall k :: |key| <= k < BLOCK ==> b[k] == 0
      modifies this, b
      ensures Valid(F) && msg == Keyed(key, []) && h0 == old(h0) && outlen == old(outlen)
    {
      Update(F, key);
      assert msg == key && done == 0 && b[..c] == key;
      c := BLOCK;
      msg := Keyed(key, []);
      assert b[..c] == msg;
    }

    /** blake2s_init */
    method Init(F: Compress, outlen: nat, key: seq<U8>) returns (ok: bool)
      requires b.Length == BLOCK
      modifies this, b
      ensures ok <==> 0 < outlen <= 32 && |key| <= 32
      ensures ok ==> Valid(F) && msg == Keyed(key, []) && h0 == Parameter(outlen, |key|) && this.outlen == outlen
    {
      if outlen == 0 || outlen > 32 || |key| > 32 {
        return false;
      }
      Reset(F, outlen, |key|);
      if |key| > 0 {
        TakeKey(F, key);
      }
      return true;
    }

    method Reset(F: Compress, outlen: nat, keylen: nat)
      requires b.Length == BLOCK && 0 < outlen <= 32 && keylen <= 32
      modifies this, b
      ensures Valid(F) && msg == [] && h0 == Parameter(outlen, keylen) && this.outlen == outlen
      ensures forall k :: keylen <= k < BLOCK ==> b[k] == 0
    {
      ClearFrom(keylen);
      h := Parameter(outlen, keylen);
      t0, t1, c, this.outlen := 0, 0, 0, outlen;
      msg, done, h0 := [], 0, h;
    }
  }

  /** The digest of any message in any division into updates. */
  method Digest(F: Compress, outlen: nat, key: seq<U8>, parts: seq<seq<U8>>) returns (out: seq<U8>, ok: bool)
    ensures ok <==> 0 < outlen <= 32 && |key| <= 32
    ensures ok ==> out == Hash(F, outlen, key, Flatten(parts))
  {
    var ctx := new Context();
    out := [];
    ok := ctx.Init(F, outlen, key);
    if !ok {
      return;
    }
    for i := 0 to |parts|
      invariant fresh(ctx) && fresh(ctx.b) && ctx.Valid(F) && ctx.h0 == Parameter(outlen, |key|) && ctx.outlen == outlen
      invariant ctx.msg == Keyed(key, Flatten(parts[..i]))
    {
      assert parts[..i + 1][..i] == parts[..i];
      KeyedMore(key, Flatten(parts[..i]), parts[i]);
      ctx.Update(F, parts[i]);
    }
    assert parts[..|parts|] == parts;
    out := ctx.Final(F);
  }

  lemma KeyedMore(key: seq<U8>, m: seq<U8>, x: seq<U8>)
    requires |key| <= 32
    ensures Keyed(key, m + x) == Keyed(key, m) + x
  {
  }
}
