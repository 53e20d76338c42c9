/** ChaCha20 with WireGuard's 64-bit nonce. The rounds stay a fixed function: core(state, i) is byte i of the
block for a state. */
module ChaCha20Spec {
  import opened Bits
  import opened ByteStrings
  import opened LittleEndian

  const W32: int := 0x1_0000_0000

  type Words = s: seq<U32> | |s| == 16 witness seq(16, i => 0)

  type Core = (Words, nat) -> U8

  function XorByte(a: U8, b: U8): U8 {
    ByteXor(a, b);
    Xor(a, b)
  }

  lemma ByteXor(a: U8, b: U8)
    ensures Xor(a, b) < 0x100
  {
    var n := 8;
    Pow2Small(n);
    XorBound(a, b, n);
  }

  /** Word 12 counts blocks. */
  function AddBlocks(st: Words, k: nat): Words {
    st[12 := (st[12] as int + k) % W32]
  }

  function StreamByte(core: Core, st: Words, i: nat): U8 {
    core(AddBlocks(st, i / 64), i % 64)
  }

  function Crypt(core: Core, st: Words, data: seq<U8>): (r: seq<U8>)
    ensures |r| == |data|
  {
    seq(|data|, i requires 0 <= i < |data| => XorByte(data[i], StreamByte(core, st, i)))
  }

  /** Byte by byte: block i div 64 of the key stream from the state's own counter on, byte i mod 64. */
  lemma CryptByte(core: Core, st: Words, data: seq<U8>, i: nat)
    requires i < |data|
    ensures Crypt(core, st, data)[i] as int
            == Xor(data[i], core(st[12 := (st[12] as int + i / 64) % 0x1_0000_0000], i % 64))
  {
  }

  /** The cipher is its own inverse. */
  lemma CryptTwice(core: Core, st: Words, data: seq<U8>)
    ensures Crypt(core, st, Crypt(core, st, data)) == data
  {
    forall i | 0 <= i < |data| ensures Crypt(core, st, Crypt(core, st, data))[i] == data[i] {
      var k := StreamByte(core, st, i);
      XorSymmetric(data[i], k);
      XorSymmetric(k, Xor(k, data[i]));
      XorCancel(k, data[i]);
    }
  }

  /** Block by block: a part that starts at a block boundary is encrypted with the counter moved on. */
  lemma CryptPart(core: Core, st: Words, data: seq<U8>, k: nat, n: nat)
    requires 64 * k + n <= |data|
    ensures Crypt(core, st, data)[64 * k..64 * k + n] == Crypt(core, AddBlocks(st, k), data[64 * k..64 * k + n])
  {
    var a, b := Crypt(core, st, data)[64 * k..64 * k + n], Crypt(core, AddBlocks(st, k), data[64 * k..64 * k + n]);
    forall i | 0 <= i < n ensures a[i] == b[i] {
      assert (64 * k + i) / 64 == k + i / 64 && (64 * k + i) % 64 == i % 64;
      AddBlocksTwice(st, k, i / 64);
    }
  }

  lemma AddBlocksTwice(st: Words, j: nat, k: nat)
    ensures AddBlocks(AddBlocks(st, j), k) == AddBlocks(st, j + k)
    ensures AddBlocks(st, 0) == st
  {
  }

  /** chacha20_init */
  function Init(key: seq<U8>, nonce: U64): Words
    requires |key| == 32
  {
    [0x61707865, 0x3320646e, 0x79622d32, 0x6b206574]
    + seq(8, i requires 0 <= i < 8 => Load32(key[4 * i], key[4 * i + 1], key[4 * i + 2], key[4 * i + 3]))
    + [0, 0, nonce % W32, nonce / W32]
  }

  /** The state is "expand 32-byte k", the key, a block counter of zero and the nonce, read as little-endian words. */
  lemma InitWords(key: seq<U8>, nonce: U64, w: nat)
    requires |key| == 32 && w < 16
    ensures var bytes := [0x65, 0x78, 0x70, 0x61, 0x6e, 0x64, 0x20, 0x33,
                          0x32, 0x2d, 0x62, 0x79, 0x74, 0x65, 0x20, 0x6b] + key + Zeros(8) + LeBytes(nonce, 8);
            Init(key, nonce)[w] as int == LeValue(bytes[4 * w..4 * w + 4])
  {
    var head := [0x65, 0x78, 0x70, 0x61, 0x6e, 0x64, 0x20, 0x33, 0x32, 0x2d, 0x62, 0x79, 0x74, 0x65, 0x20, 0x6b];
    FourParts(head, key, Zeros(8), LeBytes(nonce, 8), w);
    if w < 4 {
      HeadWord(head, w);
    } else if w < 12 {
      KeyWord(key, nonce, w - 4);
    } else {
      LastWords(key, nonce, w - 12);
    }
  }

  lemma HeadWord(head: seq<U8>, w: nat)
    requires head == [0x65, 0x78, 0x70, 0x61, 0x6e, 0x64, 0x20, 0x33, 0x32, 0x2d, 0x62, 0x79, 0x74, 0x65, 0x20, 0x6b]
    requires w < 4
    ensures LeValue(head[4 * w..4 * w + 4]) == [0x61707865, 0x3320646e, 0x79622d32, 0x6b206574][w]
  {
    var s := head[4 * w..4 * w + 4];
    assert s[0] == head[4 * w] && s[1] == head[4 * w + 1] && s[2] == head[4 * w + 2] && s[3] == head[4 * w + 3];
    LeValue4(s);
  }

  lemma KeyWord(key: seq<U8>, nonce: U64, i: nat)
    requires |key| == 32 && i < 8
    ensures Init(key, nonce)[i + 4] as int == LeValue(key[4 * i..4 * i + 4])
  {
    LeValue4(key[4 * i..4 * i + 4]);
  }

  lemma LastWords(key: seq<U8>, nonce: U64, i: nat)
    requires |key| == 32 && i < 4
    ensures Init(key, nonce)[i + 12] as int
            == LeValue(if i < 2 then Zeros(8)[4 * i..4 * i + 4] else LeBytes(nonce, 8)[4 * i - 8..4 * i - 4])
  {
    if i < 2 {
      LeValueZeros(Zeros(8)[4 * i..4 * i + 4]);
    } else {
      NonceWords(nonce, LeBytes(nonce, 8));
    }
  }

  lemma FourParts(a: seq<U8>, b: seq<U8>, c: seq<U8>, d: seq<U8>, w: nat)
    requires |a| == 16 && |b| == 32 && |c| == 8 && |d| == 8 && w < 16
    ensures var i := 4 * w;
            (a + b + c + d)[i..i + 4] == if w < 4 then a[i..i + 4] else if w < 12 then b[i - 16..i - 12]
                                         else if w < 14 then c[i - 48..i - 44] else d[i - 56..i - 52]
  {
  }

  lemma NonceWords(nonce: U64, s: seq<U8>)
    requires s == LeBytes(nonce, 8)
    ensures LeValue(s[0..4]) == nonce as int % W32 && LeValue(s[4..8]) == nonce as int / W32
  {
    var n := 4;
    LeBytesSplit(nonce, n, n);
    DropFour(nonce);
    Pow2At(8 * n);
    LeValueOfBytes(nonce, n);
    LeValueOfBytes(nonce / W32, n);
    assert s[0..4] == LeBytes(nonce, n) && s[4..8] == LeBytes(nonce / W32, n);
  }
}

module ChaCha20 {
  import opened Bits
  import opened ByteStrings
  import opened ChaCha20Spec

  class Cipher {
    var state: Words

    constructor (key: seq<U8>, nonce: U64)
      requires |key| == 32
      ensures state == Init(key, nonce)
    {
      state := Init(key, nonce);
    }

    /** chacha20: len bytes of src at s go to dst at d, which may be the same place. */
    method Apply(core: Core, dst: array<U8>, d: nat, src: array<U8>, s: nat, len: nat)
      requires d + len <= dst.Length && s + len <= src.Length && (dst != src || d == s)
      modifies this, dst
      ensures dst[d..d + len] == Crypt(core, old(state), old(src[s..s + len]))
      ensures forall i :: 0 <= i < dst.Length && !(d <= i < d + len) ==> dst[i] == old(dst[i])
      ensures state == AddBlocks(old(state), (len + 63) / 64)
    {
      ghost var st, data, k := state, src[s..s + len], 0;
      ghost var enc := Crypt(core, st, data);
      var done := 0;
      AddBlocksTwice(st, 0, 0);
      while done < len
        invariant 0 <= k && done == (if 64 * k < len then 64 * k else len) && 64 * (k - 1) < len
        invariant state == AddBlocks(st, k)
        invariant forall x :: d <= x < d + done ==> dst[x] == enc[x - d]
        invariant forall x :: 0 <= x < dst.Length && !(d <= x < d + done) ==> dst[x] == old(dst[x])
        invariant forall x :: s + done <= x < s + len ==> src[x] == data[x - s]
      {
        var n := Chunk(core, dst, d, src, s, done, len - done, st, data, enc, k);
        done, k := done + n, k + 1;
      }
      assert k == (len + 63) / 64;
    }

    method ApplyInPlace(core: Core, a: array<U8>, at: nat, len: nat)
      requires at + len <= a.Length
      modifies this, a
      ensures a[..] == old(a[..at]) + Crypt(core, old(state), old(a[at..at + len])) + old(a[at + len..])
    {
      Apply(core, a, at, a, at, len);
      Rejoined(a[..], at, len);
      assert a[..at] == old(a[..at]) && a[at + len..] == old(a[at + len..]);
    }

    /** Lines 123-137: the next 64 bytes, or what is left of them. */
    method Chunk(core: Core, dst: array<U8>, d: nat, src: array<U8>, s: nat, done: nat, left: nat,
                 ghost st: Words, ghost data: seq<U8>, ghost enc: seq<U8>, ghost k: nat)
      returns (n: nat)
      requires d + done + left <= dst.Length && s + done + left <= src.Length && (dst != src || d == s)
      requires |data| == done + left && done == 64 * k && state == AddBlocks(st, k)
      requires enc == Crypt(core, st, data) && forall x :: s + done <= x < s + |data| ==> src[x] == data[x - s]
      modifies this, dst
      ensures n == if left <= 64 then left else 64
      ensures forall x :: d + done <= x < d + done + n ==> dst[x] == enc[x - d]
      ensures forall x :: 0 <= x < dst.Length && !(d + done <= x < d + done + n) ==> dst[x] == old(dst[x])
      ensures state == AddBlocks(st, k + 1)
    {
      n := if left <= 64 then left else 64;
      ghost var part, piece := src[s + done..s + done + n], enc[done..done + n];
      assert part == data[done..done + n];
      assert piece == Crypt(core, state, part) by { CryptPart(core, st, data, k, n); }
      NextBlock(core, dst, d, src, s, done, n, enc, st, k);
    }

    method NextBlock(core: Core, dst: array<U8>, d: nat, src: array<U8>, s: nat, done: nat, n: nat,
                     ghost enc: seq<U8>, ghost st: Words, ghost k: nat)
      requires d + done + n <= dst.Length && s + done + n <= src.Length && n <= 64 && (dst != src || d == s)
      requires state == AddBlocks(st, k) && done + n <= |enc|
      requires enc[done..done + n] == Crypt(core, state, src[s + done..s + done + n])
      modifies this, dst
      ensures forall x :: d + done <= x < d + done + n ==> dst[x] == enc[x - d]
      ensures forall x :: 0 <= x < dst.Length && !(d + done <= x < d + done + n) ==> dst[x] == old(dst[x])
      ensures state == AddBlocks(st, k + 1)
    {
      XorBlock(core, dst, d + done, src, s + done, n, enc[done..done + n]);
      AddBlocksTwice(st, k, 1);
      state := AddBlocks(state, 1);
    }

    /** One block of key stream over n bytes, lines 123-134. */
    method XorBlock(core: Core, dst: array<U8>, d: nat, src: array<U8>, s: nat, n: nat, ghost piece: seq<U8>)
      requires d + n <= dst.Length && s + n <= src.Length && n <= 64 && (dst != src || d == s)
      requires piece == Crypt(core, state, src[s..s + n])
      modifies dst
      ensures forall x :: d <= x < d + n ==> dst[x] == piece[x - d]
      ensures forall x :: 0 <= x < dst.Length && !(d <= x < d + n) ==> dst[x] == old(dst[x])
    {
      AddBlocksTwice(state, 0, 0);
      for i := 0 to n
        invariant forall x :: d <= x < d + i ==> dst[x] == piece[x - d]
        invariant forall x :: 0 <= x < dst.Length && !(d <= x < d + i) ==> dst[x] == old(dst[x])
      {
        assert src[s + i] == old(src[s..s + n])[i];
        dst[d + i] := XorByte(src[s + i], core(state, i));
      }
    }
  }
}

/** The AEAD of section 2.8 of RFC 8439. */
module AeadSpec {
  import opened Bits
  import opened ByteStrings
  import opened LittleEndian
  import opened ChaCha20Spec
  import opened Poly1305Spec

  datatype Option<T> = None | Some(value: T)

  const TAG: int := 16

  /** How many zero bytes fill up the last 16. */
  function Fill(n: nat): nat {
    (16 - n % 16) % 16
  }

  function PolyKey(core: Core, key: seq<U8>, nonce: U64): seq<U8>
    requires |key| == 32
  {
    Crypt(core, Init(key, nonce), Zeros(32))
  }

  function AuthData(ad: seq<U8>, c: seq<U8>): seq<U8> {
    ad + Zeros(Fill(|ad|)) + c + Zeros(Fill(|c|)) + LeBytes(|ad|, 8) + LeBytes(|c|, 8)
  }

  function AuthTag(core: Core, key: seq<U8>, nonce: U64, ad: seq<U8>, c: seq<U8>): (t: seq<U8>)
    requires |key| == 32
    ensures |t| == TAG
  {
    Tag(PolyKey(core, key, nonce), AuthData(ad, c))
  }

  /** The cipher for the text itself starts at block 1. */
  function Body(core: Core, key: seq<U8>, nonce: U64, text: seq<U8>): (c: seq<U8>)
    requires |key| == 32
    ensures |c| == |text|
  {
    Crypt(core, AddBlocks(Init(key, nonce), 1), text)
  }

  function Seal(core: Core, key: seq<U8>, nonce: U64, ad: seq<U8>, plain: seq<U8>): (r: seq<U8>)
    requires |key| == 32
    ensures |r| == |plain| + TAG
  {
    var c := Body(core, key, nonce, plain);
    c + AuthTag(core, key, nonce, ad, c)
  }

  function Open(core: Core, key: seq<U8>, nonce: U64, ad: seq<U8>, sealed: seq<U8>): (r: Option<seq<U8>>)
    requires |key| == 32
    ensures r.Some? ==> |r.value| + TAG == |sealed|
  {
    if |sealed| < TAG then None else
      var c := sealed[..|sealed| - TAG];
      if sealed[|sealed| - TAG..] == AuthTag(core, key, nonce, ad, c) then Some(Body(core, key, nonce, c)) else None
  }

  /** Open accepts exactly what Seal makes, and gives back what went in. */
  lemma OpenIffSealed(core: Core, key: seq<U8>, nonce: U64, ad: seq<U8>, plain: seq<U8>, sealed: seq<U8>)
    requires |key| == 32
    ensures Open(core, key, nonce, ad, sealed) == Some(plain) <==> sealed == Seal(core, key, nonce, ad, plain)
  {
    var st := AddBlocks(Init(key, nonce), 1);
    if |sealed| >= TAG {
      var c := sealed[..|sealed| - TAG];
      assert sealed == c + sealed[|sealed| - TAG..];
      CryptTwice(core, st, c);
      CryptTwice(core, st, plain);
      if sealed == Seal(core, key, nonce, ad, plain) {
        assert c == Body(core, key, nonce, plain);
      }
    }
  }
}

/** What sealing means byte by byte. */
module AeadTheory {
  import opened Bits
  import opened ByteStrings
  import opened LittleEndian
  import opened ChaCha20Spec
  import opened AeadSpec

  /** Byte i of a sealed text is byte i of the text, xored with byte i mod 64 of block 1 + i div 64 of the key
      stream. */
  lemma SealedByte(core: Core, key: seq<U8>, nonce: U64, ad: seq<U8>, plain: seq<U8>, i: nat)
    requires |key| == 32 && i < |plain|
    ensures var block := Init(key, nonce)[12 := (1 + i / 64) % 0x1_0000_0000];
            Seal(core, key, nonce, ad, plain)[i] as int == Xor(plain[i], core(block, i % 64))
  {
    var st := AddBlocks(Init(key, nonce), 1);
    CryptByte(core, st, plain, i);
    assert st[12 := (1 + i / 64) % W32] == Init(key, nonce)[12 := (1 + i / 64) % W32];
  }

  /** The one-time key is the first half of block 0 of the key stream. */
  lemma PolyKeyByte(core: Core, key: seq<U8>, nonce: U64, i: nat)
    requires |key| == 32 && i < 32
    ensures PolyKey(core, key, nonce)[i] == core(Init(key, nonce), i)
  {
    AddBlocksTwice(Init(key, nonce), 0, 0);
    var k := core(Init(key, nonce), i);
    XorStep(0, k);
  }

  /** What is authenticated: the additional data and the ciphertext, each filled up with zeros to the next multiple of
      16 bytes, and their two lengths. */
  lemma AuthDataLayout(ad: seq<U8>, c: seq<U8>, a: nat, b: nat)
    requires |ad| <= a < |ad| + 16 && a % 16 == 0 && |c| <= b < |c| + 16 && b % 16 == 0
    requires |ad| < 0x1_0000_0000_0000_0000 && |c| < 0x1_0000_0000_0000_0000
    ensures var x := AuthData(ad, c);
            && |x| == a + b + 16 && x[..|ad|] == ad && x[a..a + |c|] == c
            && (forall i :: |ad| <= i < a || a + |c| <= i < a + b ==> x[i] == 0)
            && LeValue(x[a + b..a + b + 8]) == |ad| && LeValue(x[a + b + 8..]) == |c|
  {
    FillIs(|ad|, a);
    FillIs(|c|, b);
    LengthReads(|ad|, LeBytes(|ad|, 8), 8);
    LengthReads(|c|, LeBytes(|c|, 8), 8);
    SixParts(ad, Zeros(Fill(|ad|)), c, Zeros(Fill(|c|)), LeBytes(|ad|, 8), LeBytes(|c|, 8));
  }

  lemma FillIs(n: nat, up: nat)
    requires n <= up < n + 16 && up % 16 == 0
    ensures n + Fill(n) == up
  {
  }

  lemma LengthReads(v: nat, s: seq<U8>, n: nat)
    requires n == 8 && s == LeBytes(v, n) && v < 0x1_0000_0000_0000_0000
    ensures LeValue(s) == v
  {
    LeValueOfBytes(v, n);
    Pow2At(8 * n);
  }

  lemma SixParts(p: seq<U8>, q: seq<U8>, r: seq<U8>, s: seq<U8>, t: seq<U8>, u: seq<U8>)
    ensures var x, a, b := p + q + r + s + t + u, |p| + |q|, |r| + |s|;
            && x[..|p|] == p && x[|p|..a] == q && x[a..a + |r|] == r && x[a + |r|..a + b] == s
            && x[a + b..a + b + |t|] == t && x[a + b + |t|..] == u
  {
  }

  /** Nothing that is authenticated can be read in two ways. */
  lemma AuthDataInjective(ad: seq<U8>, c: seq<U8>, ad': seq<U8>, c': seq<U8>)
    requires |ad| < 0x1_0000_0000_0000_0000 && |c| < 0x1_0000_0000_0000_0000
    requires |ad'| < 0x1_0000_0000_0000_0000 && |c'| < 0x1_0000_0000_0000_0000
    requires AuthData(ad, c) == AuthData(ad', c')
    ensures ad == ad' && c == c'
  {
    var x := AuthData(ad, c);
    AuthDataFields(x, ad, c);
    AuthDataFields(x, ad', c');
  }

  /** Both strings as functions of what is authenticated. */
  lemma AuthDataFields(x: seq<U8>, ad: seq<U8>, c: seq<U8>)
    requires x == AuthData(ad, c) && |ad| < 0x1_0000_0000_0000_0000 && |c| < 0x1_0000_0000_0000_0000
    ensures |x| >= 16 && LeValue(x[|x| - 16..|x| - 8]) == |ad| && LeValue(x[|x| - 8..]) == |c|
    ensures var a := |ad| + Fill(|ad|); a + |c| <= |x| && ad == x[..|ad|] && c == x[a..a + |c|]
  {
    var a, b := |ad| + Fill(|ad|), |c| + Fill(|c|);
    FillsUp(|ad|);
    FillsUp(|c|);
    AuthDataLayout(ad, c, a, b);
    assert |x| - 16 == a + b;
  }

  lemma FillsUp(n: nat)
    ensures n <= n + Fill(n) < n + 16 && (n + Fill(n)) % 16 == 0
  {
  }
}

module Aead {
  import opened Bits
  import opened ByteStrings
  import opened LittleEndian
  import opened ChaCha20Spec
  import opened ChaCha20
  import opened Poly1305Spec
  import opened AeadSpec
  import opened Buffers
  import Poly1305

  /** The longest text and additional data that the code can seal: beyond, its 32-bit rounding mask and the u32 length
      of chacha20 cut bits off. A text to be opened is also counted in an int. */
  const MAX_LEN: int := 0xFFFF_FFF0

  /** (len + 15) & 0xFFFFFFF0, exact up to MAX_LEN */
  function RoundUp(len: nat): nat {
    (len + 15) / 16 * 16
  }

  lemma RoundUpIs(len: nat)
    ensures RoundUp(len) == len + Fill(len)
  {
  }

  lemma SameByte(a: U8, b: U8)
    ensures XorByte(a, b) == 0 <==> a == b
  {
    XorSelf(a);
    XorCancel(a, b);
    XorSwap(a, b);
  }

  lemma OrByte(a: U8, b: U8)
    ensures Or(a, b) < 0x100
  {
    var n := 8;
    Pow2Small(n);
    OrBound(a, b, n);
  }

  /** crypto_equal: every byte is looked at. */
  method CryptoEqual(a: seq<U8>, b: seq<U8>) returns (equal: bool)
    requires |a| == |b|
    ensures equal <==> a == b
  {
    var diff: U8 := 0;
    for i := 0 to |a|
      invariant diff == 0 <==> a[..i] == b[..i]
    {
      SameByte(a[i], b[i]);
      OrZero(diff, XorByte(a[i], b[i]));
      OrByte(diff, XorByte(a[i], b[i]));
      diff := Or(diff, XorByte(a[i], b[i]));
      assert a[..i + 1] == a[..i] + [a[i]] && b[..i + 1] == b[..i] + [b[i]];
    }
    assert a[..|a|] == a && b[..|a|] == b;
    return diff == 0;
  }

  /** generate_poly1305_key: the cipher is left at block 1. */
  method GeneratePolyKey(core: Core, key: seq<U8>, nonce: U64) returns (cipher: Cipher, polyKey: seq<U8>)
    requires |key| == 32
    ensures fresh(cipher) && cipher.state == AddBlocks(Init(key, nonce), 1)
    ensures polyKey == PolyKey(core, key, nonce)
  {
    var block := new U8[32](_ => 0);
    assert block[0..0 + 32] == Zeros(32);
    cipher := new Cipher(key, nonce);
    cipher.Apply(core, block, 0, block, 0, 32);
    polyKey := block[..];
    assert block[..] == block[0..0 + 32];
  }

  /** The tag over additional data and ciphertext, lines 81-100 and 132-151. */
  method Authenticate(polyKey: seq<U8>, ad: seq<U8>, c: seq<U8>) returns (mac: seq<U8>)
    requires |polyKey| == 32 && |ad| <= MAX_LEN && |c| <= MAX_LEN
    ensures mac == Tag(polyKey, AuthData(ad, c))
  {
    RoundUpIs(|ad|);
    RoundUpIs(|c|);
    var parts := [ad, Zeros(RoundUp(|ad|) - |ad|), c, Zeros(RoundUp(|c|) - |c|), LeBytes(|ad|, 8), LeBytes(|c|, 8)];
    mac := Poly1305.Mac(polyKey, parts);
    FlattenSix(parts[0], parts[1], parts[2], parts[3], parts[4], parts[5]);
  }

  lemma FlattenSix(a: seq<U8>, b: seq<U8>, c: seq<U8>, d: seq<U8>, e: seq<U8>, f: seq<U8>)
    ensures Flatten([a, b, c, d, e, f]) == a + b + c + d + e + f
  {
    FlattenPush([], a);
    FlattenPush([a], b);
    FlattenPush([a, b], c);
    FlattenPush([a, b, c], d);
    FlattenPush([a, b, c, d], e);
    FlattenPush([a, b, c, d, e], f);
    assert [] + [a] == [a] && [a] + [b] == [a, b] && [a, b] + [c] == [a, b, c] && [a, b, c] + [d] == [a, b, c, d];
    assert [a, b, c, d] + [e] == [a, b, c, d, e] && [a, b, c, d, e] + [f] == [a, b, c, d, e, f];
  }

  /** chacha20poly1305_encrypt */
  method Encrypt(core: Core, key: seq<U8>, nonce: U64, ad: seq<U8>, dst: array<U8>, d: nat, src: array<U8>, s: nat,
                 len: nat)
    requires |key| == 32 && |ad| <= MAX_LEN && len <= MAX_LEN
    requires d + len + TAG <= dst.Length && s + len <= src.Length && (dst != src || d == s)
    modifies dst
    ensures dst[..] == old(dst[..d]) + Seal(core, key, nonce, ad, old(src[s..s + len])) + old(dst[d + len + TAG..])
  {
    ghost var front, rest := dst[..d], dst[d + len..];
    ghost var c := Body(core, key, nonce, src[s..s + len]);
    var mac := EncryptBody(core, key, nonce, ad, dst, d, src, s, len);
    Append(mac, dst, d + len, front + c, rest);
    assert rest[TAG..] == old(dst[d + len + TAG..]);
    assert front + (c + mac) == (front + c) + mac;
  }

  method EncryptBody(core: Core, key: seq<U8>, nonce: U64, ad: seq<U8>, dst: array<U8>, d: nat, src: array<U8>,
                     s: nat, len: nat)
    returns (mac: seq<U8>)
    requires |key| == 32 && |ad| <= MAX_LEN && len <= MAX_LEN
    requires d + len <= dst.Length && s + len <= src.Length && (dst != src || d == s)
    modifies dst
    ensures dst[..] == (old(dst[..d]) + Body(core, key, nonce, old(src[s..s + len]))) + old(dst[d + len..])
    ensures mac == AuthTag(core, key, nonce, ad, Body(core, key, nonce, old(src[s..s + len])))
  {
    var cipher, polyKey := GeneratePolyKey(core, key, nonce);
    ghost var head, tail := dst[..d], dst[d + len..];
    cipher.Apply(core, dst, d, src, s, len);
    mac := Authenticate(polyKey, ad, dst[d..d + len]);
    assert dst[..d] == head && dst[d + len..] == tail;
    Rejoined(dst[..], d, len);
  }

  lemma CutAt(a: seq<U8>, s: nat, n: nat, len: nat)
    requires n <= len && s + len <= |a|
    ensures a[s..s + len][..n] == a[s..s + n] && a[s..s + len][n..] == a[s + n..s + len]
  {
  }

  /** chacha20poly1305_decrypt: nothing is written unless the tag is right. */
  method Decrypt(core: Core, key: seq<U8>, nonce: U64, ad: seq<U8>, dst: array<U8>, d: nat, src: array<U8>, s: nat,
                 len: nat)
    returns (ok: bool)
    requires |key| == 32 && |ad| <= MAX_LEN && len < 0x8000_0000 + TAG
    requires s + len <= src.Length && (len >= TAG ==> d + len - TAG <= dst.Length) && (dst != src || d == s)
    modifies dst
    ensures ok <==> Open(core, key, nonce, ad, old(src[s..s + len])).Some?
    ensures ok ==> len >= TAG && dst[d..d + len - TAG] == Open(core, key, nonce, ad, old(src[s..s + len])).value
    ensures ok ==> forall x :: 0 <= x < dst.Length && !(d <= x < d + len - TAG) ==> dst[x] == old(dst[x])
    ensures !ok ==> dst[..] == old(dst[..])
  {
    ghost var sealed := src[s..s + len];
    ok := false;
    if len >= TAG {
      var n := len - TAG;
      var cipher, polyKey := GeneratePolyKey(core, key, nonce);
      var mac := Authenticate(polyKey, ad, src[s..s + n]);
      CutAt(src[..], s, n, len);
      var equal := CryptoEqual(mac, src[s + n..s + len]);
      if equal {
        cipher.Apply(core, dst, d, src, s, n);
        ok := true;
      }
    }
  }
}
