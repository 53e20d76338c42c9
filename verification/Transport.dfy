/** AmneziaWG's data packets. */
module TransportSpec {
  import opened Bits
  import opened ByteStrings
  import opened LittleEndian
  import opened ChaCha20Spec
  import opened AeadSpec

  const HDR: int := 16

  /** What the framing needs of the configuration. */
  datatype Config = Config(s1: nat, s2: nat, s3: nat, s4: nat, h4: U32, protect: bool, headerKey: seq<U8>) {
    ghost predicate Valid() {
      |headerKey| == 32
    }
  }

  datatype Packet = Packet(ctr: U64, plain: seq<U8>)

  /** header_cipher_init: the nonce fills words 13 to 15. */
  function HeaderState(key: seq<U8>, nonce: seq<U8>): Words
    requires |key| == 32 && |nonce| == 12
  {
    var st := Init(key, 0)[12 := 0];
    st[13 := Load32(nonce[0], nonce[1], nonce[2], nonce[3])]
      [14 := Load32(nonce[4], nonce[5], nonce[6], nonce[7])]
      [15 := Load32(nonce[8], nonce[9], nonce[10], nonce[11])]
  }

  /** The header pass, which is its own inverse: the first 12 bytes of the padding are the nonce. */
  function Veil(core: Core, cfg: Config, prefix: seq<U8>, msg: seq<U8>): (r: seq<U8>)
    requires cfg.Valid() && (cfg.protect ==> |prefix| >= 12)
    ensures |r| == |msg|
  {
    if cfg.protect then Crypt(core, HeaderState(cfg.headerKey, prefix[..12]), msg) else msg
  }

  lemma VeilTwice(core: Core, cfg: Config, prefix: seq<U8>, msg: seq<U8>)
    requires cfg.Valid() && (cfg.protect ==> |prefix| >= 12)
    ensures Veil(core, cfg, prefix, Veil(core, cfg, prefix, msg)) == msg
  {
    if cfg.protect { CryptTwice(core, HeaderState(cfg.headerKey, prefix[..12]), msg); }
  }

  function Header(h4: U32, index: U32, ctr: U64): (r: seq<U8>)
    ensures |r| == HDR
  {
    LeBytes(h4, 4) + LeBytes(index, 4) + LeBytes(ctr, 8)
  }

  /** A header says what it was made of. */
  lemma HeaderReads(h4: U32, index: U32, ctr: U64, hdr: seq<U8>)
    requires |hdr| == HDR
    ensures hdr == Header(h4, index, ctr)
            <==> LeValue(hdr[..4]) == h4 && LeValue(hdr[4..8]) == index && LeValue(hdr[8..]) == ctr
  {
    assert hdr == hdr[..4] + hdr[4..8] + hdr[8..];
    var w, l := 4, 8;
    Pow2At(8 * w);
    Pow2At(8 * l);
    BytesRead(h4, hdr[..4], w);
    BytesRead(index, hdr[4..8], w);
    BytesRead(ctr, hdr[8..], l);
    var r := Header(h4, index, ctr);
    assert r[..4] == LeBytes(h4, 4) && r[4..8] == LeBytes(index, 4) && r[8..] == LeBytes(ctr, 8);
  }

  lemma BytesRead(v: nat, s: seq<U8>, n: nat)
    requires |s| == n && v < Pow2(8 * n)
    ensures s == LeBytes(v, n) <==> LeValue(s) == v
  {
    LeValueOfBytes(v, n);
    LeBytesOfValue(s);
    BelowModulus(v, Pow2(8 * n));
  }

  lemma BelowModulus(v: nat, m: nat)
    requires v < m
    ensures v % m == v
  {
    RemainderIs(v, m, 0, v);
  }

  function Padded(payload: seq<U8>): seq<U8> {
    payload + Zeros(Fill(|payload|))
  }

  function Datagram(core: Core, cfg: Config, index: U32, key: seq<U8>, p: Packet, prefix: seq<U8>): seq<U8>
    requires cfg.Valid() && (cfg.protect ==> |prefix| >= 12) && |key| == 32
  {
    prefix + Veil(core, cfg, prefix, Header(cfg.h4, index, p.ctr)) + Seal(core, key, p.ctr, [], p.plain)
  }

  function OpenDatagram(core: Core, cfg: Config, index: U32, key: seq<U8>, pkt: seq<U8>, cap: nat): Option<Packet>
    requires cfg.Valid() && |key| == 32
  {
    if (cfg.protect && cfg.s4 < 12) || |pkt| < cfg.s4 + HDR + TAG then None else
      var hdr := Veil(core, cfg, pkt[..cfg.s4], pkt[cfg.s4..cfg.s4 + HDR]);
      OpenBody(core, cfg, index, key, hdr, pkt[cfg.s4 + HDR..], cap)
  }

  function OpenBody(core: Core, cfg: Config, index: U32, key: seq<U8>, hdr: seq<U8>, body: seq<U8>,
                    cap: nat): Option<Packet>
    requires |key| == 32 && |hdr| == HDR
  {
    if LeValue(hdr[..4]) != cfg.h4 || LeValue(hdr[4..8]) != index || |body| - TAG > cap then None else
      CounterFits(hdr[8..]);
      match Open(core, key, LeValue(hdr[8..]), [], body)
      case None => None
      case Some(plain) => Some(Packet(LeValue(hdr[8..]), plain))
  }

  lemma CounterFits(s: seq<U8>)
    requires |s| == 8
    ensures LeValue(s) < 0x1_0000_0000_0000_0000
  {
    LeValueBound(s);
    var n := 64;
    Pow2At(n);
  }

  /** A datagram is opened exactly when it was made for this receiver, with this key, and fits; what comes out is
      what went in. */
  lemma OpenIffDatagram(core: Core, cfg: Config, index: U32, key: seq<U8>, p: Packet, pkt: seq<U8>, cap: nat)
    requires cfg.Valid() && |key| == 32 && !(cfg.protect && cfg.s4 < 12)
    ensures OpenDatagram(core, cfg, index, key, pkt, cap) == Some(p) <==>
            |p.plain| <= cap && |pkt| >= cfg.s4 && pkt == Datagram(core, cfg, index, key, p, pkt[..cfg.s4])
  {
    if |pkt| >= cfg.s4 + HDR + TAG {
      var prefix, veiled, body := pkt[..cfg.s4], pkt[cfg.s4..cfg.s4 + HDR], pkt[cfg.s4 + HDR..];
      assert pkt == prefix + veiled + body;
      var hdr := Veil(core, cfg, prefix, veiled);
      HeaderReads(cfg.h4, index, p.ctr, hdr);
      CounterFits(hdr[8..]);
      OpenIffSealed(core, key, p.ctr, [], p.plain, body);
      VeilTwice(core, cfg, prefix, veiled);
      VeilTwice(core, cfg, prefix, Header(cfg.h4, index, p.ctr));
      var made := Datagram(core, cfg, index, key, p, prefix);
      if pkt == made { assert made[cfg.s4..cfg.s4 + HDR] == veiled && made[cfg.s4 + HDR..] == body; }
    }
  }

  /** Opening undoes sealing: the payload comes back with its zero padding, and with the same counter. */
  lemma OpenUndoesSeal(core: Core, cfg: Config, index: U32, key: seq<U8>, ctr: U64, payload: seq<U8>, prefix: seq<U8>,
                       cap: nat)
    requires cfg.Valid() && |key| == 32 && !(cfg.protect && cfg.s4 < 12) && |prefix| == cfg.s4
             && |Padded(payload)| <= cap
    ensures var p := Packet(ctr, Padded(payload));
            OpenDatagram(core, cfg, index, key, Datagram(core, cfg, index, key, p, prefix), cap) == Some(p)
    ensures payload <= Padded(payload) && |Padded(payload)| % 16 == 0 && |Padded(payload)| < |payload| + 16
  {
    var p := Packet(ctr, Padded(payload));
    DatagramStarts(core, cfg, index, key, p, prefix);
    OpenIffDatagram(core, cfg, index, key, p, Datagram(core, cfg, index, key, p, prefix), cap);
    PaddedIs(payload);
  }

  lemma DatagramStarts(core: Core, cfg: Config, index: U32, key: seq<U8>, p: Packet, prefix: seq<U8>)
    requires cfg.Valid() && |key| == 32 && (cfg.protect ==> |prefix| >= 12)
    ensures var pkt := Datagram(core, cfg, index, key, p, prefix); |pkt| >= |prefix| && pkt[..|prefix|] == prefix
  {
  }

  /** Padding adds zeros, and no more than it takes to reach a multiple of 16. */
  lemma PaddedIs(payload: seq<U8>)
    ensures payload <= Padded(payload) && |Padded(payload)| % 16 == 0 && |Padded(payload)| < |payload| + 16
    ensures forall i :: |payload| <= i < |Padded(payload)| ==> Padded(payload)[i] == 0
  {
  }

  /** The header cipher's state: the constants, the header key, a block counter of zero and the first twelve bytes of
      the padding, read as little-endian words. */
  lemma HeaderWords(key: seq<U8>, nonce: seq<U8>, w: nat)
    requires |key| == 32 && |nonce| == 12 && w < 16
    ensures HeaderState(key, nonce)[w] as int ==
            if w < 12 then Init(key, 0)[w] as int
            else if w == 12 then 0 else LeValue(nonce[4 * w - 52..4 * w - 48])
  {
    if w > 12 { LeValue4(nonce[4 * w - 52..4 * w - 48]); }
  }

  /** A protected message is xored with the key stream of the header key, from block 0 on. */
  lemma VeilByte(core: Core, cfg: Config, prefix: seq<U8>, msg: seq<U8>, i: nat)
    requires cfg.Valid() && (cfg.protect ==> |prefix| >= 12) && i < |msg|
    ensures Veil(core, cfg, prefix, msg)[i] as int ==
            if cfg.protect
            then Xor(msg[i], core(HeaderState(cfg.headerKey, prefix[..12])[12 := i / 64 % 0x1_0000_0000], i % 64))
            else msg[i]
  {
    if cfg.protect { CryptByte(core, HeaderState(cfg.headerKey, prefix[..12]), msg, i); }
  }

  /** A datagram is the padding, the veiled header, and the text sealed under its counter. */
  lemma DatagramLayout(core: Core, cfg: Config, index: U32, key: seq<U8>, p: Packet, prefix: seq<U8>)
    requires cfg.Valid() && (cfg.protect ==> |prefix| >= 12) && |key| == 32
    ensures var pkt, n := Datagram(core, cfg, index, key, p, prefix), |prefix|;
            && |pkt| == n + 16 + |p.plain| + 16 && pkt[..n] == prefix
            && pkt[n..n + 16] == Veil(core, cfg, prefix, Header(cfg.h4, index, p.ctr))
            && pkt[n + 16..] == Seal(core, key, p.ctr, [], p.plain)
  {
    Parts(prefix, Veil(core, cfg, prefix, Header(cfg.h4, index, p.ctr)), Seal(core, key, p.ctr, [], p.plain),
          Datagram(core, cfg, index, key, p, prefix));
  }

  /** The parts of a sum. */
  lemma Parts(a: seq<U8>, b: seq<U8>, c: seq<U8>, sum: seq<U8>)
    requires sum == a + b + c
    ensures sum[..|a|] == a && sum[|a|..|a| + |b|] == b && sum[|a| + |b|..] == c && |sum| == |a| + |b| + |c|
  {
  }

  /** What awg_wrap makes of a handshake message, with padding of its kind in front. */
  function Wrapped(core: Core, cfg: Config, prefix: seq<U8>, msg: seq<U8>): seq<U8>
    requires cfg.Valid() && (cfg.protect ==> |prefix| >= 12)
  {
    prefix + Veil(core, cfg, prefix, msg)
  }

  function Unwrapped(core: Core, cfg: Config, pad: nat, pkt: seq<U8>): seq<U8>
    requires cfg.Valid() && (cfg.protect ==> pad >= 12) && pad <= |pkt|
  {
    pkt[..pad] + Veil(core, cfg, pkt[..pad], pkt[pad..])
  }

  /** A wrapped message is the padding and the veiled message. */
  lemma WrappedLayout(core: Core, cfg: Config, prefix: seq<U8>, msg: seq<U8>)
    requires cfg.Valid() && (cfg.protect ==> |prefix| >= 12)
    ensures var pkt := Wrapped(core, cfg, prefix, msg);
            |pkt| == |prefix| + |msg| && pkt[..|prefix|] == prefix && pkt[|prefix|..] == Veil(core, cfg, prefix, msg)
  {
  }

  lemma UnwrapUndoesWrap(core: Core, cfg: Config, prefix: seq<U8>, msg: seq<U8>)
    requires cfg.Valid() && (cfg.protect ==> |prefix| >= 12)
    ensures Unwrapped(core, cfg, |prefix|, Wrapped(core, cfg, prefix, msg)) == prefix + msg
  {
    var pkt := Wrapped(core, cfg, prefix, msg);
    assert pkt[..|prefix|] == prefix && pkt[|prefix|..] == Veil(core, cfg, prefix, msg);
    VeilTwice(core, cfg, prefix, msg);
  }
}

/** Sealing, opening, wrapping and unwrapping in place, source/awg_noise.c. Line numbers refer to that file. */
module Transport {
  import opened Bits
  import opened ByteStrings
  import opened LittleEndian
  import opened ChaCha20Spec
  import opened ChaCha20
  import opened AeadSpec
  import opened TransportSpec
  import opened Buffers
  import Aead

  /** header_cipher_init and chacha20 over the header, in place. */
  method VeilInPlace(core: Core, cfg: Config, pkt: array<U8>, at: nat, len: nat)
    requires cfg.Valid() && at + len <= pkt.Length && (cfg.protect ==> at >= 12)
    modifies pkt
    ensures pkt[..] == old(pkt[..at]) + Veil(core, cfg, old(pkt[..at]), old(pkt[at..at + len])) + old(pkt[at + len..])
  {
    if cfg.protect {
      var cipher := new Cipher(cfg.headerKey, 0);
      cipher.state := HeaderState(cfg.headerKey, pkt[..12]);
      assert pkt[..at][..12] == pkt[..12];
      cipher.ApplyInPlace(core, pkt, at, len);
    } else {
      Rejoined(pkt[..], at, len);
    }
  }

  lemma Ends(a: seq<U8>, b: seq<U8>, c: seq<U8>, sum: seq<U8>)
    requires sum == a + (b + c)
    ensures sum[..|a| + |b|] == a + b
  {
  }

  /** awg_wrap; pad is padding_for the kind, prefix the random bytes drawn for it. */
  method Wrap(core: Core, cfg: Config, pad: nat, msg: seq<U8>, prefix: seq<U8>, out: array<U8>) returns (n: int)
    requires cfg.Valid() && |prefix| == pad
    modifies out
    ensures n == if (cfg.protect && pad < 12) || pad + |msg| > out.Length then -1 else pad + |msg|
    ensures n >= 0 ==> out[..n] == Wrapped(core, cfg, prefix, msg)
    ensures n < 0 ==> out[..] == old(out[..])
  {
    if (cfg.protect && pad < 12) || pad + |msg| > out.Length {
      return -1;
    }
    ghost var rest := LayHeader(prefix, msg, out);
    Parts(prefix, msg, rest, out[..]);
    VeilInPlace(core, cfg, out, pad, |msg|);
    return pad + |msg|;
  }

  /** awg_unwrap undoes awg_wrap in place. */
  method Unwrap(core: Core, cfg: Config, pad: nat, pkt: array<U8>) returns (n: int)
    requires cfg.Valid()
    modifies pkt
    ensures n == if (cfg.protect && pad < 12) || pkt.Length <= pad then -1 else pkt.Length - pad
    ensures n < 0 ==> pkt[..] == old(pkt[..])
    ensures n >= 0 ==> pkt[..] == Unwrapped(core, cfg, pad, old(pkt[..]))
  {
    if (cfg.protect && pad < 12) || pkt.Length <= pad {
      return -1;
    }
    assert pkt[pad..pkt.Length] == pkt[..][pad..] && pkt[pkt.Length..] == [] && pkt[..pad] == pkt[..][..pad];
    VeilInPlace(core, cfg, pkt, pad, pkt.Length - pad);
    return pkt.Length - pad;
  }

  /** awg_transport_seal; prefix is the random padding it draws. */
  method TransportSeal(core: Core, cfg: Config, index: U32, key: seq<U8>, counter: U64,
                       payload: seq<U8>, prefix: seq<U8>, out: array<U8>)
    returns (n: int)
    requires cfg.Valid() && |key| == 32 && |prefix| == cfg.s4 && cfg.s4 + |payload| < 0x7FFF_0000
    modifies out
    ensures n == if (cfg.protect && cfg.s4 < 12) || cfg.s4 + HDR + |Padded(payload)| + TAG > out.Length then -1
                 else cfg.s4 + HDR + |Padded(payload)| + TAG
    ensures n >= 0 ==> out[..n] == Datagram(core, cfg, index, key, Packet(counter, Padded(payload)), prefix)
    ensures n < 0 ==> out[..] == old(out[..])
  {
    var pad := cfg.s4;
    if cfg.protect && pad < 12 {
      return -1;
    }
    var padded := Aead.RoundUp(|payload|);
    Aead.RoundUpIs(|payload|);
    var total := pad + HDR + padded + TAG;
    if total > out.Length {
      return -1;
    }
    var hdr := Header(cfg.h4, index, counter);
    ghost var tail := LayHeader(prefix, hdr, out);
    LayPayload(payload, padded - |payload|, out, pad + HDR, prefix + hdr, tail);
    SealInPlace(core, cfg, key, counter, out, padded, prefix, hdr, Padded(payload), tail[padded..]);
    Ends(prefix + Veil(core, cfg, prefix, hdr), Seal(core, key, counter, [], Padded(payload)),
         tail[padded..][TAG..], out[..]);
    return total;
  }

  /** Lines 420-425 */
  method LayHeader(prefix: seq<U8>, hdr: seq<U8>, out: array<U8>) returns (ghost rest: seq<U8>)
    requires |prefix| + |hdr| <= out.Length
    modifies out
    ensures out[..] == (prefix + hdr) + rest && |rest| == out.Length - |prefix| - |hdr|
  {
    ghost var all := out[..];
    assert all == [] + all;
    Append(prefix, out, 0, [], all);
    assert [] + prefix == prefix;
    Append(hdr, out, |prefix|, prefix, all[|prefix|..]);
    rest := all[|prefix|..][|hdr|..];
  }

  /** Lines 429-431 */
  method LayPayload(payload: seq<U8>, fill: nat, out: array<U8>, at: nat, ghost front: seq<U8>, ghost tail: seq<U8>)
    requires |front| == at && out[..] == front + tail && |payload| + fill <= |tail|
    modifies out
    ensures out[..] == front + ((payload + Zeros(fill)) + tail[|payload| + fill..])
  {
    Append(payload, out, at, front, tail);
    ghost var rest := tail[|payload|..];
    Append(Zeros(fill), out, at + |payload|, front + payload, rest);
    assert rest[fill..] == tail[|payload| + fill..];
    Regroup(front, payload, Zeros(fill), rest[fill..]);
  }

  lemma Regroup(a: seq<U8>, b: seq<U8>, c: seq<U8>, d: seq<U8>)
    ensures ((a + b) + c) + d == a + ((b + c) + d)
  {
  }

  /** Lines 433-439 */
  method SealInPlace(core: Core, cfg: Config, key: seq<U8>, counter: U64, out: array<U8>, padded: nat,
                     ghost prefix: seq<U8>, ghost hdr: seq<U8>, ghost plain: seq<U8>, ghost rest: seq<U8>)
    requires cfg.Valid() && |key| == 32 && (cfg.protect ==> cfg.s4 >= 12) && |prefix| == cfg.s4 && |hdr| == HDR
    requires |plain| == padded < 0x8000_0000 && |rest| >= TAG && out[..] == (prefix + hdr) + (plain + rest)
    modifies out
    ensures out[..] == prefix + Veil(core, cfg, prefix, hdr) + (Seal(core, key, counter, [], plain) + rest[TAG..])
  {
    ghost var body := Seal(core, key, counter, [], plain);
    EncryptTail(core, key, counter, out, cfg.s4 + HDR, padded, prefix + hdr, plain, rest);
    Parts(prefix, hdr, body + rest[TAG..], out[..]);
    VeilInPlace(core, cfg, out, cfg.s4, HDR);
  }

  method EncryptTail(core: Core, key: seq<U8>, counter: U64, out: array<U8>, at: nat, padded: nat,
                     ghost front: seq<U8>, ghost plain: seq<U8>, ghost rest: seq<U8>)
    requires |key| == 32 && |plain| == padded < 0x8000_0000 && |rest| >= TAG && |front| == at
             && out[..] == front + (plain + rest)
    modifies out
    ensures out[..] == front + (Seal(core, key, counter, [], plain) + rest[TAG..])
  {
    assert out[..at] == front && out[at..at + padded] == plain && out[at + padded + TAG..] == rest[TAG..];
    Aead.Encrypt(core, key, counter, [], out, at, out, at, padded);
  }

  /** awg_transport_open. On every rejection the packet is what it was: another key can be tried on it. */
  method TransportOpen(core: Core, cfg: Config, index: U32, key: seq<U8>, pkt: array<U8>, out: array<U8>)
    returns (n: int, ctr: U64)
    requires cfg.Valid() && |key| == 32 && pkt != out && pkt.Length < 0x7FFF_0000
    modifies pkt, out
    ensures n >= 0 <==> OpenDatagram(core, cfg, index, key, old(pkt[..]), out.Length).Some?
    ensures n >= 0 ==> n <= out.Length
                       && Some(Packet(ctr, out[..n])) == OpenDatagram(core, cfg, index, key, old(pkt[..]), out.Length)
    ensures n < 0 ==> pkt[..] == old(pkt[..]) && out[..] == old(out[..])
  {
    var pad := cfg.s4;
    ctr := 0;
    if (cfg.protect && pad < 12) || pkt.Length < pad + HDR + TAG {
      return -1, ctr;
    }
    ghost var prefix, veiled, body := pkt[..pad], pkt[pad..pad + HDR], pkt[pad + HDR..];
    ghost var hdr := Veil(core, cfg, prefix, veiled);
    VeilInPlace(core, cfg, pkt, pad, HDR);
    Parts(prefix, hdr, body, pkt[..]);
    n, ctr := ReadAndDecrypt(core, cfg, index, key, pkt, out, hdr, body);
    if n < 0 {
      Restore(core, cfg, pkt, prefix, veiled, body);
      assert old(pkt[..]) == prefix + veiled + body;
    }
  }

  /** REJECT, lines 464-471: the header pass a second time. */
  method Restore(core: Core, cfg: Config, pkt: array<U8>, ghost prefix: seq<U8>, ghost veiled: seq<U8>,
                 ghost body: seq<U8>)
    requires cfg.Valid() && !(cfg.protect && cfg.s4 < 12) && |prefix| == cfg.s4 && |veiled| == HDR
    requires pkt[..] == prefix + Veil(core, cfg, prefix, veiled) + body
    modifies pkt
    ensures pkt[..] == prefix + veiled + body
  {
    VeilTwice(core, cfg, prefix, veiled);
    Parts(prefix, Veil(core, cfg, prefix, veiled), body, pkt[..]);
    VeilInPlace(core, cfg, pkt, cfg.s4, HDR);
  }

  /** Lines 473-489, with the header in the clear. */
  method ReadAndDecrypt(core: Core, cfg: Config, index: U32, key: seq<U8>, pkt: array<U8>, out: array<U8>,
                        ghost hdr: seq<U8>, ghost body: seq<U8>)
    returns (n: int, ctr: U64)
    requires |key| == 32 && pkt != out && pkt.Length < 0x7FFF_0000 && pkt.Length >= cfg.s4 + HDR + TAG
    requires pkt[cfg.s4..cfg.s4 + HDR] == hdr && pkt[cfg.s4 + HDR..] == body
    modifies out
    ensures n >= 0 <==> OpenBody(core, cfg, index, key, hdr, body, out.Length).Some?
    ensures n >= 0 ==> n <= out.Length
                       && Some(Packet(ctr, out[..n])) == OpenBody(core, cfg, index, key, hdr, body, out.Length)
    ensures n < 0 ==> out[..] == old(out[..])
  {
    var at := cfg.s4;
    var clear := pkt[at..at + HDR];
    assert clear == hdr;
    ctr := 0;
    if LeValue(clear[..4]) != cfg.h4 || LeValue(clear[4..8]) != index {
      return -1, ctr;
    }
    CounterFits(clear[8..]);
    var c := LeValue(clear[8..]);
    n := DecryptBody(core, key, c, pkt, at + HDR, out, body);
    if n >= 0 {
      ctr := c;
    }
  }

  method DecryptBody(core: Core, key: seq<U8>, c: U64, pkt: array<U8>, at: nat, out: array<U8>, ghost body: seq<U8>)
    returns (n: int)
    requires |key| == 32 && pkt != out && pkt.Length < 0x7FFF_0000 && at + TAG <= pkt.Length && pkt[at..] == body
    modifies out
    ensures n >= 0 <==> |body| - TAG <= out.Length && Open(core, key, c, [], body).Some?
    ensures n >= 0 ==> n <= out.Length && Some(out[..n]) == Open(core, key, c, [], body)
    ensures n < 0 ==> out[..] == old(out[..])
  {
    var cipherLen := pkt.Length - at;
    n := cipherLen - TAG;
    if n > out.Length {
      return -1;
    }
    assert pkt[at..at + cipherLen] == body;
    var ok := Aead.Decrypt(core, key, c, [], out, 0, pkt, at, cipherLen);
    if !ok {
      return -1;
    }
    assert out[0..0 + n] == out[..n];
  }
}
