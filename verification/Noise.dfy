/** The Noise_IKpsk2 handshake. The hash, HMAC, the keyed MAC and the Diffie-Hellman function are parameters; the AEAD
    is the one of module AeadSpec. */
module NoiseSpec {
  import opened Bits
  import opened ByteStrings
  import opened LittleEndian
  import opened ChaCha20Spec
  import opened AeadSpec

  type Bytes32 = s: seq<U8> | |s| == 32 witness seq(32, i => 0)
  type Bytes16 = s: seq<U8> | |s| == 16 witness seq(16, i => 0)

  datatype Suite = Suite(hash: seq<U8> -> Bytes32, hmac: (Bytes32, seq<U8>) -> Bytes32,
                         mac: (Bytes32, seq<U8>) -> Bytes16,
                         dh: (Bytes32, Bytes32) -> Bytes32, base: Bytes32 -> Bytes32, core: Core)

  /** The one fact about Diffie-Hellman that a handshake rests on. */
  ghost predicate Commutes(su: Suite) {
    forall a, b :: su.dh(a, su.base(b)) == su.dh(b, su.base(a))
  }

  /** x25519 fails when the shared secret is zero. */
  predicate Degenerate(secret: Bytes32) {
    LeValue(secret) == 0
  }

  function Ascii(s: string): seq<U8> {
    seq(|s|, i requires 0 <= i < |s| => (s[i] as int) % 0x100)
  }

  const CONSTRUCTION: string := "Noise_IKpsk2_25519_ChaChaPoly_BLAKE2s"
  const IDENTIFIER: string := "WireGuard v1 zx2c4 Jason@zx2c4.com"
  const LABEL_MAC1: string := "mac1----"

  function Kdf1(su: Suite, ck: Bytes32, data: seq<U8>): Bytes32 {
    su.hmac(su.hmac(ck, data), [1])
  }

  function Kdf2(su: Suite, ck: Bytes32, data: seq<U8>): Bytes32 {
    su.hmac(su.hmac(ck, data), Kdf1(su, ck, data) + [2])
  }

  function Kdf3(su: Suite, ck: Bytes32, data: seq<U8>): Bytes32 {
    su.hmac(su.hmac(ck, data), Kdf2(su, ck, data) + [3])
  }

  function Mac1(su: Suite, receiver: Bytes32, msg: seq<U8>): Bytes16 {
    su.mac(su.hash(Ascii(LABEL_MAC1) + receiver), msg)
  }

  /** The chaining key and the running hash. */
  datatype Chain = Chain(ck: Bytes32, h: Bytes32)

  function MixHash(su: Suite, c: Chain, data: seq<U8>): Chain {
    c.(h := su.hash(c.h + data))
  }

  function MixKey(su: Suite, c: Chain, data: seq<U8>): Chain {
    c.(ck := Kdf1(su, c.ck, data))
  }

  function Start(su: Suite, responder: Bytes32): Chain {
    var ck := su.hash(Ascii(CONSTRUCTION));
    MixHash(su, Chain(ck, su.hash(ck + Ascii(IDENTIFIER))), responder)
  }

  /** A message of the transcript: a key goes into both parts; a secret goes into the chaining key and encrypts
      what goes into the hash. */
  function WithKey(su: Suite, c: Chain, key: Bytes32): Chain {
    MixHash(su, MixKey(su, c, key), key)
  }

  function WithSealed(su: Suite, c: Chain, secret: Bytes32, sealed: seq<U8>): Chain {
    MixHash(su, MixKey(su, c, secret), sealed)
  }

  function SealWith(su: Suite, c: Chain, secret: Bytes32, plain: seq<U8>): (r: seq<U8>)
    ensures |r| == |plain| + TAG
  {
    Seal(su.core, Kdf2(su, c.ck, secret), 0, c.h, plain)
  }

  function OpenWith(su: Suite, c: Chain, secret: Bytes32, sealed: seq<U8>): Option<seq<U8>> {
    Open(su.core, Kdf2(su, c.ck, secret), 0, c.h, sealed)
  }

  lemma OpenWithSealed(su: Suite, c: Chain, secret: Bytes32, plain: seq<U8>)
    ensures OpenWith(su, c, secret, SealWith(su, c, secret, plain)) == Some(plain)
  {
    OpenIffSealed(su.core, Kdf2(su, c.ck, secret), 0, c.h, plain, SealWith(su, c, secret, plain));
  }

  /** The preshared key gives a new chaining key, a value for the hash and the key for the empty message. */
  function WithPsk(su: Suite, c: Chain, psk: Bytes32): Chain {
    MixHash(su, MixKey(su, c, psk), Kdf2(su, c.ck, psk))
  }

  /** The transcript up to the response's empty message, given the responder's ephemeral key and the two secrets. */
  function Answered(su: Suite, c: Chain, ephemeral: Bytes32, ee: Bytes32, se: Bytes32): Chain {
    MixKey(su, MixKey(su, WithKey(su, c, ephemeral), ee), se)
  }

  /** The initiation: the initiator's static key and a timestamp, each sealed with a fresh secret. */
  datatype Initiation = Initiation(chain: Chain, sealedStatic: seq<U8>, sealedStamp: seq<U8>)

  function Initiate(su: Suite, responder: Bytes32, ephemeral: Bytes32, es: Bytes32, identity: Bytes32, ss: Bytes32,
                    stamp: seq<U8>): (r: Initiation)
    ensures |r.sealedStatic| == 48 && |r.sealedStamp| == |stamp| + TAG
  {
    var c := WithKey(su, Start(su, responder), ephemeral);
    var sealedStatic := SealWith(su, c, es, identity);
    var d := WithSealed(su, c, es, sealedStatic);
    var sealedStamp := SealWith(su, d, ss, stamp);
    Initiation(WithSealed(su, d, ss, sealedStamp), sealedStatic, sealedStamp)
  }

  /** The end of the transcript: the empty message that confirms the keys. */
  function Confirm(su: Suite, c: Chain, psk: Bytes32): (r: seq<U8>)
    ensures |r| == TAG
  {
    Seal(su.core, Kdf3(su, c.ck, psk), 0, WithPsk(su, c, psk).h, [])
  }

  function Final(su: Suite, c: Chain, psk: Bytes32): Chain {
    MixHash(su, WithPsk(su, c, psk), Confirm(su, c, psk))
  }

  const INIT_SIZE: int := 148
  const RESP_SIZE: int := 92

  /** The initiation up to its mac1. */
  function InitBody(index: U32, ephemeral: Bytes32, sealedStatic: seq<U8>, sealedStamp: seq<U8>): seq<U8> {
    LeBytes(1, 4) + LeBytes(index, 4) + ephemeral + sealedStatic + sealedStamp
  }

  function RespBody(index: U32, peerIndex: U32, ephemeral: Bytes32, empty: seq<U8>): seq<U8> {
    LeBytes(2, 4) + LeBytes(index, 4) + LeBytes(peerIndex, 4) + ephemeral + empty
  }

  /** mac1, and mac2, which stays zero. */
  function WithMacs(su: Suite, receiver: Bytes32, body: seq<U8>): seq<U8> {
    body + Mac1(su, receiver, body) + Zeros(16)
  }

  lemma WithMacsParts(su: Suite, receiver: Bytes32, body: seq<U8>)
    ensures var msg := WithMacs(su, receiver, body); var n := |body|;
            |msg| == n + 32 && msg[..n] == body && msg[n..n + 16] == Mac1(su, receiver, body)
  {
  }

  lemma WordReads(v: U32)
    ensures LeValue(LeBytes(v, 4)) == v
  {
    var n := 4;
    LeValueOfBytes(v, n);
    Pow2At(8 * n);
  }

  lemma InitBodyParts(index: U32, e: Bytes32, s: seq<U8>, t: seq<U8>)
    requires |s| == 48 && |t| == 28
    ensures var b := InitBody(index, e, s, t);
            |b| == 116 && b[..4] == LeBytes(1, 4) && b[4..8] == LeBytes(index, 4) && b[8..40] == e && b[40..88] == s
              && b[88..116] == t
  {
  }

  lemma RespBodyParts(index: U32, peerIndex: U32, e: Bytes32, m: seq<U8>)
    requires |m| == 16
    ensures var b := RespBody(index, peerIndex, e, m);
            && |b| == 60 && b[..4] == LeBytes(2, 4) && b[4..8] == LeBytes(index, 4) && b[8..12] == LeBytes(peerIndex, 4)
            && b[12..44] == e && b[44..60] == m
  {
  }

  lemma WordFits(s: seq<U8>)
    requires |s| == 4
    ensures LeValue(s) < 0x1_0000_0000
  {
    LeValueBound(s);
    Pow2At(8 * |s|);
  }

  /** What the responder learns from an initiation: the chain and the initiator's static key. */
  datatype Learned = Learned(chain: Chain, identity: Bytes32)

  function LearnedFrom(su: Suite, sPriv: Bytes32, sPub: Bytes32, msg: seq<U8>): Option<Learned>
    requires |msg| == INIT_SIZE
  {
    if LeValue(msg[..4]) != 1 || Mac1(su, sPub, msg[..116]) != msg[116..132] then None
    else Revealed(su, Start(su, sPub), sPriv, msg[8..40], msg[40..88], msg[88..116])
  }

  /** The two sealed fields of an initiation, opened in turn. */
  function Revealed(su: Suite, start: Chain, sPriv: Bytes32, e: Bytes32, sealedStatic: seq<U8>, sealedStamp: seq<U8>)
    : Option<Learned>
    requires |sealedStatic| == 48
  {
    var c := WithKey(su, start, e);
    var es := su.dh(sPriv, e);
    if Degenerate(es) then None else
      match OpenWith(su, c, es, sealedStatic)
      case None => None
      case Some(key) =>
        var d := WithSealed(su, c, es, sealedStatic);
        var ss := su.dh(sPriv, key);
        if Degenerate(ss) || OpenWith(su, d, ss, sealedStamp).None? then None
        else Some(Learned(WithSealed(su, d, ss, sealedStamp), key))
  }

  /** An initiation made for this responder is accepted, and tells it who made it. */
  lemma LearnsInitiator(su: Suite, sPriv: Bytes32, index: U32, e: Bytes32, es: Bytes32, identity: Bytes32,
                        ss: Bytes32, stamp: seq<U8>)
    requires |stamp| == 12 && !Degenerate(es) && !Degenerate(ss) && su.dh(sPriv, e) == es
             && su.dh(sPriv, identity) == ss
    ensures var i := Initiate(su, su.base(sPriv), e, es, identity, ss, stamp);
            var msg := WithMacs(su, su.base(sPriv), InitBody(index, e, i.sealedStatic, i.sealedStamp));
            |msg| == INIT_SIZE && LearnedFrom(su, sPriv, su.base(sPriv), msg) == Some(Learned(i.chain, identity))
            && msg[8..40] == e && LeValue(msg[4..8]) == index
  {
    var i := Initiate(su, su.base(sPriv), e, es, identity, ss, stamp);
    var b := InitBody(index, e, i.sealedStatic, i.sealedStamp);
    var msg := WithMacs(su, su.base(sPriv), b);
    InitBodyParts(index, e, i.sealedStatic, i.sealedStamp);
    WithMacsParts(su, su.base(sPriv), b);
    assert msg[..4] == b[..4] && msg[4..8] == b[4..8] && msg[8..40] == b[8..40] && msg[40..88] == b[40..88]
           && msg[88..116] == b[88..116];
    WordReads(1);
    WordReads(index);
    var c := WithKey(su, Start(su, su.base(sPriv)), e);
    OpenWithSealed(su, c, es, identity);
    OpenWithSealed(su, WithSealed(su, c, es, i.sealedStatic), ss, stamp);
  }

  /** The transport keys: the first is the one that the initiator sends with. */
  function Derived(su: Suite, ck: Bytes32, first: bool): Bytes32 {
    if first then Kdf1(su, ck, []) else Kdf2(su, ck, [])
  }

  /** Lines 287-291 */
  predicate Addressed(su: Suite, index: U32, sPub: Bytes32, msg: seq<U8>)
    requires |msg| == RESP_SIZE
  {
    LeValue(msg[..4]) == 2 && LeValue(msg[8..12]) == index && Mac1(su, sPub, msg[..60]) == msg[60..76]
  }

  lemma ResponseReads(su: Suite, sPub: Bytes32, index: U32, peerIndex: U32, e: Bytes32, empty: seq<U8>)
    requires |empty| == TAG
    ensures var msg := WithMacs(su, sPub, RespBody(index, peerIndex, e, empty));
            && |msg| == RESP_SIZE && Addressed(su, peerIndex, sPub, msg)
            && LeValue(msg[4..8]) == index && msg[12..44] == e && msg[44..60] == empty
  {
    var b := RespBody(index, peerIndex, e, empty);
    var msg := WithMacs(su, sPub, b);
    RespBodyParts(index, peerIndex, e, empty);
    WithMacsParts(su, sPub, b);
    assert msg[..4] == b[..4] && msg[4..8] == b[4..8] && msg[8..12] == b[8..12] && msg[12..44] == b[12..44]
           && msg[44..60] == b[44..60];
    WordReads(2);
    WordReads(index);
    WordReads(peerIndex);
  }

  function AnsweredSoFar(su: Suite, c: Chain, ephemeral: Bytes32, ee: Bytes32, se: Bytes32): Chain {
    if Degenerate(ee) then WithKey(su, c, ephemeral)
    else if Degenerate(se) then MixKey(su, WithKey(su, c, ephemeral), ee)
    else Answered(su, c, ephemeral, ee, se)
  }

  predicate Confirmed(su: Suite, c: Chain, e: Bytes32, ee: Bytes32, se: Bytes32, psk: Bytes32, empty: seq<U8>) {
    !Degenerate(ee) && !Degenerate(se) && empty == Confirm(su, Answered(su, c, e, ee, se), psk)
  }

  /** The chain after a response that got past line 291, accepted or not. */
  function ResponseChain(su: Suite, c: Chain, e: Bytes32, ee: Bytes32, se: Bytes32, psk: Bytes32,
                         empty: seq<U8>): Chain {
    var d := AnsweredSoFar(su, c, e, ee, se);
    if Degenerate(ee) || Degenerate(se) then d
    else if Confirmed(su, c, e, ee, se, psk, empty) then Final(su, d, psk)
    else WithPsk(su, d, psk)
  }

  lemma EmptyOpens(su: Suite, c: Chain, psk: Bytes32, empty: seq<U8>)
    requires |empty| == TAG
    ensures Open(su.core, Kdf3(su, c.ck, psk), 0, WithPsk(su, c, psk).h, empty).Some? <==> empty == Confirm(su, c, psk)
  {
    OpenIffSealed(su.core, Kdf3(su, c.ck, psk), 0, WithPsk(su, c, psk).h, [], empty);
    var r := Open(su.core, Kdf3(su, c.ck, psk), 0, WithPsk(su, c, psk).h, empty);
    assert r.Some? ==> r.value == [];
  }
}

/** The handshake of source/awg_noise.c. Line numbers refer to that file. */
module Noise {
  import opened Bits
  import opened ByteStrings
  import opened LittleEndian
  import opened AeadSpec
  import opened NoiseSpec
  import opened NoiseTranscript

  class Handshake {
    var ck: Bytes32
    var h: Bytes32
    var sPriv: Bytes32
    var sPub: Bytes32
    var ePriv: Bytes32
    var ePub: Bytes32
    var peerPub: Bytes32
    var peerEph: Bytes32
    var psk: Bytes32
    var localIndex: U32
    var remoteIndex: U32
    var sendKey: Bytes32
    var recvKey: Bytes32
    var established: bool

    ghost function Chain(): Chain
      reads this
    {
      NoiseSpec.Chain(ck, h)
    }

    /** awg_handshake_begin */
    constructor (su: Suite, sPriv: Bytes32, peerPub: Bytes32, psk: Bytes32, localIndex: U32)
      ensures this.sPriv == sPriv && sPub == su.base(sPriv) && this.peerPub == peerPub && this.psk == psk
      ensures this.localIndex == localIndex && !established
    {
      this.sPriv, sPub, this.peerPub, this.psk, this.localIndex := sPriv, su.base(sPriv), peerPub, psk, localIndex;
      ck, h, ePriv, ePub := Zeros(32), Zeros(32), Zeros(32), Zeros(32);
      peerEph, sendKey, recvKey, remoteIndex, established := Zeros(32), Zeros(32), Zeros(32), 0, false;
    }

    method ChainStart(su: Suite, responder: Bytes32)
      modifies this`ck, this`h
      ensures Chain() == Start(su, responder)
    {
      ck := su.hash(Ascii(CONSTRUCTION));
      h := su.hash(ck + Ascii(IDENTIFIER));
      h := su.hash(h + responder);
    }

    method AbsorbKey(su: Suite, key: Bytes32)
      modifies this`ck, this`h
      ensures Chain() == WithKey(su, old(Chain()), key)
    {
      ck := Kdf1(su, ck, key);
      h := su.hash(h + key);
    }

    /** Seal a field of the initiation with a fresh secret. */
    method SealField(su: Suite, secret: Bytes32, plain: seq<U8>) returns (sealed: seq<U8>)
      modifies this`ck, this`h
      ensures sealed == SealWith(su, old(Chain()), secret, plain)
              && Chain() == WithSealed(su, old(Chain()), secret, sealed)
    {
      var k := Kdf2(su, ck, secret);
      ck := Kdf1(su, ck, secret);
      sealed := Seal(su.core, k, 0, h, plain);
      h := su.hash(h + sealed);
    }

    /** The other side: the hash moves on only when the field opens. */
    method OpenField(su: Suite, secret: Bytes32, sealed: seq<U8>) returns (plain: Option<seq<U8>>)
      modifies this`ck, this`h
      ensures plain == OpenWith(su, old(Chain()), secret, sealed)
      ensures Chain() == if plain.Some? then WithSealed(su, old(Chain()), secret, sealed)
              else MixKey(su, old(Chain()), secret)
    {
      var k := Kdf2(su, ck, secret);
      ck := Kdf1(su, ck, secret);
      plain := Open(su.core, k, 0, h, sealed);
      if plain.Some? {
        h := su.hash(h + sealed);
      }
    }

    /** awg_create_initiation, with the ephemeral key and the time it draws. */
    method CreateInitiation(su: Suite, eph: Bytes32, stamp: seq<U8>) returns (msg: Option<seq<U8>>)
      requires |stamp| == 12
      modifies this`ck, this`h, this`ePriv, this`ePub
      ensures ePriv == eph && ePub == su.base(eph)
      ensures msg.Some? <==> !Degenerate(su.dh(eph, peerPub)) && !Degenerate(su.dh(sPriv, peerPub))
      ensures var i := Initiate(su, peerPub, ePub, su.dh(eph, peerPub), sPub, su.dh(sPriv, peerPub), stamp);
              msg.Some? ==> Chain() == i.chain
                            && msg.value
                               == WithMacs(su, peerPub, InitBody(localIndex, ePub, i.sealedStatic, i.sealedStamp))
    {
      ChainStart(su, peerPub);
      ePriv, ePub := eph, su.base(eph);
      AbsorbKey(su, ePub);
      var es := su.dh(ePriv, peerPub);
      if Degenerate(es) {
        return None;
      }
      var sealedStatic := SealField(su, es, sPub);
      var ss := su.dh(sPriv, peerPub);
      if Degenerate(ss) {
        return None;
      }
      var sealedStamp := SealField(su, ss, stamp);
      return Some(WithMacs(su, peerPub, InitBody(localIndex, ePub, sealedStatic, sealedStamp)));
    }

    /** awg_consume_initiation */
    method ConsumeInitiation(su: Suite, msg: seq<U8>) returns (ok: bool)
      requires |msg| == INIT_SIZE
      modifies this`ck, this`h, this`remoteIndex, this`peerEph, this`peerPub
      ensures ok <==> LearnedFrom(su, sPriv, sPub, msg).Some?
      ensures ok ==> Some(Learned(Chain(), peerPub)) == LearnedFrom(su, sPriv, sPub, msg)
      ensures ok ==> peerEph == msg[8..40] && remoteIndex as int == LeValue(msg[4..8])
    {
      if LeValue(msg[..4]) != 1 {
        return false;
      }
      ChainStart(su, sPub);
      if Mac1(su, sPub, msg[..116]) != msg[116..132] {
        return false;
      }
      WordFits(msg[4..8]);
      remoteIndex, peerEph := LeValue(msg[4..8]), msg[8..40];
      ok := Reveal(su, msg[40..88], msg[88..116]);
    }

    /** Lines 230-243 */
    method Reveal(su: Suite, sealedStatic: seq<U8>, sealedStamp: seq<U8>) returns (ok: bool)
      requires |sealedStatic| == 48
      modifies this`ck, this`h, this`peerPub
      ensures ok <==> Revealed(su, old(Chain()), sPriv, peerEph, sealedStatic, sealedStamp).Some?
      ensures ok ==> Some(Learned(Chain(), peerPub))
                     == Revealed(su, old(Chain()), sPriv, peerEph, sealedStatic, sealedStamp)
    {
      AbsorbKey(su, peerEph);
      var es := su.dh(sPriv, peerEph);
      if Degenerate(es) {
        return false;
      }
      var key := OpenField(su, es, sealedStatic);
      if key.None? {
        return false;
      }
      peerPub := key.value;
      var ss := su.dh(sPriv, peerPub);
      if Degenerate(ss) {
        return false;
      }
      var stamp := OpenField(su, ss, sealedStamp);
      return stamp.Some?;
    }

    /** Lines 259-266 and 296-303: both roles. The chain is left as far as it got. */
    method Answer(su: Suite, ephemeral: Bytes32, ee: Bytes32, se: Bytes32) returns (ok: bool)
      modifies this`ck, this`h
      ensures ok <==> !Degenerate(ee) && !Degenerate(se)
      ensures Chain() == AnsweredSoFar(su, old(Chain()), ephemeral, ee, se)
    {
      AbsorbKey(su, ephemeral);
      if Degenerate(ee) {
        return false;
      }
      ck := Kdf1(su, ck, ee);
      if Degenerate(se) {
        return false;
      }
      ck := Kdf1(su, ck, se);
      return true;
    }

    method MixPsk(su: Suite) returns (k: Bytes32)
      modifies this`ck, this`h
      ensures Chain() == WithPsk(su, old(Chain()), psk) && k == Kdf3(su, old(ck), psk)
    {
      k := Kdf3(su, ck, psk);
      var t := Kdf2(su, ck, psk);
      ck := Kdf1(su, ck, psk);
      h := su.hash(h + t);
    }

    method SendConfirm(su: Suite) returns (empty: seq<U8>)
      modifies this`ck, this`h
      ensures empty == Confirm(su, old(Chain()), psk) && Chain() == Final(su, old(Chain()), psk)
    {
      var k := MixPsk(su);
      empty := Seal(su.core, k, 0, h, []);
      h := su.hash(h + empty);
    }

    method CheckConfirm(su: Suite, empty: seq<U8>) returns (ok: bool)
      requires |empty| == TAG
      modifies this`ck, this`h
      ensures ok <==> empty == Confirm(su, old(Chain()), psk)
      ensures Chain() == if ok then Final(su, old(Chain()), psk) else WithPsk(su, old(Chain()), psk)
    {
      EmptyOpens(su, Chain(), psk, empty);
      var k := MixPsk(su);
      ok := Open(su.core, k, 0, h, empty).Some?;
      if ok {
        h := su.hash(h + empty);
      }
    }

    /** The initiator sends with the first key and receives with the second, the responder the other way round. */
    method DeriveKeys(su: Suite, initiator: bool)
      modifies this`recvKey, this`sendKey, this`established
      ensures established && sendKey == Derived(su, ck, initiator) && recvKey == Derived(su, ck, !initiator)
    {
      var first, second := Kdf1(su, ck, []), Kdf2(su, ck, []);
      sendKey, recvKey := if initiator then first else second, if initiator then second else first;
      established := true;
    }

    /** awg_create_response */
    method CreateResponse(su: Suite, eph: Bytes32) returns (msg: Option<seq<U8>>)
      modifies this`ck, this`h, this`ePriv, this`ePub, this`recvKey, this`sendKey, this`established
      ensures ePriv == eph && ePub == su.base(eph)
      ensures msg.Some? <==> !Degenerate(su.dh(eph, peerEph)) && !Degenerate(su.dh(eph, peerPub))
      ensures var c := Answered(su, old(Chain()), ePub, su.dh(eph, peerEph), su.dh(eph, peerPub));
              msg.Some? ==> && Chain() == Final(su, c, psk) && established
                            && msg.value
                               == WithMacs(su, peerPub, RespBody(localIndex, remoteIndex, ePub, Confirm(su, c, psk)))
                            && sendKey == Derived(su, ck, false) && recvKey == Derived(su, ck, true)
    {
      ePriv, ePub := eph, su.base(eph);
      var empty := Respond(su, ePub, su.dh(eph, peerEph), su.dh(eph, peerPub));
      if empty.None? {
        return None;
      }
      return Some(WithMacs(su, peerPub, RespBody(localIndex, remoteIndex, ePub, empty.value)));
    }

    method Respond(su: Suite, e: Bytes32, ee: Bytes32, se: Bytes32) returns (empty: Option<seq<U8>>)
      modifies this`ck, this`h, this`recvKey, this`sendKey, this`established
      ensures empty.Some? <==> !Degenerate(ee) && !Degenerate(se)
      ensures var c := Answered(su, old(Chain()), e, ee, se);
              empty.Some? ==> && Chain() == Final(su, c, psk) && empty.value == Confirm(su, c, psk) && established
                              && sendKey == Derived(su, ck, false) && recvKey == Derived(su, ck, true)
    {
      var ok := Answer(su, e, ee, se);
      if !ok {
        return None;
      }
      var m := SendConfirm(su);
      DeriveKeys(su, false);
      return Some(m);
    }

    /** awg_consume_response. One that fails before line 293 changes nothing; one that fails later has already
        moved the chain on, to ResponseChain. */
    method ConsumeResponse(su: Suite, msg: seq<U8>) returns (ok: bool)
      requires |msg| == RESP_SIZE
      modifies this`ck, this`h, this`remoteIndex, this`peerEph, this`recvKey, this`sendKey, this`established
      ensures !Addressed(su, localIndex, sPub, msg) ==>
                && !ok && Chain() == old(Chain()) && remoteIndex == old(remoteIndex) && peerEph == old(peerEph)
      ensures Addressed(su, localIndex, sPub, msg) ==>
                peerEph == msg[12..44] && remoteIndex as int == LeValue(msg[4..8])
      ensures var e: Bytes32 := msg[12..44];
              Addressed(su, localIndex, sPub, msg) ==>
                && (ok <==> Confirmed(su, old(Chain()), e, su.dh(ePriv, e), su.dh(sPriv, e), psk, msg[44..60]))
                && Chain() == ResponseChain(su, old(Chain()), e, su.dh(ePriv, e), su.dh(sPriv, e), psk, msg[44..60])
      ensures ok ==> established && sendKey == Derived(su, ck, true) && recvKey == Derived(su, ck, false)
      ensures !ok ==> established == old(established) && sendKey == old(sendKey) && recvKey == old(recvKey)
    {
      ok := ReadHead(su, msg);
      if ok {
        ok := Complete(su, peerEph, su.dh(ePriv, peerEph), su.dh(sPriv, peerEph), msg[44..60]);
      }
    }

    method ReadHead(su: Suite, msg: seq<U8>) returns (ok: bool)
      requires |msg| == RESP_SIZE
      modifies this`remoteIndex, this`peerEph
      ensures ok <==> Addressed(su, localIndex, sPub, msg)
      ensures ok ==> peerEph == msg[12..44] && remoteIndex as int == LeValue(msg[4..8])
      ensures !ok ==> peerEph == old(peerEph) && remoteIndex == old(remoteIndex)
    {
      if LeValue(msg[..4]) != 2 || LeValue(msg[8..12]) != localIndex {
        return false;
      }
      if Mac1(su, sPub, msg[..60]) != msg[60..76] {
        return false;
      }
      WordFits(msg[4..8]);
      remoteIndex, peerEph := LeValue(msg[4..8]), msg[12..44];
      return true;
    }

    method Complete(su: Suite, e: Bytes32, ee: Bytes32, se: Bytes32, empty: seq<U8>) returns (ok: bool)
      requires |empty| == TAG
      modifies this`ck, this`h, this`recvKey, this`sendKey, this`established
      ensures ok <==> Confirmed(su, old(Chain()), e, ee, se, psk, empty)
      ensures Chain() == ResponseChain(su, old(Chain()), e, ee, se, psk, empty)
      ensures ok ==> established && sendKey == Derived(su, ck, true) && recvKey == Derived(su, ck, false)
      ensures !ok ==> established == old(established) && sendKey == old(sendKey) && recvKey == old(recvKey)
    {
      ok := Answer(su, e, ee, se);
      if ok {
        ok := CheckConfirm(su, empty);
        if ok {
          DeriveKeys(su, true);
        }
      }
    }
  }

  /** Both roles run against each other over an unchanged network. The handshake completes exactly when none of the
      four shared secrets is zero; then both reach the same chain, the responder knows the initiator's static key,
      the indices are exchanged, and each sends with the key that the other receives with. */
  method Exchange(su: Suite, i: Handshake, r: Handshake, ephI: Bytes32, ephR: Bytes32, stamp: seq<U8>)
    returns (ok: bool, m1: seq<U8>, m2: seq<U8>)
    requires Commutes(su) && i != r && |stamp| == 12
    requires i.sPub == su.base(i.sPriv) && r.sPub == su.base(r.sPriv) && i.peerPub == r.sPub && i.psk == r.psk
    modifies i, r
    ensures ok <==> !Degenerate(su.dh(ephI, su.base(old(r.sPriv))))
                    && !Degenerate(su.dh(old(i.sPriv), su.base(old(r.sPriv))))
                    && !Degenerate(su.dh(ephI, su.base(ephR))) && !Degenerate(su.dh(old(i.sPriv), su.base(ephR)))
    ensures ok ==> && i.Chain() == r.Chain() && r.peerPub == old(i.sPub) && i.established && r.established
                   && i.sendKey == r.recvKey && i.recvKey == r.sendKey
                   && i.remoteIndex == old(r.localIndex) && r.remoteIndex == old(i.localIndex)
    ensures ok ==> Completed(su, old(InputsOf(su, i, r, ephI, ephR, stamp)), m1, m2, i.ck, i.h)
    ensures ok ==> && i.sendKey == su.hmac(su.hmac(i.ck, []), [1])
                   && i.recvKey == su.hmac(su.hmac(i.ck, []), i.sendKey + [2])
  {
    ghost var x := InputsOf(su, i, r, ephI, ephR, stamp);
    ghost var c;
    ok, m1, m2, c := RunBoth(su, i, r, ephI, ephR, stamp, x);
    if ok {
      Completes(su, x, m1, c, m2, i.Chain());
      DerivedAre(su, i.ck);
    }
  }

  method RunBoth(su: Suite, i: Handshake, r: Handshake, ephI: Bytes32, ephR: Bytes32, stamp: seq<U8>, ghost x: Inputs)
    returns (ok: bool, m1: seq<U8>, m2: seq<U8>, ghost c: Chain)
    requires Commutes(su) && i != r && |stamp| == 12 && x == InputsOf(su, i, r, ephI, ephR, stamp)
    requires i.sPub == su.base(i.sPriv) && r.sPub == su.base(r.sPriv) && i.peerPub == r.sPub && i.psk == r.psk
    modifies i, r
    ensures ok <==> !Degenerate(x.es) && !Degenerate(x.ss) && !Degenerate(x.ee) && !Degenerate(x.se)
    ensures ok ==> && i.Chain() == r.Chain() && r.peerPub == old(i.sPub) && i.established && r.established
                   && i.sendKey == r.recvKey && i.recvKey == r.sendKey
                   && i.remoteIndex == old(r.localIndex) && r.remoteIndex == old(i.localIndex)
    ensures ok ==> Begun(su, x, m1, c) && Ended(su, x, c, m2, i.Chain())
    ensures ok ==> i.sendKey == Derived(su, i.ck, true) && i.recvKey == Derived(su, i.ck, false)
  {
    m2 := [];
    ok, m1 := ExchangeInitiation(su, i, r, ephI, stamp, x);
    c := i.Chain();
    if ok {
      ok, m2 := ExchangeResponse(su, i, r, ephR, x);
    }
  }

  /** What the two roles bring to a handshake. */
  ghost function InputsOf(su: Suite, i: Handshake, r: Handshake, ephI: Bytes32, ephR: Bytes32, stamp: seq<U8>): Inputs
    reads i, r
  {
    Inputs(r.sPub, i.sPub, su.base(ephI), su.base(ephR), su.dh(ephI, r.sPub), su.dh(i.sPriv, r.sPub),
           su.dh(ephI, su.base(ephR)), su.dh(i.sPriv, su.base(ephR)), i.psk, stamp, i.localIndex, r.localIndex)
  }

  method ExchangeInitiation(su: Suite, i: Handshake, r: Handshake, ephI: Bytes32, stamp: seq<U8>, ghost x: Inputs)
    returns (ok: bool, m1: seq<U8>)
    requires x.rPub == r.sPub && x.iPub == i.sPub && x.eI == su.base(ephI) && x.stamp == stamp
    requires x.es == su.dh(ephI, r.sPub) && x.ss == su.dh(i.sPriv, r.sPub) && x.indexI == i.localIndex
    requires Commutes(su) && i != r && |stamp| == 12
    requires i.sPub == su.base(i.sPriv) && r.sPub == su.base(r.sPriv) && i.peerPub == r.sPub
    modifies i`ck, i`h, i`ePriv, i`ePub
    modifies r`ck, r`h, r`remoteIndex, r`peerEph, r`peerPub
    ensures ok <==> !Degenerate(su.dh(ephI, r.sPub)) && !Degenerate(su.dh(i.sPriv, r.sPub))
    ensures ok ==> && r.Chain() == i.Chain() && r.peerPub == i.sPub && r.peerEph == i.ePub
                   && r.remoteIndex == i.localIndex
                   && i.ePriv == ephI && i.ePub == su.base(ephI)
    ensures ok ==> Begun(su, x, m1, i.Chain())
  {
    var es, ss := su.dh(ephI, i.peerPub), su.dh(i.sPriv, i.peerPub);
    var msg := i.CreateInitiation(su, ephI, stamp);
    if msg.None? {
      return false, [];
    }
    m1 := msg.value;
    LearnsInitiator(su, r.sPriv, i.localIndex, i.ePub, es, i.sPub, ss, stamp);
    ok := r.ConsumeInitiation(su, m1);
  }

  method ExchangeResponse(su: Suite, i: Handshake, r: Handshake, ephR: Bytes32, ghost x: Inputs)
    returns (ok: bool, m2: seq<U8>)
    requires x.iPub == i.sPub && x.psk == i.psk && x.indexI == i.localIndex && x.indexR == r.localIndex
    requires x.eR == su.base(ephR) && x.ee == su.dh(ephR, r.peerEph) && x.se == su.dh(ephR, r.peerPub)
    requires i != r && i.Chain() == r.Chain() && i.psk == r.psk && r.peerPub == i.sPub && r.remoteIndex == i.localIndex
    requires su.dh(ephR, r.peerEph) == su.dh(i.ePriv, su.base(ephR))
    requires su.dh(ephR, r.peerPub) == su.dh(i.sPriv, su.base(ephR))
    modifies i`ck, i`h, i`remoteIndex, i`peerEph, i`recvKey, i`sendKey, i`established
    modifies r`ck, r`h, r`ePriv, r`ePub, r`recvKey, r`sendKey, r`established
    ensures ok <==> !Degenerate(su.dh(ephR, r.peerEph)) && !Degenerate(su.dh(ephR, r.peerPub))
    ensures ok ==> && i.Chain() == r.Chain() && i.established && r.established
                   && i.sendKey == r.recvKey && i.recvKey == r.sendKey && i.remoteIndex == r.localIndex
    ensures ok ==> i.sendKey == Derived(su, i.ck, true) && i.recvKey == Derived(su, i.ck, false)
    ensures ok ==> Ended(su, x, old(i.Chain()), m2, i.Chain())
  {
    ghost var start := i.Chain();
    var ee, se := su.dh(ephR, r.peerEph), su.dh(ephR, r.peerPub);
    var msg := r.CreateResponse(su, ephR);
    if msg.None? {
      return false, [];
    }
    m2 := msg.value;
    ghost var end := Final(su, Answered(su, start, r.ePub, ee, se), r.psk);
    assert r.Chain() == end;
    ok := ConsumeGenuine(su, i, m2, r.localIndex, r.ePub, ee, se);
    assert i.Chain() == end;
  }

  /** The initiator accepts a response that was made from its own chain. */
  method ConsumeGenuine(su: Suite, i: Handshake, msg: seq<U8>, ghost index: U32, ghost e: Bytes32, ghost ee: Bytes32,
                        ghost se: Bytes32)
    returns (ok: bool)
    requires ee == su.dh(i.ePriv, e) && se == su.dh(i.sPriv, e) && !Degenerate(ee) && !Degenerate(se)
    requires var empty := Confirm(su, Answered(su, i.Chain(), e, ee, se), i.psk);
             msg == WithMacs(su, i.sPub, RespBody(index, i.localIndex, e, empty))
    modifies i`ck, i`h, i`remoteIndex, i`peerEph, i`recvKey, i`sendKey, i`established
    ensures ok && i.Chain() == Final(su, Answered(su, old(i.Chain()), e, ee, se), i.psk) && i.established
    ensures i.sendKey == Derived(su, i.ck, true) && i.recvKey == Derived(su, i.ck, false) && i.remoteIndex == index
  {
    ghost var empty := Confirm(su, Answered(su, i.Chain(), e, ee, se), i.psk);
    ResponseReads(su, i.sPub, index, i.localIndex, e, empty);
    assert Confirmed(su, i.Chain(), e, ee, se, i.psk, empty);
    ok := i.ConsumeResponse(su, msg);
  }
}
