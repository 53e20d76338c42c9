/** The handshake's key schedule and transcript as folds, written with nothing but the hash, the HMAC and the AEAD. */
module NoiseTranscript {
  import opened Bits
  import opened ByteStrings
  import opened LittleEndian
  import opened AeadSpec
  import opened NoiseSpec

  /** The chaining key after mixing in xs: ck := hmac(hmac(ck, x), 1) for each. */
  function Keys(su: Suite, ck: Bytes32, xs: seq<seq<U8>>): Bytes32 {
    if |xs| == 0 then ck
    else su.hmac(su.hmac(Keys(su, ck, xs[..|xs| - 1]), xs[|xs| - 1]), [1])
  }

  /** The running hash after taking in xs: h := hash(h x) for each. */
  function Hashes(su: Suite, h: Bytes32, xs: seq<seq<U8>>): Bytes32 {
    if |xs| == 0 then h
    else su.hash(Hashes(su, h, xs[..|xs| - 1]) + xs[|xs| - 1])
  }

  /** The second and the third output of HKDF. */
  function Second(su: Suite, ck: Bytes32, x: seq<U8>): Bytes32 {
    var t := su.hmac(ck, x);
    su.hmac(t, su.hmac(t, [1]) + [2])
  }

  function Third(su: Suite, ck: Bytes32, x: seq<U8>): Bytes32 {
    su.hmac(su.hmac(ck, x), Second(su, ck, x) + [3])
  }

  lemma KeysMore(su: Suite, ck: Bytes32, xs: seq<seq<U8>>, x: seq<U8>)
    ensures Keys(su, ck, xs + [x]) == Kdf1(su, Keys(su, ck, xs), x)
  {
    assert (xs + [x])[..|xs|] == xs;
  }

  lemma HashesMore(su: Suite, h: Bytes32, xs: seq<seq<U8>>, x: seq<U8>)
    ensures Hashes(su, h, xs + [x]) == su.hash(Hashes(su, h, xs) + x)
  {
    assert (xs + [x])[..|xs|] == xs;
  }

  /** The chain after the keys xs and the hashed strings ys. */
  function Folded(su: Suite, c: Chain, xs: seq<seq<U8>>, ys: seq<seq<U8>>): Chain {
    Chain(Keys(su, c.ck, xs), Hashes(su, c.h, ys))
  }

  lemma MixesKey(su: Suite, c: Chain, xs: seq<seq<U8>>, ys: seq<seq<U8>>, x: seq<U8>)
    ensures MixKey(su, Folded(su, c, xs, ys), x) == Folded(su, c, xs + [x], ys)
  {
    KeysMore(su, c.ck, xs, x);
  }

  lemma MixesHash(su: Suite, c: Chain, xs: seq<seq<U8>>, ys: seq<seq<U8>>, y: seq<U8>)
    ensures MixHash(su, Folded(su, c, xs, ys), y) == Folded(su, c, xs, ys + [y])
  {
    HashesMore(su, c.h, ys, y);
  }

  lemma MixesBoth(su: Suite, c: Chain, xs: seq<seq<U8>>, ys: seq<seq<U8>>, x: seq<U8>, y: seq<U8>)
    ensures MixHash(su, MixKey(su, Folded(su, c, xs, ys), x), y) == Folded(su, c, xs + [x], ys + [y])
  {
    MixesKey(su, c, xs, ys, x);
    MixesHash(su, c, xs + [x], ys, y);
  }

  const NOISE: string := "Noise_IKpsk2_25519_ChaChaPoly_BLAKE2s"
  const PROLOGUE: string := "WireGuard v1 zx2c4 Jason@zx2c4.com"

  /** Before anything is mixed in. */
  function Origin(su: Suite): Chain {
    var ck := su.hash(Ascii(NOISE));
    Chain(ck, su.hash(ck + Ascii(PROLOGUE)))
  }

  /** The initiation: the ephemeral key and the two secrets go into the key; the responder's static key, the ephemeral
      key and the two sealed fields go into the hash. Each field is sealed with the second output for its secret, and
      authenticates the hash so far. */
  lemma InitiationFolds(su: Suite, rPub: Bytes32, e: Bytes32, es: Bytes32, iPub: Bytes32, ss: Bytes32, stamp: seq<U8>)
    ensures var i := Initiate(su, rPub, e, es, iPub, ss, stamp);
            && i.chain == Folded(su, Origin(su), [e, es, ss], [rPub, e, i.sealedStatic, i.sealedStamp])
            && i.sealedStatic == Seal(su.core, Second(su, Keys(su, Origin(su).ck, [e]), es), 0,
                                      Hashes(su, Origin(su).h, [rPub, e]), iPub)
            && i.sealedStamp == Seal(su.core, Second(su, Keys(su, Origin(su).ck, [e, es]), ss), 0,
                                     Hashes(su, Origin(su).h, [rPub, e, i.sealedStatic]), stamp)
  {
    var o, i := Origin(su), Initiate(su, rPub, e, es, iPub, ss, stamp);
    var p, q := i.sealedStatic, i.sealedStamp;
    InitiationChains(su, rPub, e, es, p);
    MixesBoth(su, o, [e, es], [rPub, e, p], ss, q);
    assert [e, es] + [ss] == [e, es, ss] && [rPub, e, p] + [q] == [rPub, e, p, q];
  }

  /** The response: the ephemeral key, both secrets and the preshared key go into the key; the ephemeral key, the
      second output for the preshared key and the empty message go into the hash. The empty message is sealed with the
      third output. */
  lemma ResponseFolds(su: Suite, c: Chain, e: Bytes32, ee: Bytes32, se: Bytes32, psk: Bytes32)
    ensures var d, empty := Answered(su, c, e, ee, se), Confirm(su, Answered(su, c, e, ee, se), psk);
            var ck := Keys(su, c.ck, [e, ee, se]);
            var tau := Second(su, ck, psk);
            && d == Folded(su, c, [e, ee, se], [e])
            && Final(su, d, psk) == Folded(su, c, [e, ee, se, psk], [e, tau, empty])
            && empty == Seal(su.core, Third(su, ck, psk), 0, Hashes(su, c.h, [e, tau]), [])
  {
    var d, empty := Answered(su, c, e, ee, se), Confirm(su, Answered(su, c, e, ee, se), psk);
    assert Folded(su, c, [], []) == c;
    MixesBoth(su, c, [], [], e, e);
    MixesKey(su, c, [e], [e], ee);
    MixesKey(su, c, [e, ee], [e], se);
    assert [] + [e] == [e] && [e] + [ee] == [e, ee] && [e, ee] + [se] == [e, ee, se];
    var tau := Second(su, d.ck, psk);
    MixesBoth(su, c, [e, ee, se], [e], psk, tau);
    assert [e, ee, se] + [psk] == [e, ee, se, psk] && [e] + [tau] == [e, tau];
    MixesHash(su, c, [e, ee, se, psk], [e, tau], empty);
    assert [e, tau] + [empty] == [e, tau, empty];
  }

  /** How far a response that fails on a zero secret has got. */
  lemma FailedFolds(su: Suite, c: Chain, e: Bytes32, ee: Bytes32, se: Bytes32)
    ensures AnsweredSoFar(su, c, e, ee, se)
            == Folded(su, c, if Degenerate(ee) then [e] else if Degenerate(se) then [e, ee] else [e, ee, se], [e])
  {
    assert Folded(su, c, [], []) == c;
    MixesBoth(su, c, [], [], e, e);
    MixesKey(su, c, [e], [e], ee);
    MixesKey(su, c, [e, ee], [e], se);
    assert [] + [e] == [e] && [e] + [ee] == [e, ee] && [e, ee] + [se] == [e, ee, se];
  }

  lemma {:induction false} KeysJoin(su: Suite, ck: Bytes32, xs: seq<seq<U8>>, ys: seq<seq<U8>>)
    ensures Keys(su, Keys(su, ck, xs), ys) == Keys(su, ck, xs + ys)
    decreases |ys|
  {
    if |ys| == 0 {
      assert xs + ys == xs;
    } else {
      var n := |ys| - 1;
      KeysJoin(su, ck, xs, ys[..n]);
      assert (xs + ys)[..|xs| + n] == xs + ys[..n];
    }
  }

  lemma {:induction false} HashesJoin(su: Suite, h: Bytes32, xs: seq<seq<U8>>, ys: seq<seq<U8>>)
    ensures Hashes(su, Hashes(su, h, xs), ys) == Hashes(su, h, xs + ys)
    decreases |ys|
  {
    if |ys| == 0 {
      assert xs + ys == xs;
    } else {
      var n := |ys| - 1;
      HashesJoin(su, h, xs, ys[..n]);
      assert (xs + ys)[..|xs| + n] == xs + ys[..n];
    }
  }

  /** mac1 at n, keyed with the receiver's static key, over everything in front of it; mac2 is zero. */
  ghost predicate Stamped(su: Suite, m: seq<U8>, n: nat, receiver: Bytes32) {
    && |m| == n + 32 && m[n..n + 16] == su.mac(su.hash(Ascii("mac1----") + receiver), m[..n])
    && forall j :: n + 16 <= j < n + 32 ==> m[j] == 0
  }

  /** m is an initiation on the wire. */
  ghost predicate IsInitiation(su: Suite, m: seq<U8>, index: U32, rPub: Bytes32, e: Bytes32, es: Bytes32,
                               iPub: Bytes32, ss: Bytes32, stamp: seq<U8>) {
    && Stamped(su, m, 116, rPub) && LeValue(m[..4]) == 1 && LeValue(m[4..8]) == index && m[8..40] == e
    && m[40..88] == Seal(su.core, Second(su, Keys(su, Origin(su).ck, [e]), es), 0,
                         Hashes(su, Origin(su).h, [rPub, e]), iPub)
    && m[88..116] == Seal(su.core, Second(su, Keys(su, Origin(su).ck, [e, es]), ss), 0,
                          Hashes(su, Origin(su).h, [rPub, e, m[40..88]]), stamp)
  }

  lemma MacsAre(su: Suite, receiver: Bytes32, body: seq<U8>)
    ensures Stamped(su, WithMacs(su, receiver, body), |body|, receiver)
  {
    WithMacsParts(su, receiver, body);
  }

  lemma InitiationWire(su: Suite, index: U32, rPub: Bytes32, e: Bytes32, es: Bytes32, iPub: Bytes32, ss: Bytes32,
                       stamp: seq<U8>)
    requires |stamp| == 12
    ensures var i := Initiate(su, rPub, e, es, iPub, ss, stamp);
            var m := WithMacs(su, rPub, InitBody(index, e, i.sealedStatic, i.sealedStamp));
            && IsInitiation(su, m, index, rPub, e, es, iPub, ss, stamp)
            && i.chain == Folded(su, Origin(su), [e, es, ss], [rPub, e, m[40..88], m[88..116]])
  {
    var i := Initiate(su, rPub, e, es, iPub, ss, stamp);
    var b := InitBody(index, e, i.sealedStatic, i.sealedStamp);
    var m := WithMacs(su, rPub, b);
    InitBodyParts(index, e, i.sealedStatic, i.sealedStamp);
    MacsAre(su, rPub, b);
    WithMacsParts(su, rPub, b);
    assert m[..4] == b[..4] && m[4..8] == b[4..8] && m[8..40] == b[8..40] && m[40..88] == b[40..88]
           && m[88..116] == b[88..116];
    WordReads(1);
    WordReads(index);
    InitiationFolds(su, rPub, e, es, iPub, ss, stamp);
  }

  /** m is a response on the wire, to a peer whose chain is c. */
  ghost predicate IsResponse(su: Suite, m: seq<U8>, index: U32, peerIndex: U32, receiver: Bytes32, c: Chain,
                             e: Bytes32, ee: Bytes32, se: Bytes32, psk: Bytes32) {
    var ck := Keys(su, c.ck, [e, ee, se]);
    && Stamped(su, m, 60, receiver) && LeValue(m[..4]) == 2 && LeValue(m[4..8]) == index
    && LeValue(m[8..12]) == peerIndex && m[12..44] == e
    && m[44..60] == Seal(su.core, Third(su, ck, psk), 0, Hashes(su, c.h, [e, Second(su, ck, psk)]), [])
  }

  lemma ResponseWire(su: Suite, index: U32, peerIndex: U32, receiver: Bytes32, c: Chain, e: Bytes32, ee: Bytes32,
                     se: Bytes32, psk: Bytes32)
    ensures var d := Answered(su, c, e, ee, se);
            var m := WithMacs(su, receiver, RespBody(index, peerIndex, e, Confirm(su, d, psk)));
            && IsResponse(su, m, index, peerIndex, receiver, c, e, ee, se, psk)
            && Final(su, d, psk) == Folded(su, c, [e, ee, se, psk],
                                           [e, Second(su, Keys(su, c.ck, [e, ee, se]), psk), m[44..60]])
  {
    var d := Answered(su, c, e, ee, se);
    var empty := Confirm(su, d, psk);
    MacsAre(su, receiver, RespBody(index, peerIndex, e, empty));
    RespBodyParts(index, peerIndex, e, empty);
    ResponseReads(su, receiver, index, peerIndex, e, empty);
    ResponseFolds(su, c, e, ee, se, psk);
  }

  /** An initiation that is accepted has the right type and mac1, and its two fields are the static key that is learned
      and some time stamp, sealed as above for secrets that are not zero. */
  lemma AcceptedInitiation(su: Suite, sPriv: Bytes32, sPub: Bytes32, m: seq<U8>) returns (stamp: seq<U8>)
    requires |m| == INIT_SIZE && LearnedFrom(su, sPriv, sPub, m).Some?
    ensures var e: Bytes32, iPub := m[8..40], LearnedFrom(su, sPriv, sPub, m).value.identity;
            var es, ss := su.dh(sPriv, e), su.dh(sPriv, iPub);
            && LeValue(m[..4]) == 1 && m[116..132] == su.mac(su.hash(Ascii("mac1----") + sPub), m[..116])
            && LeValue(es) != 0 && LeValue(ss) != 0
            && m[40..88] == Seal(su.core, Second(su, Keys(su, Origin(su).ck, [e]), es), 0,
                                 Hashes(su, Origin(su).h, [sPub, e]), iPub)
            && m[88..116] == Seal(su.core, Second(su, Keys(su, Origin(su).ck, [e, es]), ss), 0,
                                  Hashes(su, Origin(su).h, [sPub, e, m[40..88]]), stamp)
  {
    var e: Bytes32, o, p := m[8..40], Origin(su), m[40..88];
    var iPub := LearnedFrom(su, sPriv, sPub, m).value.identity;
    var es, ss := su.dh(sPriv, e), su.dh(sPriv, iPub);
    var c := WithKey(su, Start(su, sPub), e);
    var d := WithSealed(su, c, es, p);
    InitiationChains(su, sPub, e, es, p);
    OpenIffSealed(su.core, Kdf2(su, c.ck, es), 0, c.h, iPub, p);
    stamp := OpenWith(su, d, ss, m[88..116]).value;
    OpenIffSealed(su.core, Kdf2(su, d.ck, ss), 0, d.h, stamp, m[88..116]);
  }

  lemma InitiationChains(su: Suite, rPub: Bytes32, e: Bytes32, es: Bytes32, p: seq<U8>)
    ensures var c := WithKey(su, Start(su, rPub), e);
            && c == Folded(su, Origin(su), [e], [rPub, e])
            && WithSealed(su, c, es, p) == Folded(su, Origin(su), [e, es], [rPub, e, p])
  {
    var o := Origin(su);
    assert Folded(su, o, [], []) == o;
    MixesHash(su, o, [], [], rPub);
    MixesBoth(su, o, [], [rPub], e, e);
    MixesBoth(su, o, [e], [rPub, e], es, p);
    assert [] + [rPub] == [rPub] && [] + [e] == [e] && [rPub] + [e] == [rPub, e];
    assert [e] + [es] == [e, es] && [rPub, e] + [p] == [rPub, e, p];
  }

  /** A response that is accepted has the right type, index and mac1, and confirms the keys. */
  lemma AcceptedResponse(su: Suite, index: U32, sPub: Bytes32, m: seq<U8>, c: Chain, ee: Bytes32, se: Bytes32,
                         psk: Bytes32)
    requires |m| == RESP_SIZE && Addressed(su, index, sPub, m) && Confirmed(su, c, m[12..44], ee, se, psk, m[44..60])
    ensures var e: Bytes32 := m[12..44];
            var ck := Keys(su, c.ck, [e, ee, se]);
            && LeValue(m[..4]) == 2 && LeValue(m[8..12]) == index
            && m[60..76] == su.mac(su.hash(Ascii("mac1----") + sPub), m[..60]) && LeValue(ee) != 0 && LeValue(se) != 0
            && m[44..60] == Seal(su.core, Third(su, ck, psk), 0, Hashes(su, c.h, [e, Second(su, ck, psk)]), [])
  {
    ResponseFolds(su, c, m[12..44], ee, se, psk);
  }

  /** What goes into a handshake besides the responder's static key, which is rPub: the initiator's static key, both
      ephemeral keys, the four shared secrets, the preshared key, the time stamp and both indices. */
  datatype Inputs = Inputs(rPub: Bytes32, iPub: Bytes32, eI: Bytes32, eR: Bytes32, es: Bytes32, ss: Bytes32,
                           ee: Bytes32, se: Bytes32, psk: Bytes32, stamp: seq<U8>, indexI: U32, indexR: U32)

  /** What a completed handshake has sent and what it ends with: ck is the fold over the initiator's ephemeral key, es,
      ss, the responder's ephemeral key, ee, se and the preshared key; h the fold over everything public. */
  ghost predicate Completed(su: Suite, x: Inputs, m1: seq<U8>, m2: seq<U8>, ck: Bytes32, h: Bytes32) {
    && IsInitiation(su, m1, x.indexI, x.rPub, x.eI, x.es, x.iPub, x.ss, x.stamp)
    && IsResponse(su, m2, x.indexR, x.indexI, x.iPub, Halfway(su, x, m1), x.eR, x.ee, x.se, x.psk)
    && ck == Keys(su, Origin(su).ck, [x.eI, x.es, x.ss, x.eR, x.ee, x.se, x.psk])
    && var tau := Second(su, Keys(su, Origin(su).ck, [x.eI, x.es, x.ss, x.eR, x.ee, x.se]), x.psk);
       h == Hashes(su, Origin(su).h, [x.rPub, x.eI, m1[40..88], m1[88..116], x.eR, tau, m2[44..60]])
  }

  /** The chain between initiation and response. */
  ghost function Halfway(su: Suite, x: Inputs, m1: seq<U8>): Chain
    requires |m1| >= 116
  {
    Folded(su, Origin(su), [x.eI, x.es, x.ss], [x.rPub, x.eI, m1[40..88], m1[88..116]])
  }

  /** m1 is the initiation for the inputs x, and c the chain after it. */
  ghost predicate Begun(su: Suite, x: Inputs, m1: seq<U8>, c: Chain) {
    var i := Initiate(su, x.rPub, x.eI, x.es, x.iPub, x.ss, x.stamp);
    c == i.chain && m1 == WithMacs(su, x.rPub, InitBody(x.indexI, x.eI, i.sealedStatic, i.sealedStamp))
  }

  /** m2 is the response for the inputs x to a peer whose chain is c, and end the chain after it. */
  ghost predicate Ended(su: Suite, x: Inputs, c: Chain, m2: seq<U8>, end: Chain) {
    var d := Answered(su, c, x.eR, x.ee, x.se);
    && end == Final(su, d, x.psk)
    && m2 == WithMacs(su, x.iPub, RespBody(x.indexR, x.indexI, x.eR, Confirm(su, d, x.psk)))
  }

  lemma Completes(su: Suite, x: Inputs, m1: seq<U8>, c: Chain, m2: seq<U8>, end: Chain)
    requires |x.stamp| == 12 && Begun(su, x, m1, c) && Ended(su, x, c, m2, end)
    ensures Completed(su, x, m1, m2, end.ck, end.h)
  {
    var i := Initiate(su, x.rPub, x.eI, x.es, x.iPub, x.ss, x.stamp);
    InitiationWire(su, x.indexI, x.rPub, x.eI, x.es, x.iPub, x.ss, x.stamp);
    ResponseWire(su, x.indexR, x.indexI, x.iPub, i.chain, x.eR, x.ee, x.se, x.psk);
    var o := Origin(su);
    SevenKeys(su, o.ck, x.eI, x.es, x.ss, x.eR, x.ee, x.se, x.psk);
    var tau := Second(su, Keys(su, i.chain.ck, [x.eR, x.ee, x.se]), x.psk);
    SevenHashes(su, o.h, x.rPub, x.eI, m1[40..88], m1[88..116], x.eR, tau, m2[44..60]);
  }

  lemma SevenKeys(su: Suite, ck: Bytes32, a: seq<U8>, b: seq<U8>, c: seq<U8>, d: seq<U8>, e: seq<U8>, f: seq<U8>,
                  g: seq<U8>)
    ensures Keys(su, Keys(su, ck, [a, b, c]), [d, e, f]) == Keys(su, ck, [a, b, c, d, e, f])
    ensures Keys(su, Keys(su, ck, [a, b, c]), [d, e, f, g]) == Keys(su, ck, [a, b, c, d, e, f, g])
  {
    KeysJoin(su, ck, [a, b, c], [d, e, f]);
    assert [a, b, c] + [d, e, f] == [a, b, c, d, e, f];
    KeysJoin(su, ck, [a, b, c], [d, e, f, g]);
    assert [a, b, c] + [d, e, f, g] == [a, b, c, d, e, f, g];
  }

  lemma SevenHashes(su: Suite, h: Bytes32, a: seq<U8>, b: seq<U8>, c: seq<U8>, d: seq<U8>, e: seq<U8>, f: seq<U8>,
                    g: seq<U8>)
    ensures Hashes(su, Hashes(su, h, [a, b, c, d]), [e, f, g]) == Hashes(su, h, [a, b, c, d, e, f, g])
  {
    HashesJoin(su, h, [a, b, c, d], [e, f, g]);
    assert [a, b, c, d] + [e, f, g] == [a, b, c, d, e, f, g];
  }

  /** Both transport keys, from the last chaining key. */
  lemma DerivedAre(su: Suite, ck: Bytes32)
    ensures Derived(su, ck, true) == su.hmac(su.hmac(ck, []), [1])
    ensures Derived(su, ck, false) == su.hmac(su.hmac(ck, []), Derived(su, ck, true) + [2])
  {
  }
}
