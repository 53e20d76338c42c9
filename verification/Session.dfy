/** The anti-replay window of one key pair. */
module Replay {
  import opened Bits

  const W64: int := 0x1_0000_0000_0000_0000
  const WINDOW: int := 64

  function Shl64(x: U64, k: nat): U64 {
    (x * Pow2(k)) % W64
  }

  /** max and bits stand for the set of counters accepted so far: max is the highest of them, and bit b tells
      whether max - b is one. */
  ghost predicate Represents(max: U64, bits: U64, seen: set<nat>) {
    && (if seen == {} then max == 0 else max in seen)
    && (forall c :: c in seen ==> c <= max)
    && (forall b: nat :: b < WINDOW ==> (Bit(bits, b) <==> b <= max && max - b in seen))
  }

  /** What the window is for: a counter is fresh when it was never accepted and is less than 64 behind the highest. */
  ghost predicate Fresh(seen: set<nat>, ctr: nat) {
    ctr !in seen && forall c :: c in seen ==> c < ctr + WINDOW
  }

  lemma ShiftBit(x: U64, k: nat, b: nat)
    requires b < WINDOW
    ensures Bit(Shl64(x, k), b) <==> b >= k && Bit(x, b - k)
  {
    ScaledBit(x, k, b);
    LowWordBit(x * Pow2(k), b, 64);
  }

  lemma ScaledBit(x: nat, k: nat, b: nat)
    ensures Bit(x * Pow2(k), b) <==> b >= k && Bit(x, b - k)
  {
    BitSplit(0, x, k, b);
    if b < k { ZeroBit(b); }
  }

  lemma LowWordBit(y: nat, b: nat, n: nat)
    requires b < WINDOW == n
    ensures Bit(y % W64, b) <==> Bit(y, b)
  {
    Pow2At(n);
    BitSplit(y % W64, y / W64, n, b);
  }

  lemma PowerBit(k: nat, b: nat)
    ensures Bit(Pow2(k), b) <==> b == k
  {
    BitSplit(0, 1, k, b);
    if b < k { ZeroBit(b); }
    else if b > k { ZeroBit(b - k - 1); }
  }

  lemma {:induction false} TestBit(x: nat, k: nat)
    ensures And(x, Pow2(k)) != 0 <==> Bit(x, k)
    decreases k
  {
    AndStep(x, Pow2(k));
    if k == 0 {
      AndBound(x / 2, 0);
    } else {
      TestBit(x / 2, k - 1);
    }
  }

  lemma {:induction false} PowerBound(k: nat)
    requires k < WINDOW
    ensures Pow2(k) < W64
  {
    var n := 64;
    Pow2At(n);
    PowerGrows(k, n);
  }

  lemma {:induction false} PowerGrows(k: nat, n: nat)
    requires k < n
    ensures Pow2(k) < Pow2(n)
    decreases n - k
  {
    if k + 1 < n { PowerGrows(k + 1, n); }
    assert Pow2(k + 1) == 2 * Pow2(k);
  }

  lemma OrWord(x: U64, y: U64)
    ensures Or(x, y) < W64
  {
    var n := 64;
    Pow2At(n);
    OrBound(x, y, n);
  }

  /** replay_ok */
  method ReplayOk(max: U64, bits: U64, ctr: U64, ghost seen: set<nat>) returns (ok: bool, max': U64, bits': U64)
    requires Represents(max, bits, seen)
    ensures ok <==> ctr as nat !in seen && forall c :: c in seen ==> c - ctr as int < 64
    ensures ok <==> Fresh(seen, ctr)
    ensures Represents(max', bits', if ok then seen + {ctr as nat} else seen)
    ensures !ok ==> max' == max && bits' == bits
  {
    max', bits' := max, bits;
    if ctr > max {
      var shift := ctr - max;
      bits' := if shift >= WINDOW then 0 else Shl64(bits, shift);
      forall b: nat | b < WINDOW ensures Bit(bits', b) <==> b >= shift && Bit(bits, b - shift) {
        if shift < WINDOW { ShiftBit(bits, shift, b); } else { ZeroBit(b); }
      }
      AddBit(bits', 0);
      bits' := Or(bits', 1);
      max' := ctr;
      return true, max', bits';
    }
    var behind := max - ctr;
    if behind >= WINDOW {
      return false, max', bits';
    }
    PowerBound(behind);
    TestBit(bits, behind);
    if And(bits, Pow2(behind)) != 0 {
      return false, max', bits';
    }
    AddBit(bits, behind);
    bits' := Or(bits, Pow2(behind));
    return true, max', bits';
  }

  lemma AddBit(bits: U64, k: nat)
    requires k < WINDOW
    ensures Or(bits, Pow2(k)) < W64
    ensures forall b: nat :: b < WINDOW ==> (Bit(Or(bits, Pow2(k)), b) <==> Bit(bits, b) || b == k)
  {
    PowerBound(k);
    OrWord(bits, Pow2(k));
    forall b: nat | b < WINDOW ensures Bit(Or(bits, Pow2(k)), b) <==> Bit(bits, b) || b == k {
      OrBit(bits, Pow2(k), b);
      PowerBit(k, b);
    }
  }
}

/** The life of a session as steps on a value. Handshakes are known by their number, in the order in which
awg_handshake_begin draws their secrets; a number stands for the key material. */
module SessionSpec {
  import opened Bits
  import opened Replay

  const PREV_KEEP_MS: int := 180000
  const MSG_RESP_SIZE: int := 92

  /** What awg_transport_open makes of a datagram under one key pair. */
  datatype Opened = Rejected | Plain(ctr: U64, len: nat)

  datatype Rx = Ignored | Handled | Payload(len: nat) | Established

  /** A use of a key pair with a counter. */
  datatype Use = Use(key: nat, ctr: nat)

  datatype Window = Window(max: U64, bits: U64)

  /** What has happened since the program started, across wipes and new sessions: the handshakes promoted, the
      datagrams accepted and sealed, when a key pair was retired. sends counts what the current key pair sealed;
      wrapped tells that some key pair has sealed more than 2^64. */
  datatype Log = Log(promoted: seq<nat>, accepted: seq<Use>, sent: seq<Use>, sends: nat, wrapped: bool,
                     retiredAt: map<nat, U64>)

  datatype State = State(
    cur: nat, prev: nat, pending: nat, begun: nat,
    established: bool, havePrev: bool, handshaking: bool,
    tx: U64, rx: Window, prevRx: Window, prevSince: U64,
    log: Log)

  ghost predicate Distinct<T>(s: seq<T>) {
    forall i, j :: 0 <= i < j < |s| ==> s[i] != s[j]
  }

  lemma DistinctAdds<T>(s: seq<T>, x: T)
    ensures Distinct(s + [x]) <==> Distinct(s) && x !in s
  {
    var t := s + [x];
    if Distinct(t) {
      forall i, j | 0 <= i < j < |s| ensures s[i] != s[j] { assert t[i] != t[j]; }
      forall i | 0 <= i < |s| ensures s[i] != x { assert t[i] != t[|s|]; }
    }
  }

  /** The counters accepted under key pair g. */
  ghost function SeenBy(uses: seq<Use>, g: nat): set<nat> {
    set i | 0 <= i < |uses| && uses[i].key == g :: uses[i].ctr
  }

  lemma SeenByAdds(uses: seq<Use>, u: Use, g: nat)
    ensures SeenBy(uses + [u], g) == if u.key == g then SeenBy(uses, g) + {u.ctr} else SeenBy(uses, g)
  {
    var t := uses + [u];
    forall x | x in SeenBy(uses, g) ensures x in SeenBy(t, g) {
      var i :| 0 <= i < |uses| && uses[i].key == g && uses[i].ctr == x;
      assert t[i] == uses[i];
    }
    assert t[|uses|] == u;
  }

  ghost predicate Fits(w: Window, uses: seq<Use>, g: nat) {
    Represents(w.max, w.bits, SeenBy(uses, g))
  }

  ghost predicate KeysKnown(s: State) {
    && (forall i :: 0 <= i < |s.log.promoted| ==> s.log.promoted[i] <= s.begun)
    && (forall i :: 0 <= i < |s.log.accepted| ==> s.log.accepted[i].key in s.log.promoted)
    && (forall i :: 0 <= i < |s.log.sent| ==> s.log.sent[i].key in s.log.promoted)
    && (forall g :: g in s.log.retiredAt ==> g in s.log.promoted)
    && (s.handshaking ==> s.pending !in s.log.promoted && s.pending <= s.begun)
    && (s.established ==> s.cur in s.log.promoted && s.cur !in s.log.retiredAt)
    && (s.havePrev ==> s.established && s.prev in s.log.retiredAt && s.log.retiredAt[s.prev] == s.prevSince)
  }

  ghost predicate WindowsFit(s: State) {
    && (s.established ==> Fits(s.rx, s.log.accepted, s.cur))
    && (s.havePrev ==> Fits(s.prevRx, s.log.accepted, s.prev))
  }

  ghost predicate CountersFit(s: State) {
    && s.tx as int == s.log.sends % W64
    && (s.established ==> forall c :: 0 <= c < s.log.sends && c < W64 ==> Use(s.cur, c) in s.log.sent)
    && (s.established && !s.log.wrapped ==>
          s.log.sends <= W64 && forall c: nat :: Use(s.cur, c) in s.log.sent ==> c < s.log.sends)
  }

  ghost predicate Good(s: State) {
    && KeysKnown(s) && WindowsFit(s) && CountersFit(s)
    && Distinct(s.log.promoted) && Distinct(s.log.accepted) && (Distinct(s.log.sent) <==> !s.log.wrapped)
  }

  /** The key pairs that can open a datagram. */
  ghost function Openable(s: State): set<nat> {
    (if s.established then {s.cur} else {}) + (if s.havePrev then {s.prev} else {})
  }

  function Zeroed(begun: nat, log: Log): State {
    State(0, 0, 0, begun, false, false, false, 0, Window(0, 0), Window(0, 0), 0, log)
  }

  const START: State := Zeroed(0, Log([], [], [], 0, false, map[]))

  /** awg_session_wipe, and awg_session_init on a session that may have been used. */
  function Wiped(s: State): State {
    Zeroed(s.begun, s.log.(sends := 0))
  }

  /** awg_session_build_initiation. The pending handshake is replaced even when building the message fails. */
  function Initiated(s: State, ok: bool): State {
    s.(begun := s.begun + 1, pending := s.begun + 1, handshaking := s.handshaking || ok)
  }

  /** awg_session_build_data and awg_session_build_keepalive, once the datagram is sealed. */
  function Sealed(s: State): State {
    s.(tx := (s.tx as int + 1) % W64,
       log := s.log.(sent := s.log.sent + [Use(s.cur, s.tx)], sends := s.log.sends + 1,
                     wrapped := s.log.wrapped || s.log.sends >= W64))
  }

  /** Lines 176-197: the answered handshake takes over, and the key pair in use moves to the previous slot. */
  function Promoted(s: State, now: U64): State {
    var t := if !s.established then s
             else s.(prev := s.cur, havePrev := true, prevRx := s.rx, prevSince := now,
                     log := s.log.(retiredAt := s.log.retiredAt[s.cur := now]));
    t.(cur := s.pending, established := true, handshaking := false, tx := 0, rx := Window(0, 0),
       log := t.log.(promoted := s.log.promoted + [s.pending], sends := 0))
  }

  /** Lines 208-212: the previous key pair is dropped three minutes after it was retired. */
  function Expired(s: State, now: U64): State {
    if s.havePrev && (now as int - s.prevSince as int) % W64 > PREV_KEEP_MS
    then s.(havePrev := false, prev := 0, prevRx := Window(0, 0)) else s
  }

  lemma WipedGood(s: State)
    requires Good(s)
    ensures Good(Wiped(s)) && Openable(Wiped(s)) == {}
  {
  }

  lemma InitiatedGood(s: State, ok: bool)
    requires Good(s)
    ensures Good(Initiated(s, ok)) && Openable(Initiated(s, ok)) == Openable(s)
  {
  }

  lemma ExpiredGood(s: State, now: U64)
    requires Good(s)
    ensures Good(Expired(s, now)) && Openable(Expired(s, now)) <= Openable(s) && Expired(s, now).log == s.log
    ensures Expired(s, now).established == s.established
  {
  }

  lemma SealedGood(s: State)
    requires Good(s) && s.established
    ensures Good(Sealed(s)) && Openable(Sealed(s)) == Openable(s)
  {
    DistinctAdds(s.log.sent, Use(s.cur, s.tx));
    SealedCounters(s);
  }

  lemma SealedCounters(s: State)
    requires CountersFit(s) && s.established
    ensures CountersFit(Sealed(s))
    ensures !s.log.wrapped ==> (Use(s.cur, s.tx) in s.log.sent <==> s.log.sends >= W64)
  {
  }

  lemma PromotedGood(s: State, now: U64)
    requires Good(s) && s.handshaking
    ensures Good(Promoted(s, now)) && Openable(Promoted(s, now)) == {s.pending} + if s.established then {s.cur} else {}
  {
    DistinctAdds(s.log.promoted, s.pending);
    assert SeenBy(s.log.accepted, s.pending) == {};
    forall b: nat | b < WINDOW ensures !Bit(0, b) { ZeroBit(b); }
  }

  /** The key pair that opens a datagram, tried in this order, and what comes out. */
  function Which(s: State, open: nat -> Opened): (nat, Opened) {
    if open(s.cur).Plain? || !s.havePrev then (s.cur, open(s.cur)) else (s.prev, open(s.prev))
  }

  /** Lines 230-244: the datagram that key pair g opened, with the window w after it, is accepted. */
  function Taken(s: State, g: nat, ctr: U64, w: Window): State {
    var t := s.(log := s.log.(accepted := s.log.accepted + [Use(g, ctr)]));
    if g == s.cur then t.(rx := w) else t.(prevRx := w)
  }

  lemma TakenGood(s: State, g: nat, ctr: U64, w: Window)
    requires Good(s) && g in Openable(s) && Fresh(SeenBy(s.log.accepted, g), ctr)
    requires Represents(w.max, w.bits, SeenBy(s.log.accepted, g) + {ctr as nat})
    ensures Good(Taken(s, g, ctr, w)) && Openable(Taken(s, g, ctr, w)) == Openable(s)
  {
    var u := Use(g, ctr);
    assert u !in s.log.accepted;
    DistinctAdds(s.log.accepted, u);
    TakenWindows(s, g, ctr, w);
    TakenKeys(s, g, ctr, w);
  }

  lemma TakenKeys(s: State, g: nat, ctr: U64, w: Window)
    requires KeysKnown(s) && CountersFit(s) && g in Openable(s)
    ensures KeysKnown(Taken(s, g, ctr, w)) && CountersFit(Taken(s, g, ctr, w))
  {
  }

  lemma TakenWindows(s: State, g: nat, ctr: U64, w: Window)
    requires KeysKnown(s) && WindowsFit(s) && g in Openable(s)
    requires Represents(w.max, w.bits, SeenBy(s.log.accepted, g) + {ctr as nat})
    ensures WindowsFit(Taken(s, g, ctr, w))
  {
    SeenByAdds(s.log.accepted, Use(g, ctr), s.cur);
    SeenByAdds(s.log.accepted, Use(g, ctr), s.prev);
  }

  /** awg_session_on_datagram, on a datagram that has the length of a response or not, that answers the pending
      handshake or not, and that each key pair opens or not. */
  ghost predicate Received(s: State, t: State, rx: Rx, response: bool, answered: bool, open: nat -> Opened, now: U64) {
    if s.handshaking && response then
      if answered then t == Promoted(s, now) && rx == Established else t == s && rx == Ignored
    else if !s.established then
      t == s && rx == Ignored
    else
      Accepts(Expired(s, now), t, rx, open)
  }

  ghost predicate Accepts(e: State, t: State, rx: Rx, open: nat -> Opened) {
    var (g, o) := Which(e, open);
    if o.Plain? && Fresh(SeenBy(e.log.accepted, g), o.ctr) then
      && rx == (if o.len == 0 then Handled else Payload(o.len))
      && exists w :: t == Taken(e, g, o.ctr, w) && Represents(w.max, w.bits, SeenBy(e.log.accepted, g) + {o.ctr as nat})
    else
      t == e && rx == Ignored
  }

  /** While a handshake is outstanding a data datagram is mistaken for a response exactly when S2 and S4 let the
      lengths collide: a datagram with k padded blocks has S4 + 32 + 16 k bytes, a response S2 + 92. */
  lemma LengthsCollide(s2: nat, s4: nat)
    ensures (exists k: nat :: s4 + 32 + 16 * k == s2 + MSG_RESP_SIZE) <==> s2 + 60 >= s4 && (s2 + 60 - s4) % 16 == 0
  {
    if s2 + 60 >= s4 && (s2 + 60 - s4) % 16 == 0 {
      var k := (s2 + 60 - s4) / 16;
      assert s4 + 32 + 16 * k == s2 + MSG_RESP_SIZE;
    }
  }

  /** What that costs: of an established session that is handshaking, a datagram that the current key opens and that is
      fresh is accepted if and only if its length is not that of a response. The comment at awg_session.c:163-166 takes
      this for granted. */
  lemma DeliveredIff(s: State, t: State, rx: Rx, s2: nat, s4: nat, k: nat, answered: bool, open: nat -> Opened,
                     now: U64)
    requires Good(s) && s.established && s.handshaking && open(s.cur).Plain?
    requires Fresh(SeenBy(s.log.accepted, s.cur), open(s.cur).ctr)
    requires Received(s, t, rx, s4 + 32 + 16 * k == s2 + MSG_RESP_SIZE, answered, open, now)
    ensures t.log.accepted == s.log.accepted + [Use(s.cur, open(s.cur).ctr)] <==> s4 + 32 + 16 * k != s2 + MSG_RESP_SIZE
    ensures s4 + 32 + 16 * k == s2 + MSG_RESP_SIZE ==> rx == if answered then Established else Ignored
  {
    ExpiredGood(s, now);
  }

  /** A datagram that is no answer to a pending handshake is accepted exactly when the current key pair opens it, or
      does not and the previous one, retired at most three minutes ago, does; and the counter is new to the key pair
      that opened it and less than 64 behind the highest it has seen. */
  lemma DataVerdict(s: State, t: State, rx: Rx, response: bool, answered: bool, open: nat -> Opened, now: U64)
    requires Received(s, t, rx, response, answered, open, now) && !(s.handshaking && response)
    ensures var keep := s.havePrev && (now as int - s.prevSince as int) % 0x1_0000_0000_0000_0000 <= 180000;
            var g := if open(s.cur).Plain? then s.cur else s.prev;
            var o, seen := open(g), SeenBy(s.log.accepted, g);
            if s.established && o.Plain? && (g == s.cur || keep)
               && o.ctr as nat !in seen && (forall c :: c in seen ==> c - o.ctr as int < 64) then
              && t.log.accepted == s.log.accepted + [Use(g, o.ctr)]
              && rx == if o.len == 0 then Handled else Payload(o.len)
            else
              t.log.accepted == s.log.accepted && rx == Ignored
  {
    if s.established {
      var e := Expired(s, now);
      assert e.cur == s.cur && e.log == s.log && (e.havePrev ==> e.prev == s.prev);
      var (g, o) := Which(e, open);
      if o.Plain? { FreshIs(SeenBy(s.log.accepted, g), o.ctr); }
    }
  }

  lemma FreshIs(seen: set<nat>, ctr: nat)
    ensures Fresh(seen, ctr) <==> ctr !in seen && forall c :: c in seen ==> c - ctr < 64
  {
  }

  /** A datagram of the length of a response, while a handshake is pending: an answer makes that handshake's key pair
      the current one, with a new counter, and the one in use the previous one; anything else changes nothing. */
  lemma AnswerVerdict(s: State, t: State, rx: Rx, answered: bool, open: nat -> Opened, now: U64)
    requires s.handshaking && Received(s, t, rx, true, answered, open, now)
    ensures !answered ==> t == s && rx == Ignored
    ensures answered ==> && rx == Established && t.established && !t.handshaking && t.cur == s.pending && t.tx == 0
                         && t.log.promoted == s.log.promoted + [s.pending] && t.log.accepted == s.log.accepted
    ensures answered && s.established ==> t.havePrev && t.prev == s.cur && t.prevSince == now && t.prevRx == s.rx
    ensures answered && !s.established ==> t.havePrev == s.havePrev
  {
  }

  datatype Event =
    | Wipe
    | Initiate(ok: bool)
    | Send(sealed: bool)
    | Datagram(response: bool, answered: bool, open: nat -> Opened, now: U64)

  ghost predicate Step(s: State, e: Event, t: State) {
    match e
    case Wipe => t == Wiped(s)
    case Initiate(ok) => t == Initiated(s, ok)
    case Send(sealed) => t == if s.established && sealed then Sealed(s) else s
    case Datagram(response, answered, open, now) => exists rx :: Received(s, t, rx, response, answered, open, now)
  }

  /** What no step undoes: history only grows, and a key pair that was in use and opens nothing now will never
      open anything again. */
  ghost predicate Onward(s: State, t: State) {
    && s.log.promoted <= t.log.promoted && s.log.accepted <= t.log.accepted && s.log.sent <= t.log.sent
    && (forall g :: g in s.log.promoted && g in Openable(t) ==> g in Openable(s))
    && (forall g :: g in s.log.retiredAt ==> g in t.log.retiredAt && t.log.retiredAt[g] == s.log.retiredAt[g])
  }

  lemma StepGood(s: State, e: Event, t: State)
    requires Good(s) && Step(s, e, t)
    ensures Good(t) && Onward(s, t)
  {
    match e
    case Wipe => WipedGood(s);
    case Initiate(ok) => InitiatedGood(s, ok);
    case Send(sealed) => if s.established && sealed { SealedGood(s); }
    case Datagram(response, answered, open, now) =>
      if s.handshaking && response {
        PromotedGood(s, now);
      } else if s.established {
        var rx :| Received(s, t, rx, response, answered, open, now);
        ReceivedGood(s, t, rx, open, now);
      }
  }

  lemma ReceivedGood(s: State, t: State, rx: Rx, open: nat -> Opened, now: U64)
    requires Good(s) && s.established && Accepts(Expired(s, now), t, rx, open)
    ensures Good(t) && Onward(s, t)
  {
    ExpiredGood(s, now);
    AcceptsGood(Expired(s, now), t, rx, open);
  }

  lemma AcceptsGood(e: State, t: State, rx: Rx, open: nat -> Opened)
    requires Good(e) && e.established && Accepts(e, t, rx, open)
    ensures Good(t) && Openable(t) == Openable(e) && t.log.promoted == e.log.promoted && t.log.sent == e.log.sent
    ensures t.log.retiredAt == e.log.retiredAt && e.log.accepted <= t.log.accepted
  {
    var (g, o) := Which(e, open);
    assert g in Openable(e);
    if o.Plain? && Fresh(SeenBy(e.log.accepted, g), o.ctr) {
      var w :| t == Taken(e, g, o.ctr, w) && Represents(w.max, w.bits, SeenBy(e.log.accepted, g) + {o.ctr as nat});
      TakenGood(e, g, o.ctr, w);
    }
  }

  /** A datagram is accepted under the current key pair, or under one that was retired at most three minutes ago. */
  lemma AcceptedInTime(s: State, t: State, response: bool, answered: bool, open: nat -> Opened, now: U64)
    requires Good(s) && Step(s, Datagram(response, answered, open, now), t) && |t.log.accepted| > |s.log.accepted|
    ensures |t.log.accepted| == |s.log.accepted| + 1
    ensures var u := t.log.accepted[|s.log.accepted|];
            && u !in s.log.accepted && s.established && open(u.key).Plain? && open(u.key).ctr as int == u.ctr
            && (u.key == s.cur
                || (s.havePrev && u.key == s.prev && u.key in s.log.retiredAt
                    && (now as int - s.log.retiredAt[u.key] as int) % W64 <= PREV_KEEP_MS))
  {
    assert s.established;
    var e := Expired(s, now);
    var (g, o) := Which(e, open);
    assert o.Plain? && Fresh(SeenBy(e.log.accepted, g), o.ctr);
    var u := Use(g, o.ctr);
    assert t.log.accepted == s.log.accepted + [u];
    assert u in s.log.accepted ==> u.ctr in SeenBy(s.log.accepted, g);
  }

  ghost predicate Run(states: seq<State>, events: seq<Event>) {
    && |states| == |events| + 1 && states[0] == START
    && forall i {:trigger events[i]} :: 0 <= i < |events| ==> Step(states[i], events[i], states[i + 1])
  }

  /** Over every run: every handshake is promoted at most once, every counter is accepted at most once per key
      pair, and no key pair seals two datagrams under one counter unless it seals more than 2^64. */
  lemma {:induction false} RunSafe(states: seq<State>, events: seq<Event>, k: nat)
    requires Run(states, events) && k < |states|
    ensures Good(states[k])
    decreases k
  {
    if k > 0 {
      RunSafe(states, events, k - 1);
      StepGood(states[k - 1], events[k - 1], states[k]);
    }
  }

  lemma StillOnward(a: State, b: State, c: State)
    requires Onward(a, b) && Onward(b, c)
    ensures Onward(a, c)
  {
  }

  lemma RunStep(states: seq<State>, events: seq<Event>, k: nat)
    requires Run(states, events) && k < |events|
    ensures Onward(states[k], states[k + 1])
  {
    RunSafe(states, events, k);
    StepGood(states[k], events[k], states[k + 1]);
  }

  lemma {:induction false} RunOnward(states: seq<State>, events: seq<Event>, i: nat, k: nat)
    requires Run(states, events) && i <= k < |states|
    ensures Onward(states[i], states[k])
    decreases k
  {
    if i < k {
      RunOnward(states, events, i, k - 1);
      RunStep(states, events, k - 1);
      StillOnward(states[i], states[k - 1], states[k]);
    }
  }
}

/** The session as the program keeps it: fields that are updated in place. Every method is a step of SessionSpec,
so RunSafe and RunOnward hold of every sequence of calls. */
module Session {
  import opened Bits
  import opened Replay
  import opened SessionSpec

  class Session {
    var cur: nat
    var prev: nat
    var pending: nat
    var begun: nat
    var established: bool
    var havePrev: bool
    var handshaking: bool
    var txCounter: U64
    var rx: Window
    var prevRx: Window
    var prevSince: U64
    ghost var log: Log

    ghost function View(): State
      reads this
    {
      State(cur, prev, pending, begun, established, havePrev, handshaking,
            txCounter, rx, prevRx, prevSince, log)
    }

    constructor ()
      ensures View() == START
    {
      cur, prev, pending, begun, established, havePrev, handshaking := 0, 0, 0, 0, false, false, false;
      txCounter, prevSince := 0, 0;
      rx, prevRx := Window(0, 0), Window(0, 0);
      log := START.log;
    }

    /** awg_session_wipe and awg_session_init */
    method Wipe()
      modifies this
      ensures Step(old(View()), Event.Wipe, View()) && Openable(View()) == {} && !handshaking
    {
      cur, prev, pending, established, havePrev, handshaking := 0, 0, 0, false, false, false;
      txCounter, prevSince := 0, 0;
      rx, prevRx := Window(0, 0), Window(0, 0);
      log := log.(sends := 0);
    }

    method BuildInitiation(created: bool, wrapped: bool) returns (ok: bool)
      modifies this`pending, this`begun, this`handshaking
      ensures Step(old(View()), Initiate(ok), View()) && ok == (created && wrapped)
      ensures begun == old(begun) + 1 && pending == begun && handshaking == (old(handshaking) || ok)
    {
      begun := begun + 1;
      pending := begun;
      if !created || !wrapped {
        return false;
      }
      handshaking := true;
      return true;
    }

    /** `sealed` is whether awg_transport_seal succeeds. */
    method BuildData(sealed: bool) returns (ok: bool)
      modifies this`txCounter, this`log
      ensures Step(old(View()), Send(sealed), View()) && ok == (established && sealed)
      ensures ok ==> && txCounter as int == (old(txCounter) as int + 1) % 0x1_0000_0000_0000_0000
                     && log.sent == old(log.sent) + [Use(cur, old(txCounter))]
      ensures !ok ==> View() == old(View())
    {
      if !established || !sealed {
        return false;
      }
      log := Sealed(View()).log;
      txCounter := (txCounter as int + 1) % W64;
      return true;
    }

    method Promote(now: U64)
      modifies this
      ensures View() == Promoted(old(View()), now)
    {
      log := Promoted(View(), now).log;
      if established {
        prev, havePrev, prevRx, prevSince := cur, true, rx, now;
      }
      cur, established, handshaking := pending, true, false;
      txCounter, rx := 0, Window(0, 0);
    }

    method ExpirePrev(now: U64)
      modifies this`havePrev, this`prev, this`prevRx
      ensures View() == Expired(old(View()), now)
    {
      if havePrev && (now as int - prevSince as int) % W64 > PREV_KEEP_MS {
        havePrev, prev, prevRx := false, 0, Window(0, 0);
      }
    }

    /** awg_session_on_datagram */
    method OnDatagram(length: int, s2: int, answered: bool, open: nat -> Opened, now: U64) returns (r: Rx)
      requires Good(View())
      modifies this
      ensures Received(old(View()), View(), r, length == s2 + MSG_RESP_SIZE, answered, open, now)
    {
      if handshaking && length == s2 + MSG_RESP_SIZE {
        if !answered {
          return Ignored;
        }
        Promote(now);
        return Established;
      }
      if !established {
        return Ignored;
      }
      ExpirePrev(now);
      ExpiredGood(old(View()), now);
      r := Take(open);
    }

    /** Lines 214-252 */
    method Take(open: nat -> Opened) returns (r: Rx)
      requires WindowsFit(View()) && established
      modifies this`rx, this`prevRx, this`log
      ensures Accepts(old(View()), View(), r, open)
    {
      ghost var s := View();
      var plain := open(cur);
      var onPrev := false;
      if plain.Rejected? && havePrev {
        plain := open(prev);
        onPrev := plain.Plain?;
      }
      if plain.Rejected? {
        return Ignored;
      }
      ghost var g := if onPrev then prev else cur;
      ghost var seen := SeenBy(log.accepted, g);
      var isNew, max, bits;
      if onPrev {
        isNew, max, bits := ReplayOk(prevRx.max, prevRx.bits, plain.ctr, seen);
        prevRx := Window(max, bits);
      } else {
        isNew, max, bits := ReplayOk(rx.max, rx.bits, plain.ctr, seen);
        rx := Window(max, bits);
      }
      if !isNew {
        return Ignored;
      }
      log := Taken(s, g, plain.ctr, Window(max, bits)).log;
      return if plain.len == 0 then Handled else Payload(plain.len);
    }
  }
}
