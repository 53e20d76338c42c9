/** The proxy's connection table: who leaves it, and how that is counted. */
module ProxyTable {
  import opened Bits

  const MAX_CONN: nat := 16
  const SNIFF_TIMEOUT_MS: int := 5000
  const IDLE_TIMEOUT_MS: int := 120000

  datatype CState = Unused | Sniff | Resolving | Connecting | Relay

  function Live(st: seq<CState>): nat {
    if |st| == 0 then 0 else Live(st[..|st| - 1]) + if st[|st| - 1] == Unused then 0 else 1
  }

  lemma {:induction false} LiveUpdate(st: seq<CState>, i: nat, s: CState)
    requires i < |st|
    ensures Live(st[i := s]) == Live(st) - (if st[i] == Unused then 0 else 1) + (if s == Unused then 0 else 1)
    decreases |st|
  {
    var n := |st| - 1;
    if i == n {
      assert st[i := s][..n] == st[..n];
    } else {
      assert st[i := s][..n] == st[..n][i := s];
      LiveUpdate(st[..n], i, s);
    }
  }

  /** How a readable client turns out while the hostname is looked for. */
  datatype Hello = Incomplete | Malformed | Denied | NoName | Asked | Answered | Rejected

  class Table {
    var st: seq<CState>
    var accepted: nat
    var refused: nat
    var connected: nat
    var resolved: nat
    var completed: nat
    var failed: nat
    var closed: nat
    var denied: nat
    var timedOut: nat
    /** Exits that no counter of their own shows: through on_err, and through stop. */
    ghost var errExits: nat
    ghost var stopExits: nat
    /** Exits that are counted as failed and as closed. */
    ghost var both: nat

    /** Every accepted connection is in the table or left it exactly once. */
    ghost predicate Valid()
      reads this
    {
      && |st| == MAX_CONN
      && accepted == Live(st) + completed + closed + errExits + stopExits
      && failed == errExits + both && both + timedOut + denied <= closed
    }

    constructor ()
      ensures Valid() && Live(st) == 0 && accepted == 0 && both == 0 && stopExits == 0
    {
      st := seq(MAX_CONN, i => Unused);
      accepted, refused, connected, resolved, completed := 0, 0, 0, 0, 0;
      failed, closed, denied, timedOut := 0, 0, 0, 0;
      errExits, stopExits, both := 0, 0, 0;
      new;
      NoneLive(st);
    }

    /** Lines 639-654, with conn_alloc. */
    method Accept() returns (slot: int)
      requires Valid()
      modifies this`st, this`accepted, this`refused
      ensures Valid() && (slot == -1 <==> Live(old(st)) == MAX_CONN)
      ensures slot == -1 ==> st == old(st) && refused == old(refused) + 1
      ensures slot != -1 ==> && 0 <= slot < MAX_CONN && old(st)[slot] == Unused && st == old(st)[slot := Sniff]
                             && (forall i :: 0 <= i < slot ==> old(st)[i] != Unused) && accepted == old(accepted) + 1
    {
      slot := 0;
      while slot < MAX_CONN && st[slot] != Unused
        invariant 0 <= slot <= MAX_CONN && forall i :: 0 <= i < slot ==> st[i] != Unused
      {
        slot := slot + 1;
      }
      if slot == MAX_CONN {
        AllLive(st);
        refused := refused + 1;
        return -1;
      }
      LiveUpdate(st, slot, Sniff);
      LiveBound(st[slot := Sniff]);
      st := st[slot := Sniff];
      accepted := accepted + 1;
    }

    /** conn_close with a reason. */
    method Close(i: nat)
      requires |st| == MAX_CONN && i < MAX_CONN
      modifies this`st, this`closed
      ensures st == old(st)[i := Unused] && Live(st) == Live(old(st)) - (if old(st)[i] == Unused then 0 else 1)
      ensures closed == old(closed) + if old(st)[i] == Unused then 0 else 1
    {
      LiveUpdate(st, i, Unused);
      if st[i] == Unused {
        assert st == st[i := Unused];
        return;
      }
      closed := closed + 1;
      st := st[i := Unused];
    }

    /** The sites that only close: a client that hung up, failed to read or write, or sent no hostname (lines 366, 456,
        486 and 660). One exit, counted as closed. */
    method HangUp(i: nat)
      requires Valid() && i < MAX_CONN && st[i] != Unused
      modifies this`st, this`closed
      ensures Valid() && st == old(st)[i := Unused] && closed == old(closed) + 1
    {
      Close(i);
    }

    /** The sites that count a failure and then close: lines 284, 298, 303, 310 and 484. */
    method FailAndClose(i: nat)
      requires Valid() && i < MAX_CONN && st[i] != Unused
      modifies this`st, this`closed, this`failed, this`both
      ensures Valid() && st == old(st)[i := Unused] && both == old(both) + 1
    {
      failed := failed + 1;
      both := both + 1;
      Close(i);
    }

    /** on_err: lwIP has freed the pcb. */
    method OnErr(i: nat)
      requires Valid() && i < MAX_CONN && st[i] != Unused
      modifies this`st, this`failed, this`errExits
      ensures Valid() && st == old(st)[i := Unused] && errExits == old(errExits) + 1
    {
      failed := failed + 1;
      errExits := errExits + 1;
      LiveUpdate(st, i, Unused);
      st := st[i := Unused];
    }

    method OnConnected(i: nat, ok: bool)
      requires Valid() && i < MAX_CONN && st[i] != Unused
      modifies this`st, this`closed, this`failed, this`both, this`connected
      ensures Valid() && st == old(st)[i := if ok then Relay else Unused]
      ensures connected == old(connected) + (if ok then 1 else 0) && both == old(both) + if ok then 0 else 1
    {
      if !ok {
        FailAndClose(i);
        return;
      }
      LiveUpdate(st, i, Relay);
      st := st[i := Relay];
      connected := connected + 1;
    }

    /** on_resolved. A callback that comes when the slot waits for none changes nothing. */
    method OnResolved(i: nat, found: bool, gotPcb: bool, connecting: bool)
      requires Valid() && i < MAX_CONN
      modifies this`st, this`closed, this`failed, this`both, this`resolved
      ensures Valid()
      ensures st == if old(st)[i] != Resolving then old(st)
                    else old(st)[i := if found && gotPcb && connecting then Connecting else Unused]
      ensures resolved == old(resolved) + if old(st)[i] == Resolving && found then 1 else 0
      ensures both == old(both) + if old(st)[i] == Resolving && !(found && gotPcb && connecting) then 1 else 0
    {
      if st[i] != Resolving {
        return;
      }
      if !found {
        FailAndClose(i);
        return;
      }
      resolved := resolved + 1;
      if !gotPcb {
        FailAndClose(i);
        return;
      }
      LiveUpdate(st, i, Connecting);
      st := st[i := Connecting];
      if !connecting {
        FailAndClose(i);
        assert st == old(st)[i := Unused];
      }
    }

    /** handle_client_readable in state Sniff. */
    method OnHello(i: nat, hello: Hello, found: bool, gotPcb: bool, connecting: bool)
      requires Valid() && i < MAX_CONN && st[i] == Sniff
      modifies this
      ensures Valid() && (hello == Incomplete ==> st == old(st)) && (hello == Asked ==> st == old(st)[i := Resolving])
      ensures hello in {Malformed, Denied, NoName, Rejected} ==> st == old(st)[i := Unused]
      ensures hello == Answered ==> st == old(st)[i := if found && gotPcb && connecting then Connecting else Unused]
      ensures stopExits == old(stopExits) && errExits == old(errExits) && completed == old(completed)
      ensures denied == old(denied) + if hello in {Malformed, Denied} then 1 else 0
      ensures resolved == old(resolved) + if hello == Answered && found then 1 else 0
      ensures both == old(both) + if hello == Rejected || (hello == Answered && !(found && gotPcb && connecting))
                                  then 1 else 0
    {
      match hello {
        case Incomplete =>
        case Malformed =>
          Refuse(i);
        case Denied =>
          Refuse(i);
        case NoName =>
          HangUp(i);
        case Asked =>
          StartResolving(i);
        case Answered =>
          StartResolving(i);
          OnResolved(i, found, gotPcb, connecting);
          assert st == old(st)[i := if found && gotPcb && connecting then Connecting else Unused];
        case Rejected =>
          StartResolving(i);
          FailAndClose(i);
          assert st == old(st)[i := Unused];
      }
    }

    method Refuse(i: nat)
      requires Valid() && i < MAX_CONN && st[i] != Unused
      modifies this`st, this`closed, this`denied
      ensures Valid() && st == old(st)[i := Unused] && denied == old(denied) + 1
    {
      denied := denied + 1;
      Close(i);
    }

    method StartResolving(i: nat)
      requires Valid() && i < MAX_CONN && st[i] == Sniff
      modifies this`st
      ensures Valid() && st == old(st)[i := Resolving]
    {
      LiveUpdate(st, i, Resolving);
      st := st[i := Resolving];
    }

    /** sweep_idle; lastMs are the times of the last byte, taken modulo 2^32. */
    method SweepIdle(now: U32, lastMs: seq<U32>)
      requires Valid() && |lastMs| == MAX_CONN
      modifies this`st, this`closed, this`timedOut
      ensures Valid() && timedOut - old(timedOut) == closed - old(closed) == Live(old(st)) - Live(st)
      ensures forall i :: 0 <= i < MAX_CONN ==>
                var limit := if old(st)[i] == Sniff then 5000 else 120000;
                var idle := (now as int - lastMs[i] as int) % 0x1_0000_0000;
                st[i] == if idle >= limit then Unused else old(st)[i]
    {
      for i := 0 to MAX_CONN
        invariant Valid() && timedOut - old(timedOut) == closed - old(closed) == Live(old(st)) - Live(st)
        invariant forall k :: 0 <= k < i ==> st[k] == if Idle(old(st)[k], now, lastMs[k]) then Unused else old(st)[k]
        invariant forall k :: i <= k < MAX_CONN ==> st[k] == old(st)[k]
      {
        var idle := (now as int - lastMs[i] as int) % 0x1_0000_0000;
        var limit := if st[i] == Sniff then SNIFF_TIMEOUT_MS else IDLE_TIMEOUT_MS;
        if st[i] != Unused && idle >= limit {
          timedOut := timedOut + 1;
          Close(i);
        }
      }
    }

    /** Lines 681-684 */
    method Complete(i: nat)
      requires Valid() && i < MAX_CONN && st[i] != Unused
      modifies this`st, this`completed
      ensures Valid() && st == old(st)[i := Unused] && completed == old(completed) + 1
    {
      completed := completed + 1;
      LiveUpdate(st, i, Unused);
      st := st[i := Unused];
    }

    /** awg_proxy_stop */
    method Stop()
      requires Valid()
      modifies this`st, this`stopExits
      ensures Valid() && Live(st) == 0 && stopExits == old(stopExits) + Live(old(st))
    {
      for i := 0 to MAX_CONN
        invariant |st| == MAX_CONN && stopExits + Live(st) == old(stopExits) + Live(old(st))
        invariant forall k :: 0 <= k < i ==> st[k] == Unused
      {
        LiveUpdate(st, i, Unused);
        if st[i] != Unused {
          st := st[i := Unused];
          stopExits := stopExits + 1;
        }
      }
      NoneLive(st);
    }

    /** awg_proxy_live */
    method LiveCount() returns (n: nat)
      requires Valid()
      ensures n == Live(st)
    {
      n := 0;
      for i := 0 to MAX_CONN
        invariant n == Live(st[..i])
      {
        assert st[..i + 1][..i] == st[..i];
        if st[i] != Unused {
          n := n + 1;
        }
      }
      assert st[..MAX_CONN] == st;
    }
  }

  ghost predicate Idle(s: CState, now: U32, last: U32) {
    var limit := if s == Sniff then SNIFF_TIMEOUT_MS else IDLE_TIMEOUT_MS;
    s != Unused && (now as int - last as int) % 0x1_0000_0000 >= limit
  }

  /** The identity that the comment at line 214 states holds exactly when as many connections were counted twice,
      as failed and as closed, as left through stop. */
  lemma CommentIdentity(t: Table)
    requires t.Valid()
    ensures t.accepted == t.completed + t.failed + t.closed + Live(t.st) <==> t.both == t.stopExits
  {
  }

  /** It fails after a single refused DNS request: one connection, counted twice. */
  method CommentIdentityFails() returns (t: Table)
    ensures fresh(t) && t.Valid() && t.accepted != t.completed + t.failed + t.closed + Live(t.st)
  {
    t := new Table();
    var slot := t.Accept();
    t.OnHello(slot, Rejected, false, false, false);
    CommentIdentity(t);
  }

  lemma {:induction false} NoneLive(st: seq<CState>)
    requires forall i :: 0 <= i < |st| ==> st[i] == Unused
    ensures Live(st) == 0
    decreases |st|
  {
    if |st| > 0 { NoneLive(st[..|st| - 1]); }
  }

  lemma {:induction false} AllLive(st: seq<CState>)
    requires forall i :: 0 <= i < |st| ==> st[i] != Unused
    ensures Live(st) == |st|
    decreases |st|
  {
    if |st| > 0 { AllLive(st[..|st| - 1]); }
  }

  lemma {:induction false} LiveBound(st: seq<CState>)
    ensures Live(st) <= |st|
    decreases |st|
  {
    if |st| > 0 { LiveBound(st[..|st| - 1]); }
  }
}

/** One connection of the proxy: bytes from the client wait in `up` for the tunnel, bytes from the tunnel wait in
the pbuf chain for the client. */
module ProxyRelay {
  import opened Bits
  import opened ByteStrings
  import opened Buffers
  import opened TcpSeq
  import opened TcpQueue
  import opened Tcp

  const BUF_SIZE: nat := 8192

  /** pbuf->len is a u16. */
  ghost predicate Small(chain: seq<seq<U8>>) {
    forall i :: 0 <= i < |chain| ==> |chain[i]| <= 0xFFFF
  }

  /** The pbufs that lwIP hands over for some data; how it divides them does not matter. */
  function Pieces(data: seq<U8>, size: nat): seq<seq<U8>>
    requires 0 < size
    decreases |data|
  {
    if |data| == 0 then [] else if |data| <= size then [data] else [data[..size]] + Pieces(data[size..], size)
  }

  lemma {:induction false} PiecesAre(data: seq<U8>, size: nat)
    requires 0 < size <= 0xFFFF
    ensures Flatten(Pieces(data, size)) == data && Small(Pieces(data, size))
    decreases |data|
  {
    if 0 < |data| <= size {
      FlattenOne(data);
    } else if |data| > size {
      var first, rest := data[..size], data[size..];
      PiecesAre(rest, size);
      FlattenConcat([first], Pieces(rest, size));
      FlattenOne(first);
      assert first + rest == data;
    }
  }

  /** What send() returns: so many bytes, try again, or an error; sending nothing counts as an error. */
  datatype Outcome = Sent(n: nat) | Again | Broken

  predicate Moves(o: Outcome) {
    o.Sent? && o.n > 0
  }

  function Sum(ns: seq<nat>): nat {
    if |ns| == 0 then 0 else Sum(ns[..|ns| - 1]) + ns[|ns| - 1]
  }

  /** Position x of a chain is the end of one of its pbufs, or its start. */
  ghost predicate Boundary(chain: seq<seq<U8>>, x: nat) {
    exists j :: 0 <= j <= |chain| && x == |Flatten(chain[..j])|
  }

  /** Send k moved what it said it would, or all that was left of a pbuf that starts off bytes into the chain. */
  ghost predicate Exact(sends: seq<Outcome>, moved: seq<nat>, chain: seq<seq<U8>>, off: nat, k: nat)
    requires k < |moved| <= |sends|
  {
    && Moves(sends[k]) && 1 <= moved[k] <= sends[k].n
    && (moved[k] == sends[k].n || Boundary(chain, off + Sum(moved[..k + 1])))
  }

  ghost predicate AllExact(sends: seq<Outcome>, moved: seq<nat>, chain: seq<seq<U8>>, off: nat) {
    |moved| <= |sends| && forall k :: 0 <= k < |moved| ==> Exact(sends, moved, chain, off, k)
  }

  lemma ExactMore(sends: seq<Outcome>, moved: seq<nat>, chain: seq<seq<U8>>, off: nat, n: nat)
    requires AllExact(sends, moved, chain, off) && |moved| < |sends| && Moves(sends[|moved|])
    requires 1 <= n <= sends[|moved|].n && (n == sends[|moved|].n || Boundary(chain, off + Sum(moved) + n))
    ensures AllExact(sends, moved + [n], chain, off) && Sum(moved + [n]) == Sum(moved) + n
  {
    var more := moved + [n];
    assert more[..|moved|] == moved && more[..|more|] == more;
    forall k | 0 <= k < |more| ensures Exact(sends, more, chain, off, k) {
      if k < |moved| {
        assert Exact(sends, moved, chain, off, k) && more[..k + 1] == moved[..k + 1];
      }
    }
  }

  /** The chain from pbuf d on, off bytes into it, is x bytes into the whole chain. */
  ghost predicate At(rx: seq<seq<U8>>, off: nat, chain: seq<seq<U8>>, d: nat, x: nat) {
    d <= |chain| && rx == chain[d..] && x == |Flatten(chain[..d])| + off
  }

  lemma NextPbuf(chain: seq<seq<U8>>, d: nat)
    requires d < |chain|
    ensures |Flatten(chain[..d + 1])| == |Flatten(chain[..d])| + |chain[d]| && chain[d..][1..] == chain[d + 1..]
  {
    assert chain[..d + 1][..d] == chain[..d];
  }

  class Conn {
    const up: array<U8>
    var upLen: nat
    var rx: seq<seq<U8>>
    var rxOff: nat
    var peerClosed: bool
    var pcb: Pcb

    /** Everything read from the client, written to the pcb, handed to on_recv, and sent to the client. */
    ghost var fromClient: seq<U8>
    ghost var toPcb: seq<U8>
    ghost var fromPcb: seq<U8>
    ghost var toClient: seq<U8>

    ghost function Unread(): seq<U8>
      requires rxOff <= |Flatten(rx)|
      reads this
    {
      Flatten(rx)[rxOff..]
    }

    /** Nothing is lost, repeated or reordered in either direction. */
    ghost predicate Relayed()
      reads this, up
    {
      && up.Length == BUF_SIZE && upLen <= BUF_SIZE && fromClient == toPcb + up[..upLen]
      && rxOff <= (if rx == [] then 0 else |rx[0]|) && rxOff <= |Flatten(rx)| && Small(rx)
      && fromPcb == toClient + Unread()
    }

    ghost predicate Valid()
      reads this, up, pcb
    {
      Relayed() && pcb.Valid() && pcb.delivered == fromPcb && pcb.recved == |toClient| && peerClosed == pcb.closing
    }

    /** Lines 302-306 and 286-288: a fresh connection over a fresh pcb. */
    constructor (pcb: Pcb)
      requires pcb.Valid() && pcb.delivered == [] && pcb.recved == 0 && !pcb.closing
      ensures Valid() && fresh(up) && this.pcb == pcb && fromClient == [] && toClient == []
    {
      up := new U8[BUF_SIZE];
      upLen, rx, rxOff, peerClosed := 0, [], 0, false;
      this.pcb := pcb;
      fromClient, toPcb, fromPcb, toClient := [], [], [], [];
    }

    /** handle_client_readable, lines 442-461: recv gives data, no more than there is space for. */
    method ReadClient(data: seq<U8>)
      requires Valid() && |data| <= BUF_SIZE - upLen
      modifies up, this`upLen, this`fromClient
      ensures Valid() && fromClient == old(fromClient) + data && upLen == old(upLen) + |data|
    {
      ghost var before, rest := up[..upLen], up[upLen..];
      assert up[..] == before + rest;
      Buffers.Append(data, up, upLen, before, rest);
      assert up[..upLen + |data|] == before + data;
      upLen := upLen + |data|;
      fromClient := fromClient + data;
    }

    /** pump_up: room is what tcp_sndbuf offers, taken is whether tcp_write takes it. */
    method PumpUp(room: U16, taken: bool)
      requires Valid()
      modifies up, this`upLen, this`toPcb
      ensures Valid() && toPcb == old(toPcb) + if taken then old(up[..Min(upLen, room)]) else []
    {
      if upLen == 0 || room == 0 || !taken {
        return;
      }
      var n := if upLen < room as int then upLen else room as int;
      ghost var sent, rest := up[..n], up[n..upLen];
      assert up[..upLen] == sent + rest;
      assert fromClient == (toPcb + sent) + rest;
      ShiftDown(up, n, upLen);
      toPcb := toPcb + sent;
      upLen := upLen - n;
    }

    /** The window and the unread chain make up TCP_WND, and nothing is queued beyond the window. */
    ghost predicate WindowHolds()
      requires rxOff <= |Flatten(rx)|
      reads this, pcb
    {
      pcb.rcvWnd as int + |Unread()| == TCP_WND as int && InWindow(pcb.Now(), |pcb.stream|)
    }

    /** tcp_input and on_recv: a segment comes in, and what it brings into sequence joins the chain. */
    method OnSegment(seg: Seg, copied: bool, size: nat, ghost off: nat) returns (ghost after: View)
      requires Valid() && 0 < size <= 0xFFFF
      requires seg.seqno == Plus(pcb.irs, off) && Cut(seg, 0, off, pcb.stream) && seg.TcpLen() <= 0xFFFF
      requires pcb.n + pcb.rcvWnd <= off + TcpSeq.M && off + seg.TcpLen() <= pcb.n + TcpSeq.M
      modifies this`rx, this`peerClosed, this`fromPcb, pcb
      ensures Valid() && Received(old(pcb.Now()), after, seg, off, copied, |pcb.stream|)
              && pcb.Now() == after.(wnd := pcb.rcvWnd)
      ensures old(WindowHolds()) && off + seg.TcpLen() <= old(pcb.n + pcb.rcvWnd) ==> WindowHolds()
    {
      WindowIs();
      var data, gotFin;
      data, gotFin, after := pcb.Input(seg, copied, off);
      OnRecv(data, gotFin, size);
      WindowIs();
    }

    lemma WindowIs()
      requires Valid()
      ensures WindowHolds() <==> pcb.Balanced() && InWindow(pcb.Now(), |pcb.stream|)
    {
    }

    /** on_recv, with the data and then with NULL for the end. */
    method OnRecv(data: seq<U8>, gotFin: bool, size: nat)
      requires Relayed() && 0 < size <= 0xFFFF
      modifies this`rx, this`peerClosed, this`fromPcb
      ensures Relayed() && fromPcb == old(fromPcb) + data && peerClosed == (old(peerClosed) || gotFin)
    {
      if |data| > 0 {
        JoinChain(rx, rxOff, data, size);
        rx := rx + Pieces(data, size);
      }
      if gotFin {
        peerClosed := true;
      }
      Regroup(toClient, old(Unread()), data);
      fromPcb := fromPcb + data;
    }

    /** pump_down: sends are what send() returns, one by one; when they run out the socket is full. It goes on until
        the chain is gone, the socket is full or broken; calls is how many sends moved bytes. */
    method PumpDown(sends: seq<Outcome>) returns (broken: bool, calls: nat, moved: seq<nat>)
      requires Valid()
      modifies this`rx, this`rxOff, this`toClient, pcb`rcvWnd, pcb`recved
      ensures Valid() && old(toClient) <= toClient && fromPcb == old(fromPcb)
      ensures old(WindowHolds()) ==> WindowHolds()
      ensures calls == |moved| && AllExact(sends, moved, old(rx), old(rxOff))
      ensures |toClient| == |old(toClient)| + Sum(moved)
      ensures broken <==> rx != [] && calls < |sends| && !Moves(sends[calls]) && sends[calls] != Again
      ensures !broken && rx != [] ==> calls == |sends| || sends[calls] == Again
    {
      moved := [];
      ghost var d := 0;
      while rx != []
        invariant Valid() && old(toClient) <= toClient && fromPcb == old(fromPcb)
        invariant old(WindowHolds()) ==> WindowHolds()
        invariant AllExact(sends, moved, old(rx), old(rxOff)) && |toClient| == |old(toClient)| + Sum(moved)
        invariant At(rx, rxOff, old(rx), d, old(rxOff) + Sum(moved))
        decreases |sends| - |moved| + |rx|
      {
        if rxOff == |rx[0]| {
          NextPbuf(old(rx), d);
          DropSpent();
          d := d + 1;
        } else if |moved| == |sends| || sends[|moved|] == Again {
          return false, |moved|, moved;
        } else if !Moves(sends[|moved|]) {
          return true, |moved|, moved;
        } else {
          moved := SendNext(sends, moved, old(rx), old(rxOff), d);
        }
      }
      return false, |moved|, moved;
    }

    /** Lines 342-353 */
    method DropSpent()
      requires Valid() && rx != [] && rxOff == |rx[0]|
      modifies this`rx, this`rxOff
      ensures Valid() && rx == old(rx)[1..] && rxOff == 0 && Unread() == old(Unread())
    {
      FlattenHead(rx);
      rx, rxOff := rx[1..], 0;
    }

    /** One call of send() that moves bytes. */
    method SendNext(sends: seq<Outcome>, moved: seq<nat>, ghost chain: seq<seq<U8>>, ghost off: nat, ghost d: nat)
      returns (moved': seq<nat>)
      requires Valid() && rx != [] && rxOff < |rx[0]| && |moved| < |sends| && Moves(sends[|moved|])
      requires AllExact(sends, moved, chain, off) && At(rx, rxOff, chain, d, off + Sum(moved))
      modifies this`rxOff, this`toClient, pcb`rcvWnd, pcb`recved
      ensures Valid() && old(toClient) <= toClient && |toClient| == |old(toClient)| + Sum(moved') - Sum(moved)
      ensures |moved'| == |moved| + 1 && AllExact(sends, moved', chain, off)
      ensures At(rx, rxOff, chain, d, off + Sum(moved'))
      ensures old(WindowHolds()) ==> WindowHolds()
    {
      var avail := |rx[0]| - rxOff;
      var n := if sends[|moved|].n < avail then sends[|moved|].n else avail;
      NextPbuf(chain, d);
      assert n == avail ==> Boundary(chain, off + Sum(moved) + n);
      ExactMore(sends, moved, chain, off, n);
      SendSome(n);
      moved' := moved + [n];
    }

    /** Lines 356-364 */
    method SendSome(n: nat)
      requires Valid() && rx != [] && 0 < n <= |rx[0]| - rxOff
      modifies this`rxOff, this`toClient, pcb`rcvWnd, pcb`recved
      ensures Valid() && old(toClient) <= toClient && |toClient| == |old(toClient)| + n && rxOff == old(rxOff) + n
      ensures old(WindowHolds()) ==> WindowHolds()
    {
      assert rxOff + n <= |Flatten(rx)| by { FlattenHead(rx); }
      ghost var sent := Unread()[..n];
      SplitAfter(Flatten(rx), rxOff, n);
      rxOff := rxOff + n;
      toClient := toClient + sent;
      pcb.Recved(n);
    }

    /** Lines 681-684: the connection is done when the peer has closed and the chain is gone; then the client has
        been sent the peer's whole stream. */
    method Finished() returns (done: bool)
      requires Valid()
      ensures done <==> peerClosed && rx == []
      ensures done ==> toClient == pcb.stream
    {
      done := peerClosed && rx == [];
    }
  }

  lemma SplitAfter(f: seq<U8>, off: nat, n: nat)
    requires off + n <= |f|
    ensures f[off..] == f[off..][..n] + f[off + n..]
  {
  }

  lemma JoinChain(rx: seq<seq<U8>>, off: nat, data: seq<U8>, size: nat)
    requires 0 < size <= 0xFFFF && Small(rx) && off <= |Flatten(rx)|
    ensures var chain := rx + Pieces(data, size);
            Small(chain) && off <= |Flatten(chain)| && Flatten(chain)[off..] == Flatten(rx)[off..] + data
  {
    PiecesAre(data, size);
    FlattenConcat(rx, Pieces(data, size));
    assert (Flatten(rx) + data)[off..] == Flatten(rx)[off..] + data;
  }
}
