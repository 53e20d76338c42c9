# sys-amneziawg: a verified model

sys-amneziawg is a WireGuard-style tunnel for a games console. It carries its own fixed crypto (Poly1305 in 26-bit
limbs, X25519 in 32-bit limbs, ChaCha20, BLAKE2s), a Noise handshake with AmneziaWG framing, a session layer with
rekeying and an anti-replay window, and lwIP as its TCP/IP stack, on top of which a proxy relays connections. This
project models those parts in Dafny and proves that each agrees with a much simpler specification.

`dafny verify dfyconfig.toml` checks everything.

## What is proved

* **Poly1305** (`Poly1305.dfy`, `Poly1305Sum.dfy`). For every key and every message in every division into updates, the limb code with
  its lazy carries, masked selection and leftover buffer yields the tag of section 2.5 of RFC 8439, in closed form: the
  polynomial with the blocks for coefficients, at r, modulo 2^130 - 5, plus s, modulo 2^128. No 64-bit product or sum
  overflows, and the last carry of `poly1305_finish` cannot leave a limb out of range.
* **X25519** (`X25519*.dfy`). Every field operation, aliased or not, is congruent to the operation modulo 2^255 - 19
  and keeps the loose bound; the power chain computes z^(2^255 - 21) for every z; `canon` gives the least residue; the
  result is the 256-step ladder over the field, and -1 is returned exactly for a clamped zero result. For clamped
  scalars the extra first step multiplies both coordinates by one and the same power of 4 x1, which has an inverse
  whenever x1 has one: the end is the same projective point as that of the 255-step ladder of section 5 of RFC 7748.
  The step is the doubling and the differential addition of the curve v^2 = u^3 + 486662 u^2 + u, checked against its
  tangents and chords (`X25519Curve.dfy`), and for every notion of multiples that these formulas respect the ladder
  ends in the coordinates of the scalar times the point.
* **TCP reassembly** (`Tcp.dfy`, `TcpReceive.dfy`, `TcpRuns.dfy`). Whatever cuts of a stream arrive, in any order, the
  out-of-sequence queue stays sorted, disjoint and strictly beyond `rcv_nxt`; the application sees exactly the stream
  up to `rcv_nxt`; and `rcv_nxt` moves exactly to the first position that is not held. A segment moves the right edge
  of the window if and only if it is in sequence and what was queued behind it overruns the window (`EdgeLostIff`).
  What is queued, new or old, is kept if and only if the new segment does not start inside a queued one and end before
  it, and does not extend the last one from the same start. Over every run with a peer that keeps to the announced edge
  (`RunInside`) that edge never moves back, window plus unread bytes stay TCP_WND, and, if the peer repeats itself in the
  same pieces, delivery stops only at a position that has not arrived, in whatever order the others did.
* **The lwIP heap** (`Heap.dfy`, `HeapMerge.dfy`, `HeapAlloc.dfy`). Headers in a byte array, at byte precision. Blocks
  tile the heap, free neighbours never exist, `lfree` is the lowest free block, `mem_malloc` is a complete first fit,
  and no operation touches the data of a live allocation. An allocation, fresh or trimmed, wastes less than a smallest
  block. The whole layout is a function of the live allocations, so
  freeing undoes allocating.
* **Replay window and session** (`Session.dfy`). The shifting window refines a set of seen counters. Over every run no
  key pair accepts a counter twice, no handshake is promoted twice, no nonce is used twice (unless a key pair seals more
  than 2^64 datagrams, and then one certainly is), and a retired key pair opens nothing after three minutes. Which
  datagrams are accepted is stated exactly (`DataVerdict`): under the current key pair, and under the previous one for
  three minutes.
* **AEAD, framing, handshake** (`Aead.dfy`, `Transport.dfy`, `Noise.dfy`, `NoiseTranscript.dfy`). Decryption accepts exactly what encryption
  makes. A datagram is opened exactly when it was made for this receiver with this key; every rejection leaves the
  packet byte for byte as it was. Two honest roles complete the handshake exactly when none of the four shared secrets
  is zero, and then agree on everything: chaining key and running hash are folds of HMAC and hash over the lists that the
  protocol names, and every field of both messages is given.
* **Checksum** (`Checksum.dfy`), **BLAKE2s streaming** (`Blake2s.dfy`), **proxy** (`Proxy.dfy`).

Where the code differs from its comments, from a standard, or from TCP's window rule, the model follows the code:

* `source/awg_proxy.c:214-216` says that accepted equals completed + failed + closed + live. The sites at lines 284,
  298, 303, 310 and 484 count a connection both as failed and as closed, and `awg_proxy_stop` counts nothing.
  `CommentIdentity` gives the exact condition and `CommentIdentityFails` a run that breaks the sentence.
* `source/lwip/core/mem.c:777` asserts that the block being trimmed is not the last one. `TrimOfLastBlock` is a run in
  which it is; `Trim` says that the assertion fails if and only if the allocation reaches the end of the heap and has
  room for another block behind the new size. It compiles to nothing in this build, and the code below it handles the
  case.
* `source/lwip/core/tcp_in.c:1673-1675` says that of two segments with the same start the one with less data is
  discarded, and lines 1692-1695 that a shorter last one was cut at the window. A shorter last one that was sent that
  way stays, and the longer one is thrown away; `KeepsNewIff` gives the exact condition. A segment that starts inside a
  queued one and ends before it costs what lies behind it: `KeepsHeldIff`, and `OverlapLoses` for a run.
* `source/awg_session.c:163-166` says that the lengths of the message types do not collide. `LengthsCollide` says for
  which paddings they do, and `DeliveredIff` what that costs: a good datagram is accepted if and only if its length is
  not that of a response.
* `source/lwip/core/tcp_in.c:1655-1657` queues a segment without cutting it at the right edge when nothing is queued.
  `OverrunWraps` is a run in which `rcv_wnd` wraps around after that; `EdgeLostIff` gives the exact condition.
* `source/crypto/x25519.c` does not mask bit 255 of the input coordinate as RFC 7748 does; `UnmaskedCoordinate` says
  when the coordinate read is another one, and `UnmaskedResult` which one the result then belongs to.
* `source/awg_session.c` draws `reject_after_s` and `max_tries` and never uses them; nothing is claimed about them.

Machine words are bounded integers with wrap-around written out; C's bitwise operators are defined bit by bit in
`Bits.dfy`. Time, randomness, and the results of sockets, DNS and memory pools are parameters.

## Model

| member | source | states |
|---|---|---|
| `Poly1305.Mac` | source/crypto/poly1305-donna-32.h:45-219 | any message in any division into updates gets the tag of section 2.5 of RFC 8439, given as the polynomial with the blocks for coefficients at the clamped first half of the key, plus the second half |
| `Poly1305Sum.TagIsSum` | source/crypto/poly1305-donna-32.h:45-219 | the tag in closed form: the sum of (block i and a one bit above it) * r^(n - i) modulo 2^130 - 5, plus the second half of the key, modulo 2^128 |
| `Poly1305.Context.Blocks` | source/crypto/poly1305-donna-32.h:73-132 | after any number of blocks the limbs are congruent to the polynomial accumulator and within the loose bounds; the closing block gets no high bit |
| `Poly1305.Context.Update` | source/crypto/poly1305-donna.c:6-41 | streaming: after an update the context stands for the old message followed by the new bytes, with fewer than 16 held back |
| `Poly1305.Context.Finish` | source/crypto/poly1305-donna-32.h:134-219 | the digest of everything absorbed, short last block included; key and state are zeroed |
| `Poly1305.InitR` | source/crypto/poly1305-donna-32.h:49-54 | five masked overlapping reads equal the clamped first half of the key |
| `Poly1305.InitPad` | source/crypto/poly1305-donna-32.h:63-67 | the four pad words are the second half of the key |
| `Poly1305.BlockStep` | source/crypto/poly1305-donna-32.h:99-125 | one block: add with its high bit, multiply by r, reduce; congruent to the specification's step |
| `Poly1305Limbs.MultiplyReduce` | source/crypto/poly1305-donna-32.h:107-121 | no row of the product reaches 2^64, and the carried result is congruent to the product and within bounds |
| `Poly1305Limbs.FullyCarry` | source/crypto/poly1305-donna-32.h:152-164 | every limb ends below 2^26, the last `h1 += c` included, and the value is kept modulo the prime |
| `Poly1305Limbs.SubtractP` | source/crypto/poly1305-donna-32.h:166-174 | the wrapped top limb tells exactly whether the value reaches 2^130 - 5 |
| `Poly1305Limbs.SelectResidue` | source/crypto/poly1305-donna-32.h:166-185 | the unique residue below 2^130 - 5 is selected |
| `Poly1305Limbs.SelectIsMasked` | source/crypto/poly1305-donna-32.h:173-185 | the and/or masks are that selection |
| `Poly1305Limbs.Pack` | source/crypto/poly1305-donna-32.h:187-191 | repacking to 32-bit words loses nothing modulo 2^128 |
| `Poly1305Limbs.PackIsOr` | source/crypto/poly1305-donna-32.h:187-191 | shift and or equal addition for limbs in range |
| `Poly1305Limbs.EmitTag` | source/crypto/poly1305-donna-32.h:187-202 | the sixteen bytes are (value + pad) modulo 2^128 |
| `FieldLimbs.Umaal` | source/crypto/x25519.c:58-64 | multiply-accumulate of two words with carry fits two words |
| `FieldLimbs.Propagate` | source/crypto/x25519.c:79-93 | the result is the folded value: congruent, below 2^255 + 2^32, with no carry dropped |
| `FieldLimbs.Add` | source/crypto/x25519.c:95-102 | field addition on any limbs, aliased or not, loosely reduced |
| `FieldLimbs.Sub` | source/crypto/x25519.c:104-112 | field subtraction for a subtrahend below 2^256 - 38; the borrow given to propagate is 0 or 1 |
| `FieldLimbs.Mul` | source/crypto/x25519.c:132-153 | field product of all or the first nb limbs, aliased or not, loosely reduced |
| `FieldLimbs.FoldProduct` | source/crypto/x25519.c:147-151 | the upper half of the double-width product is folded in with factor 38 |
| `X25519Ladder.LadderStep` | source/crypto/x25519.c:205-229 | swap and both ladder parts on five registers are one step of the Montgomery ladder over the field |
| `Curve25519.Doubles` | source/crypto/x25519.c:205-229 | for every state, the first pair after a step is DoubleX and DoubleZ of the first pair, modulo the prime |
| `Curve25519.Adds` | source/crypto/x25519.c:205-229 | for every state, the second pair after a step is AddX and AddZ of both pairs, modulo the prime |
| `Curve25519.DoubleIs` | source/crypto/x25519.c:205-229 | DoubleX is (x^2 - z^2)^2 and DoubleZ is 4xz(x^2 + 486662xz + z^2) |
| `Curve25519.AddIs` | source/crypto/x25519.c:205-229 | AddX is 4(x2x3 - z2z3)^2 and AddZ is 4x1(x2z3 - z2x3)^2 |
| `Curve25519.TangentDoubles` | source/crypto/x25519.c:212-229 | for a point on the curve the doubling formulas are the coordinate where its tangent leads |
| `Curve25519.ChordAdds` | source/crypto/x25519.c:205-229 | for two points on the curve the addition formulas are what the chords through them and through one and the other's negative give |
| `LadderMeaning.LadderMultiplies` | source/crypto/x25519.c:245-262 | for every notion of multiples of a point that the formulas respect, the ladder ends in the coordinates of the number its bits stand for, times the point |
| `LadderMeaning.ResultMultiplies` | source/crypto/x25519.c:231-322 | what is returned is x times z^(2^255 - 21) for coordinates (x : z) of the scalar times the point |
| `LadderMeaning.ClampedBits` | source/crypto/x25519.c:246-255 | clamping sets bit 254, clears bit 255 and the lowest three, and keeps the others |
| `X25519Ladder.CondSwap` | source/crypto/x25519.c:159-165 | masked exchange of two register pairs |
| `X25519Ladder.ScalarBit` | source/crypto/x25519.c:246-255 | the bit of the clamped or raw scalar that the loop uses |
| `X25519Ladder.LadderLoop` | source/crypto/x25519.c:245-262 | 256 steps with delayed swaps equal the ladder over the field |
| `X25519.Core` | source/crypto/x25519.c:231-263 | the registers hold the ladder's result for the scalar and the coordinate modulo the prime |
| `X25519.PowerChain` | source/crypto/x25519.c:273-298 | the thirteen rows raise every z2 to the power 2^255 - 21 |
| `FieldPowers.FPowAdd` | source/crypto/x25519.c:290-298 | exponents add, which is what the chain rests on |
| `X25519.Canon` | source/crypto/x25519.c:167-201 | the least residue, and all ones exactly for zero |
| `X25519.ScalarMult` | source/crypto/x25519.c:265-322 | the output is x2 times z2^(2^255 - 21) of the 256-step ladder, reduced; -1 exactly for a zero result with clamp |
| `LadderTheory.LadderIsPlain` | source/crypto/x25519.c:245-262 | delaying the swaps gives the ladder of section 5 of RFC 7748 over the same bits |
| `LadderTheory.ClampedLadder` | source/crypto/x25519.c:231-263 | for a clamped scalar the 256-step ladder ends in the coordinates of the 255-step one, both multiplied by the same factor; the factor has an inverse when x1 has one, so that each end is a multiple of the other |
| `LadderTheory.ClampedResult` | source/crypto/x25519.c:231-322 | what is returned is the result of the 255-step ladder times a power of 4 x1, whose exponent is given |
| `LadderTheory.TopBitClear` | source/crypto/x25519.c:245-261 | a leading zero bit multiplies both coordinates by one and the same power of 4 x1 |
| `LadderTheory.UnmaskedCoordinate` | source/crypto/x25519.c:231-243 | the coordinate read is that of the masked encoding if and only if bit 255 is clear |
| `LadderTheory.UnmaskedResult` | source/crypto/x25519.c:231-322 | with bit 255 set the result is that of the masked coordinate plus 19 |
| `TcpQueue.OosInsert` | source/lwip/core/tcp_in.c:1063-1096 | the queue stays sorted and disjoint, holds exactly the union of positions, and keeps a FIN |
| `TcpQueue.FindPlace` | source/lwip/core/tcp_in.c:1681-1778 | the walk ends at the place where the segment belongs |
| `TcpQueue.InsertBetween` | source/lwip/core/tcp_in.c:1729-1753 | insertion between two segments: the earlier one gives way from the new start on, nothing else is lost |
| `TcpQueue.Replace` | source/lwip/core/tcp_in.c:1682-1714 | a longer segment with the same start takes over |
| `TcpQueue.Append` | source/lwip/core/tcp_in.c:1774-1805 | insertion at the end is cut at the right edge of the window, FIN included |
| `TcpQueue.Enqueue` | source/lwip/core/tcp_in.c:1655-1807 | exactly when an out-of-sequence segment is dropped, and what the queue holds otherwise; exactly when all of it that lies in the window is there afterwards, and exactly when nothing is lost that was there before; always strictly beyond rcv_nxt |
| `TcpQueue.KeepsNewIff` | source/lwip/core/tcp_in.c:1682-1714 | the new segment is held up to the window unless the last one queued starts where it does and ends earlier |
| `TcpQueue.KeepsHeldIff` | source/lwip/core/tcp_in.c:1736-1805 | everything queued stays unless the new segment starts inside a queued one and ends before it |
| `TcpQueue.KeepsFinIff` | source/lwip/core/tcp_in.c:1682-1805 | a FIN inside the window is kept unless the last segment queued starts where it does and has none |
| `Tcp.Pcb.Deliver` | source/lwip/core/tcp_in.c:1546-1609 | one segment handed over: the delivered bytes remain the stream up to rcv_nxt; u16 window update |
| `Tcp.Pcb.Drain` | source/lwip/core/tcp_in.c:1578-1614 | everything that has come into sequence is delivered, nothing beyond the first gap |
| `Tcp.Pcb.TakeInOrder` | source/lwip/core/tcp_in.c:1494-1614 | in-order data with the queue pruned and drained behind it |
| `Tcp.Pcb.InOrder` | source/lwip/core/tcp_in.c:1467-1614 | in-order data is cut at the window, a FIN beyond it dropped |
| `Tcp.TrimFrontIs` | source/lwip/core/tcp_in.c:1410-1449 | front trimming cuts exactly what lies before rcv_nxt, for positions less than 2^32 apart |
| `Tcp.WithinIs` | source/lwip/core/tcp_in.c:1410-1464 | the wrap-around interval test is exact on short intervals |
| `Tcp.Pcb.Receive` | source/lwip/core/tcp_in.c:1379-1807 | for any cut of the stream: in-order, out-of-order, duplicate and out-of-window cases, with the exact new rcv_nxt, queue and FIN; delivered bytes are exactly the stream up to rcv_nxt |
| `Tcp.Conserves` | source/lwip/core/tcp_in.c:1463-1552 | a segment inside the window keeps the queue inside it and the right edge in place, so rcv_wnd never underflows |
| `Tcp.EdgeLostIff` | source/lwip/core/tcp_in.c:1463-1614 | for every segment, by the state before it: the right edge moves if and only if the segment is in sequence, everything from its end to the edge is queued, and so is the position at the edge |
| `Tcp.StaysBelow` | source/lwip/core/tcp_in.c:1463-1807 | a peer that keeps below any position inside the window keeps queue and rcv_nxt below it |
| `Tcp.OverrunWraps` | source/lwip/core/tcp_in.c:1655-1657 | a concrete peer outside the window makes rcv_wnd wrap to 64537 |
| `Tcp.Pcb.Input` | source/lwip/core/tcp_in.c:517-546 | the FIN's place is returned to the window; window plus unread bytes stay TCP_WND |
| `Tcp.Pcb.InputInside` | source/lwip/core/tcp_in.c:517-546 | a segment below the announced edge keeps the edge inside the window, the queue below it, and the window law |
| `Tcp.Pcb.Recved` | source/lwip/core/tcp.c:971-994 | the window grows by what was read, capped at TCP_WND, for every u16 overflow |
| `TcpRuns.Run` | source/lwip/core/tcp_in.c:1379-1807 | over every sequence of arrivals and reads, for a stream of any length, the application gets a prefix of the stream, and all of it once the end is seen; an arrival only has to be within 2^32 of rcv_nxt |
| `TcpRuns.RunInside` | source/lwip/core/tcp_in.c:1379-1807 | over every run with a peer that keeps to the announced edge: window plus unread bytes are TCP_WND, the edge never moves back and follows what is read; with a peer that repeats itself in the same pieces, all that has arrived is delivered up to the first position that has not, in whatever order, and so is the end |
| `TcpRuns.ArrivalHolds` | source/lwip/core/tcp_in.c:1379-1807 | whatever a steady peer sends inside the window is delivered or queued, and nothing that was queued is lost |
| `TcpRuns.OverlapLoses` | source/lwip/core/tcp_in.c:1736-1752 | a run in which 30 bytes have arrived and 14 are delivered, because a repeated piece started inside a queued one |
| `Tcp.Transfer` | source/lwip/core/tcp_in.c:1379-1614 | nothing gets stuck: a stream of any length, across wraps of the sequence space, is delivered completely and with its end |
| `Tcp.OneChunk` | source/lwip/core/tcp_in.c:1467-1614 | a chunk into an empty queue moves rcv_nxt on by exactly that chunk and leaves the queue empty |
| `Tcp.UpdateRcvAnnWnd` | source/lwip/core/tcp.c:933-960 | inside the window the announced right edge never moves back and never passes the window; an edge beyond the window is announced again, as far as 16 bits reach; the inflation reported is exact |
| `TcpRuns.Announce` | source/lwip/core/tcp.c:933-960 | announcing keeps the edge inside the window, never moves it back, and leaves at most a small part of the window unannounced |
| `Tcp.Aliases` | source/lwip/core/tcp_in.c:1410-1464 | positions 2^32 apart have the same sequence number, so the bounds on arrivals are tight |
| `HeapLayout.Tiles` | source/lwip/core/mem.c:460-532 | every byte lies in exactly one block |
| `HeapLayout.LiveDisjoint` | source/lwip/core/mem.c:603-963 | live allocations are disjoint |
| `HeapLayout.LiveDecides` | source/lwip/core/mem.c:447-458 | the layout is determined by the live allocations: free blocks are exactly the gaps |
| `HeapMemory.LinkRep` | source/lwip/core/mem.c:741-790 | writing a new header and relinking its neighbours represents the layout with that block |
| `HeapMemory.JoinRep` | source/lwip/core/mem.c:470-497 | relinking over a swallowed header represents the layout without that block |
| `HeapMemory.HeadersOnly` | source/lwip/core/mem.c:460-532 | relinking never touches user data |
| `Heap.Heap.constructor` | source/lwip/core/mem.c:502-531 | one free block and an end sentinel |
| `Heap.Heap.Malloc` | source/lwip/core/mem.c:817-963 | NULL exactly for a zero or illegal size or when no free block is large enough; otherwise the lowest free block that is, and less is wasted than a smallest block takes; other data untouched |
| `Heap.Heap.FindFit` | source/lwip/core/mem.c:857-874 | starting at lfree misses no block: the first fit of the whole heap |
| `Heap.LegalIs` | source/lwip/core/mem.c:826-843 | sizes up to 49152 are legal and are rounded up to 12 or to the next multiple of 4 |
| `Heap.AcceptedIs` | source/lwip/core/mem.c:537-551 | the checks of mem_free pass a block start exactly when it is allocated |
| `Heap.RefusedPointers` | source/lwip/core/mem.c:537-640 | what the checks of mem_free refuse, byte by byte: NULL, misaligned, out of range, not marked used, links out of range or not returned |
| `Heap.Heap.Free` | source/lwip/core/mem.c:603-674 | rejected pointers change nothing; otherwise exactly that allocation leaves, and the heap is fully coalesced |
| `Heap.Heap.PlugForward` | source/lwip/core/mem.c:470-482 | the block behind is swallowed when free |
| `Heap.Heap.PlugBackward` | source/lwip/core/mem.c:484-497 | the block in front swallows when free; afterwards no two neighbours are free |
| `Heap.Heap.Trim` | source/lwip/core/mem.c:685-807 | NULL when growing is asked for, with nothing touched; otherwise the slack left is less than a smallest block, and none when the block behind was free; the assertion at line 777 fails if and only if the allocation is the last block and is split |
| `Heap.TrimOfLastBlock` | source/lwip/core/mem.c:768-790 | a run in which the assertion fails: the only allocation takes the whole heap and is trimmed |
| `Heap.Heap.Store` | source/lwip/core/mem.c:603-963 | writing inside a live allocation keeps the heap intact |
| `Heap.FreeUndoesMalloc` | source/lwip/core/mem.c:603-963 | freeing what was just allocated restores the layout |
| `Replay.ReplayOk` | source/awg_session.c:121-154 | accepted if and only if never accepted before and less than 64 behind the highest; the two words keep representing the set |
| `SessionSpec.StepGood` | source/awg_session.c:56-253 | every step keeps the invariant, and no key pair that has left comes back |
| `SessionSpec.RunSafe` | source/awg_session.c:14-253 | over every run: promotions and accepted (key, counter) pairs are distinct, and sealed pairs are distinct unless some key sealed more than 2^64 |
| `SessionSpec.RunOnward` | source/awg_session.c:156-253 | over every run: history only grows and a key pair that can no longer open never opens again |
| `SessionSpec.AcceptedInTime` | source/awg_session.c:201-244 | an accepted datagram is new and opened under the current key pair, or one retired at most 180000 ms before |
| `SessionSpec.DataVerdict` | source/awg_session.c:201-253 | a data datagram is accepted, and reported by its length, exactly when the current key pair opens it, or the previous one does within 180000 ms of its retirement, and its counter is new to that key pair and less than 64 behind |
| `SessionSpec.AnswerVerdict` | source/awg_session.c:167-199 | an answered handshake becomes the current key pair with a fresh counter and retires the one in use; an unanswered one changes nothing |
| `SessionSpec.SealedGood` | source/awg_session.c:77-102 | sealing keeps the counters distinct exactly until the 2^64-th datagram |
| `SessionSpec.PromotedGood` | source/awg_session.c:176-198 | a promotion starts an empty window and retires the key pair in use with its window |
| `SessionSpec.LengthsCollide` | source/awg_session.c:163-171 | exactly which paddings give some data datagram the length of a response |
| `SessionSpec.DeliveredIff` | source/awg_session.c:163-244 | while a handshake is outstanding a fresh datagram that the current key opens is accepted if and only if its length is not that of a response |
| `Session.Session.OnDatagram` | source/awg_session.c:156-253 | response, expiry, both keys in order, replay check: exactly the specified step and result |
| `Session.Session.BuildInitiation` | source/awg_session.c:56-75 | a new handshake replaces the pending one even when building fails |
| `Session.Session.BuildData` | source/awg_session.c:77-102 | the counter moves on exactly when a datagram was sealed |
| `Session.Session.Wipe` | source/awg_session.c:14-16 | after a wipe or a new start no key pair can open anything and no handshake is outstanding |
| `ChaCha20.Cipher.Apply` | source/crypto/chacha20.c:117-140 | the buffer is xored with the key stream, in place or not; the block counter advances by the blocks used |
| `ChaCha20Spec.CryptTwice` | source/crypto/chacha20.c:117-140 | the cipher is its own inverse |
| `ChaCha20Spec.CryptPart` | source/crypto/chacha20.c:117-140 | block-wise processing equals the flat key stream |
| `ChaCha20Spec.CryptByte` | source/crypto/chacha20.c:117-140 | byte i is xored with byte i mod 64 of the block i div 64 further on |
| `ChaCha20Spec.InitWords` | source/crypto/chacha20.c:149-166 | the state is the constants, the key, a zero counter and the nonce as little-endian words |
| `Aead.Encrypt` | source/crypto/chacha20poly1305.c:67-105 | the buffer gets the sealed text of section 2.8 of RFC 8439 and nothing else changes, for every length the 32-bit masks can round |
| `Aead.Decrypt` | source/crypto/chacha20poly1305.c:108-162 | succeeds exactly when the tag is right; writes nothing otherwise |
| `Aead.GeneratePolyKey` | source/crypto/chacha20poly1305.c:49-64 | the one-time key is the start of block 0, and the cipher is left at block 1 |
| `Aead.CryptoEqual` | source/crypto/crypto.c:15-21 | true exactly for equal bytes |
| `AeadSpec.OpenIffSealed` | source/crypto/chacha20poly1305.c:67-162 | opening gives a text if and only if the input is that text sealed |
| `AeadTheory.SealedByte` | source/crypto/chacha20poly1305.c:67-105 | each byte of the text is xored with the key stream from block 1 on |
| `AeadTheory.PolyKeyByte` | source/crypto/chacha20poly1305.c:49-64 | the one-time key is the first half of block 0 |
| `AeadTheory.AuthDataLayout` | source/crypto/chacha20poly1305.c:78-100 | what is authenticated: additional data and ciphertext, each zero-filled to a multiple of 16, and both lengths |
| `AeadTheory.AuthDataInjective` | source/crypto/chacha20poly1305.c:78-100 | no two pairs of additional data and ciphertext are authenticated alike |
| `TransportSpec.OpenIffDatagram` | source/awg_noise.c:406-490 | a datagram opens to a counter and text if and only if it was made of them for this index and key |
| `TransportSpec.OpenUndoesSeal` | source/awg_noise.c:406-490 | opening a sealed payload gives it back, zero-padded to 16, with its counter |
| `TransportSpec.HeaderReads` | source/awg_noise.c:394-404 | the header's three numbers read back exactly |
| `TransportSpec.DatagramLayout` | source/awg_noise.c:406-441 | a datagram is the padding, the veiled header, and the text sealed under its counter |
| `TransportSpec.VeilByte` | source/awg_noise.c:336-367 | a protected message is xored byte by byte with the header key stream |
| `TransportSpec.HeaderWords` | source/awg_noise.c:336-346 | the header cipher takes its nonce from the first twelve bytes of the padding |
| `TransportSpec.PaddedIs` | source/awg_noise.c:406-441 | padding adds the zeros that lead to the next multiple of 16 and no more |
| `TransportSpec.WrappedLayout` | source/awg_noise.c:348-367 | a wrapped message is the padding and the veiled message |
| `Transport.TransportSeal` | source/awg_noise.c:406-441 | -1 exactly when header protection lacks a nonce or the buffer is too small; otherwise the specified datagram |
| `Transport.TransportOpen` | source/awg_noise.c:443-490 | agrees with the specification; every rejection leaves packet and output byte-identical |
| `Transport.Wrap` | source/awg_noise.c:348-367 | the padded and veiled message, or -1 |
| `Transport.Unwrap` | source/awg_noise.c:369-387 | the message in the clear, or -1 with nothing changed |
| `TransportSpec.UnwrapUndoesWrap` | source/awg_noise.c:348-387 | unwrapping undoes wrapping |
| `Noise.Handshake.constructor` | source/awg_noise.c:156-166 | keys and index in place, nothing established |
| `Noise.Handshake.CreateInitiation` | source/awg_noise.c:168-210 | the initiation of the transcript, or failure exactly for a zero secret |
| `Noise.Handshake.ConsumeInitiation` | source/awg_noise.c:212-244 | accepted exactly when type, mac1, both secrets and both sealed fields are right; learns chain and static key |
| `Noise.Handshake.CreateResponse` | source/awg_noise.c:246-281 | the response and the transport keys, or failure exactly for a zero secret |
| `Noise.Handshake.ConsumeResponse` | source/awg_noise.c:283-315 | accepted exactly for the confirming tag; a response rejected late has moved the chain on, exactly as stated |
| `NoiseSpec.LearnsInitiator` | source/awg_noise.c:176-244 | the responder recovers the initiator's static key and chain from a genuine initiation |
| `Noise.Exchange` | source/awg_noise.c:156-315 | given DH commutativity: completes iff no secret is zero; then equal chains, crosswise keys, exchanged indices; the chaining key is the HMAC fold over both ephemeral keys, the four secrets and the preshared key in order, the hash the fold over everything public, the transport keys its two outputs; every field of both messages |
| `NoiseTranscript.InitiationFolds` | source/awg_noise.c:168-210 | what an initiation mixes into key and hash, and how its two fields are sealed, in terms of hash, HMAC and AEAD |
| `NoiseTranscript.ResponseFolds` | source/awg_noise.c:246-315 | the same for a response, from any chain: ephemeral key, ee, se and the preshared key go into the key |
| `NoiseTranscript.FailedFolds` | source/awg_noise.c:259-303 | how far the chain has got when a secret is zero |
| `NoiseTranscript.AcceptedInitiation` | source/awg_noise.c:212-244 | an accepted initiation has the right type and mac1, and its fields are sealed for the static key that is learned |
| `NoiseTranscript.AcceptedResponse` | source/awg_noise.c:283-315 | an accepted response has the right type, index and mac1, and confirms the keys |
| `NoiseTranscript.InitiationWire` | source/awg_noise.c:190-210 | every byte of an initiation |
| `NoiseTranscript.ResponseWire` | source/awg_noise.c:266-281 | every byte of a response |
| `Checksum.StandardChksum` | source/lwip/core/inet_chksum.c:132-173 | the one's-complement sum for either alignment, with no 32-bit overflow up to 0x20000 bytes |
| `Checksum.SumChain` | source/lwip/core/inet_chksum.c:262-280 | fold and swap over a chain equal the sum of the concatenation |
| `Checksum.ChksumPbuf` | source/lwip/core/inet_chksum.c:567-588 | the complement of the flat sum, zero and 0xFFFF told apart |
| `Checksum.ChksumPseudo` | source/lwip/core/inet_chksum.c:258-327 | the complement of the sum over pseudo header and data |
| `Checksum.PseudoHeaderLayout` | source/lwip/core/inet_chksum.c:286-327 | addresses, zero, protocol and length, in network order |
| `Checksum.ByteOrder` | source/lwip/core/inet_chksum.c:128-130 | the host-order sum is the network-order sum with its bytes swapped (RFC 1071, section 2) |
| `ChecksumTheory.SumIs` | source/lwip/core/inet_chksum.c:132-173 | the sum of all words modulo 0xFFFF, zero only when every byte is |
| `Checksum.ChecksumVerifies` | source/lwip/core/inet_chksum.c:567-588 | data followed by its checksum sums to 0xFFFF |
| `Blake2s.Context.Update` | source/crypto/blake2s.c:105-121 | streaming: the context stands for the old input followed by the new; a full last block is held back |
| `Blake2s.Context.Count` | source/crypto/blake2s.c:113-115 | the two words count bytes modulo 2^64 |
| `Blake2s.Context.Init` | source/crypto/blake2s.c:75-103 | refuses illegal lengths; a key is one zero-filled block |
| `Blake2s.Context.Final` | source/crypto/blake2s.c:123-142 | the digest of everything taken in |
| `Blake2s.Digest` | source/crypto/blake2s.c:75-156 | any division into updates gives the hash of section 3.3 of RFC 7693 |
| `Blake2sTheory.HashSteps` | source/crypto/blake2s.c:75-156 | the hash as a chain of states: start value, block by index, byte count, last flag, and the digest bytes |
| `ProxyTable.Table.Accept` | source/awg_proxy.c:639-654 | a slot is found exactly when one is unused |
| `ProxyTable.Table.FailAndClose` | source/awg_proxy.c:284-311 | one exit, counted as failed and as closed |
| `ProxyTable.Table.HangUp` | source/awg_proxy.c:656-663 | one exit, counted as closed only |
| `ProxyTable.Table.OnErr` | source/awg_proxy.c:268-277 | one exit, counted as failed only |
| `ProxyTable.Table.OnResolved` | source/awg_proxy.c:292-313 | stale callbacks change nothing; the slot connects or leaves |
| `ProxyTable.Table.OnHello` | source/awg_proxy.c:463-488 | how a slot fares while the hostname is looked for, an immediate DNS answer included |
| `ProxyTable.Table.SweepIdle` | source/awg_proxy.c:541-557 | exactly the idle slots leave, across the wrap of the clock |
| `ProxyTable.Table.Complete` | source/awg_proxy.c:681-684 | one exit, counted as completed |
| `ProxyTable.Table.Stop` | source/awg_proxy.c:688-692 | all slots leave, uncounted |
| `ProxyTable.Table.LiveCount` | source/awg_proxy.c:694-700 | the number of slots in use |
| `ProxyTable.CommentIdentity` | source/awg_proxy.c:213-218 | the comment's identity holds if and only if as many were counted twice as left through stop |
| `ProxyTable.CommentIdentityFails` | source/awg_proxy.c:480-484 | one refused DNS request breaks it |
| `ProxyRelay.Conn.ReadClient` | source/awg_proxy.c:442-461 | bytes read from the client = bytes written to the pcb followed by the buffer |
| `ProxyRelay.Conn.PumpUp` | source/awg_proxy.c:318-333 | exactly as many buffered bytes go to the pcb as it has room for, in order |
| `ProxyRelay.Conn.OnSegment` | source/awg_proxy.c:248-266 | bytes given to on_recv = bytes sent to the client followed by the unread chain, after exactly what tcp_receive specifies; the window law holds |
| `ProxyRelay.Conn.PumpDown` | source/awg_proxy.c:336-369 | sends until the chain is gone or the socket is full or broken, and says which; each send moves what it reports, up to the end of a pbuf; acknowledged bytes are exactly the sent ones, and the window law holds |
| `ProxyRelay.Conn.Finished` | source/awg_proxy.c:679-684 | a completed connection has sent the client the peer's whole stream |

## Left out

- The ChaCha20 rounds, BLAKE2s compression, HMAC and the keyed MAC enter as fixed functions; so does Diffie-Hellman in the handshake, and the only fact assumed about it is that it commutes.
- That the points of the curve form a group under chords and tangents: LadderMultiplies takes any notion of multiples that the formulas respect.
- Whether 2^255 - 19 is prime, and every claim of cryptographic strength.
- The ACK, congestion, RTT and retransmission half of tcp_receive, tcp_slowtmr and SACK.
- Tcp.Pcb: the linked list ooseq is a sequence of values; pbuf sharing and reference counts are not modelled. Refused data is left out because on_recv never refuses.
- Heap.Heap.Free: a pointer that is not the start of a block but whose garbage header passes every check is excluded; the heap has no way to tell.
- Heap.Heap.Trim: a pointer inside the heap that is not that of a live allocation is excluded; mem_trim does not check for it and follows whatever lies in front of it.
- mem_calloc, the overflow checks and statistics of the heap, and locking.
- Session.Session: key material is a number per handshake, and the outcomes of awg_consume_response, awg_transport_open and awg_transport_seal are inputs; needs_handshake, needs_keepalive and age_s, which only decide when to call and what to show, and the log counters are not modelled.
- Aead.Encrypt: texts and additional data beyond 0xFFFFFFF0 bytes, where the code's 32-bit mask cuts length bits off.
- Aead.Decrypt: texts of 2^31 bytes or more, which the code counts in an int; additional data as for sealing.
- ProxyTable.Table: 32-bit wrap-around of the counters, so the identities hold for fewer than 2^32 connections; DNS answers are arbitrary and not tied to the slot's current host.
- ProxyRelay.Conn: sockets, the ClientHello parser, the deny list and polling; results of send and recv are inputs.
- awg_config.c, awg_obf.c, awg_ipprobe.c, dns.c, the console and host entry points and the port layer.
