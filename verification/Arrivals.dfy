/** When a packet that arrives is taken, kept or refused, whatever state the socket is in. */
module Arrivals {
  import opened Serial
  import opened Protocol
  import opened Conservation
  import opened Reorder
  import opened Channel
  import opened ChannelReceiver
  import opened ReorderRuns
  import opened FastResending
  import opened GiveUp
  import Ring

  /** Does a packet that is examined reach the receiving side? The socket must be connected, or be
      connected by it, and not be destroyed by what it acknowledges. */
  predicate Listens(k: Sock, p: Packet) {
    && p.typ != StState
    && (k.state == Connected || k.state == ConnectedFull || (k.state == SynRecv && p.typ == StData))
    && !EndsWith(k, p)
  }

  /** The packet acknowledges the whole window of a socket that is closing, its FIN included. */
  predicate EndsWith(k: Sock, p: Packet) {
    && k.send.closeRequested && k.send.finSent
    && k.send.count == AckCount(W(k.send.next), k.send.count, p.ackNr)
  }

  /** The receiving side is as it was, and nothing was shown. */
  ghost predicate Untouched(k: Sock, k': Sock) {
    k'.recv == k.recv && Delivered(k'.events) == Delivered(k.events)
  }

  lemma StateAfterAcks(k: Sock, k2: Sock, p: Packet, env: Env)
    requires k2 == ReopenWindow(ProcessAcks(k, p, env), env) && p.typ != StState
    ensures k2.state == Connected || k2.state == ConnectedFull <==> Listens(k, p)
  {
    ProcessAcksResent(k, p, env);
  }

  lemma AcksAreSpoken(k: Sock, k2: Sock, p: Packet, env: Env)
    requires k2 == ReopenWindow(ProcessAcks(k, p, env), env)
    ensures Untouched(k, k2) && k2.recv.readShutdown == k.recv.readShutdown
  {
    InWindowIs(k, k2, ProcessInWindow(k, p, 0, env).0, p, 0, env);
    AcksKeepReceiver(k, p, env);
  }

  lemma AckCumulativeRecv(k: Sock, acks: nat, env: Env)
    ensures AckCumulative(k, acks, env).recv == k.recv
    decreases acks
  {
  }

  lemma SkipAckedRecv(k: Sock)
    ensures SkipAcked(k).recv == k.recv
    decreases k.send.count
  {
  }

  lemma SackScanRecv(c: Scan, base: int, mask: Mask, bits: int, env: Env)
    requires -2 <= bits < 8 * |mask|
    ensures SackScan(c, base, mask, bits, env).sock.recv == c.sock.recv
    decreases bits + 2
  {
  }

  lemma ResendLastRecv(k: Sock, resends: seq<U16>, budget: nat)
    ensures ResendLast(k, resends, budget).recv == k.recv
    decreases |resends|
  {
  }

  lemma SelectiveAckRecv(k: Sock, base: int, mask: Mask, env: Env)
    ensures SelectiveAck(k, base, mask, env).recv == k.recv
  {
    if k.send.count != 0 {
      var c := SackScan(Scan(k, 0, []), base, mask, 8 * |mask| - 1, env);
      SackScanRecv(Scan(k, 0, []), base, mask, 8 * |mask| - 1, env);
      ResendLastRecv(c.sock, SackCandidates(c, base), MAX_RESENDS);
    }
  }

  lemma TailRecv(k: Sock)
    ensures FastTimeout(SendLoneUnsent(k)).recv == k.recv
  {
  }

  lemma AcksKeepReceiver(k: Sock, p: Packet, env: Env)
    ensures ProcessAcks(k, p, env).recv == k.recv
  {
    var acks := AckCount(W(k.send.next), k.send.count, p.ackNr);
    var k1 := RaiseFastResend(AdvanceState(k, p, acks), p.ackNr);
    assert k1.recv == k.recv;
    AckCumulativeRecv(k1, acks, env);
    SkipAckedRecv(AckCumulative(k1, acks, env));
    TailRecv(SkipAcked(AckCumulative(k1, acks, env)));
    if p.sack.Some? {
      SelectiveAckRecv(AdvanceSendWindow(k, p, acks, env), p.ackNr + 2, p.sack.value, env);
    }
  }

  // ---------------------------------------------------------------- in order

  /** The number delivered last does not fall, what was shown stays, and what is known of the end of
      the stream stays. */
  ghost predicate Onward(k: Sock, k': Sock) {
    && k'.recv.ack >= k.recv.ack && Delivered(k.events) <= Delivered(k'.events)
    && k'.recv.gotFin == k.recv.gotFin && k'.recv.eofPkt == k.recv.eofPkt
  }

  lemma PostEofOnward(k: Sock, env: Env)
    ensures Onward(k, PostEof(k, env))
  {
    DeliveredOne(k.events, OnEof);
  }

  lemma DrainedOnward(k: Sock, data: Bytes)
    requires k.recv.reorderCount > 0
    ensures Onward(k, Drained(k, data))
  {
    DeliveredOne(k.events, OnRead(data));
  }

  lemma {:induction false} DrainOnward(k: Sock, env: Env)
    ensures Onward(k, Drain(k, env))
    decreases k.recv.reorderCount
  {
    var k1 := PostEof(k, env);
    PostEofOnward(k, env);
    if k1.recv.reorderCount != 0 && Ring.Get(k1.recv.inbuf, k1.recv.ack + 1).Some? {
      var data := Ring.Get(k1.recv.inbuf, k1.recv.ack + 1).value;
      DrainedOnward(k1, data);
      DrainOnward(Drained(k1, data), env);
      OnwardThen(k1, Drained(k1, data), Drain(Drained(k1, data), env));
      OnwardThen(k, k1, Drain(Drained(k1, data), env));
      assert Drain(k, env) == Drain(Drained(k1, data), env);
    }
  }

  lemma OnwardThen(k: Sock, k1: Sock, k2: Sock)
    requires Onward(k, k1) && Onward(k1, k2)
    ensures Onward(k, k2)
  {
  }

  lemma InOrderGoesOn(k: Sock, k': Sock, payload: Bytes, env: Env)
    requires k' == DeliverInOrder(k, payload, env)
    ensures k'.recv.ack > k.recv.ack && k'.ackPending
    ensures k'.recv.gotFin == k.recv.gotFin && k'.recv.eofPkt == k.recv.eofPkt
    ensures Delivered(k.events) + (if k.recv.readShutdown then [] else payload) <= Delivered(k'.events)
  {
    var k2 := ReadNext(k, payload);
    DrainOnward(k2, env);
    assert k' == Drain(k2, env).(ackPending := true);
  }

  /** The packet itself, before what follows it. */
  lemma ReadNext(k: Sock, payload: Bytes) returns (k2: Sock)
    ensures var k1 := Read(k, payload); k2 == k1.(recv := k1.recv.(ack := k1.recv.ack + 1))
    ensures k2.recv == k.recv.(ack := k.recv.ack + 1)
    ensures Delivered(k2.events) == Delivered(k.events) + if k.recv.readShutdown then [] else payload
  {
    var k1 := Read(k, payload);
    k2 := k1.(recv := k1.recv.(ack := k1.recv.ack + 1));
    DeliveredOne(k.events, OnRead(payload));
  }

  /** What is left of an examined packet once its acknowledgements have been processed. */
  lemma ExaminedIs(k: Sock, k2: Sock, r: (Sock, nat), p: Packet, env: Env)
    requires Examined(k, p) && k.state != SynSent && r == ProcessIncoming(k, p, env)
    requires k2 == ReopenWindow(ProcessAcks(k, p, env), env)
    ensures r == if Listens(k, p) then DeliverAt(NoteFin(k2, p), p, IncomingOffset(k, p), env) else (k2, 0)
    ensures Untouched(k, k2)
  {
    if p.typ != StState {
      StateAfterAcks(k, k2, p, env);
    }
    AcksAreSpoken(k, k2, p, env);
  }

  /** A packet that is examined, is next in order and finds the socket listening is taken: its number
      and its bytes are delivered, also while the socket's own window is full, and it will be
      acknowledged. */
  lemma InOrderIsTaken(k: Sock, k': Sock, taken: nat, p: Packet, env: Env)
    requires Examined(k, p) && k.state != SynSent && (k', taken) == ProcessIncoming(k, p, env)
    requires Listens(k, p) && IncomingOffset(k, p) == 0
    ensures taken == |p.payload| && k'.recv.ack > k.recv.ack && k'.ackPending
    ensures Delivered(k.events) + (if k.recv.readShutdown then [] else p.payload) <= Delivered(k'.events)
    ensures p.typ == StFin ==> k'.recv.gotFin && (!k.recv.gotFin ==> k'.recv.eofPkt == p.seqNr)
  {
    var k2 := ReopenWindow(ProcessAcks(k, p, env), env);
    ExaminedIs(k, k2, (k', taken), p, env);
    InOrderGoesOn(NoteFin(k2, p), k', p.payload, env);
  }

  // ---------------------------------------------------------------- above a gap

  /** The end of the stream is known, and the packet lies beyond it. */
  predicate PastEof(k: Sock, p: Packet) {
    k.recv.gotFin && IncomingOffset(k, p) > W(k.recv.eofPkt - k.recv.ack - 1)
  }

  /** A packet that is examined, is above a gap, not past the end of the stream, and finds the socket
      listening is held afterwards, once, with its own bytes if nothing was held under its number;
      and a new one will be acknowledged. One past the end of the stream changes nothing. */
  lemma AboveGapIsHeld(k: Sock, k': Sock, taken: nat, p: Packet, seqnr: nat, env: Env, m: map<int, Bytes>)
    requires Examined(k, p) && k.state != SynSent && (k', taken) == ProcessIncoming(k, p, env)
    requires Listens(k, p) && seqnr == IncomingOffset(k, p) && seqnr > 0 && Holds(k, m)
    ensures k'.recv.ack == k.recv.ack && Delivered(k'.events) == Delivered(k.events)
    ensures if PastEof(k, p) then k'.recv == k.recv && taken == 0
            else HeldAfter(k', taken, p, k.recv.ack + 1 + seqnr, m)
    ensures p.typ == StFin ==> k'.recv.gotFin && (!k.recv.gotFin ==> k'.recv.eofPkt == p.seqNr)
  {
    var k2 := ListenerTakes(k, k', taken, p, seqnr, env);
    AboveGapAfterAcks(k, k2, k', taken, p, seqnr, env, m);
  }

  lemma ListenerTakes(k: Sock, k': Sock, taken: nat, p: Packet, seqnr: nat, env: Env) returns (k2: Sock)
    requires Examined(k, p) && k.state != SynSent && (k', taken) == ProcessIncoming(k, p, env) && Listens(k, p)
    requires seqnr == IncomingOffset(k, p)
    ensures seqnr < REORDER_BUFFER_MAX_SIZE && Untouched(k, k2)
    ensures (k', taken) == DeliverAt(NoteFin(k2, p), p, seqnr, env)
  {
    k2 := ReopenWindow(ProcessAcks(k, p, env), env);
    ExaminedIs(k, k2, (k', taken), p, env);
  }

  lemma SameOffsets(k: Sock, k2: Sock, p: Packet)
    requires k2.recv == k.recv
    ensures IncomingOffset(k2, p) == IncomingOffset(k, p) && PastEof(k2, p) == PastEof(k, p)
    ensures p.seqNr == W(k.recv.ack + 1 + IncomingOffset(k, p))
  {
    NumberOfOffset(p.seqNr, k.recv.ack);
  }

  lemma AboveGapAfterAcks(k: Sock, k2: Sock, k': Sock, taken: nat, p: Packet, seqnr: nat, env: Env, m: map<int, Bytes>)
    requires Untouched(k, k2) && Stores(k.recv, m) && 0 < seqnr < REORDER_BUFFER_MAX_SIZE
    requires seqnr == IncomingOffset(k, p) && (k', taken) == DeliverAt(NoteFin(k2, p), p, seqnr, env)
    ensures k'.recv.ack == k.recv.ack && Delivered(k'.events) == Delivered(k.events)
    ensures if PastEof(k, p) then k'.recv == k.recv && taken == 0
            else HeldAfter(k', taken, p, k.recv.ack + 1 + seqnr, m)
    ensures p.typ == StFin ==> k'.recv.gotFin && (!k.recv.gotFin ==> k'.recv.eofPkt == p.seqNr)
  {
    SameOffsets(k, k2, p);
    DeliveredAboveGap(k2, k', taken, p, seqnr, env, m);
  }

  lemma DeliveredAboveGap(k: Sock, k': Sock, taken: nat, p: Packet, seqnr: nat, env: Env, m: map<int, Bytes>)
    requires Stores(k.recv, m) && 0 < seqnr < REORDER_BUFFER_MAX_SIZE && seqnr == IncomingOffset(k, p)
    requires p.seqNr == W(k.recv.ack + 1 + seqnr) && (k', taken) == DeliverAt(NoteFin(k, p), p, seqnr, env)
    ensures k'.recv.ack == k.recv.ack && k'.events == k.events
    ensures if PastEof(k, p) then k'.recv == k.recv && taken == 0
            else HeldAfter(k', taken, p, k.recv.ack + 1 + seqnr, m)
    ensures p.typ == StFin ==> k'.recv.gotFin && (!k.recv.gotFin ==> k'.recv.eofPkt == p.seqNr)
  {
    var k1 := NoteFin(k, p);
    EofOfFin(k, p);
    StoresRingOnly(k.recv, k1.recv, m);
    if PastEof(k, p) {
      PastEofIsRefused(k, p, seqnr, env);
    } else {
      HeldAboveGap(k1, k', taken, p, seqnr, env, m);
    }
  }

  lemma PastEofIsRefused(k: Sock, p: Packet, seqnr: nat, env: Env)
    requires PastEof(k, p) && seqnr == IncomingOffset(k, p) && seqnr > 0
    ensures NoteFin(k, p) == k && DeliverAt(k, p, seqnr, env) == (k, 0)
  {
  }

  /** What was held first is kept. */
  function Kept(m: map<int, Bytes>, n: int, data: Bytes): map<int, Bytes> {
    if n in m then m else m[n := data]
  }

  /** The number `n` is held, under what it was held with before if it was. */
  ghost predicate HeldAfter(k': Sock, taken: nat, p: Packet, n: int, m: map<int, Bytes>) {
    && Stores(k'.recv, Kept(m, n, p.payload))
    && taken == (if n in m then 0 else |p.payload|)
    && (n !in m ==> k'.ackPending)
  }

  lemma EofOfFin(k: Sock, p: Packet)
    ensures PastEof(NoteFin(k, p), p) == PastEof(k, p)
    ensures PastEof(k, p) ==> NoteFin(k, p) == k
    ensures IncomingOffset(NoteFin(k, p), p) == IncomingOffset(k, p)
    ensures p.typ == StFin ==>
              NoteFin(k, p).recv.gotFin && (!k.recv.gotFin ==> NoteFin(k, p).recv.eofPkt == p.seqNr)
  {
  }

  lemma HeldAboveGap(k: Sock, k': Sock, taken: nat, p: Packet, seqnr: nat, env: Env, m: map<int, Bytes>)
    requires Stores(k.recv, m) && 0 < seqnr < REORDER_BUFFER_MAX_SIZE && p.seqNr == W(k.recv.ack + 1 + seqnr)
    requires !PastEof(k, p) && seqnr == IncomingOffset(k, p) && (k', taken) == DeliverAt(k, p, seqnr, env)
    ensures HeldAfter(k', taken, p, k.recv.ack + 1 + seqnr, m)
    ensures k'.recv.ack == k.recv.ack && k'.events == k.events
    ensures k'.recv.gotFin == k.recv.gotFin && k'.recv.eofPkt == k.recv.eofPkt
  {
    StoreOutOfOrderExact(k.recv, p, seqnr, m);
    assert (k', taken) == Buffer(k, p, seqnr);
  }

  // ---------------------------------------------------------------- refused

  /** A packet that is examined but does not find the socket listening leaves the receiving side as it
      was. */
  lemma UnheardIsDropped(k: Sock, k': Sock, taken: nat, p: Packet, env: Env)
    requires Examined(k, p) && k.state != SynSent && (k', taken) == ProcessIncoming(k, p, env) && !Listens(k, p)
    ensures taken == 0 && Untouched(k, k')
  {
    ExaminedIs(k, ReopenWindow(ProcessAcks(k, p, env), env), (k', taken), p, env);
  }

  /** Passes the acknowledgement check, but lies up to 1,024 numbers below the next one. */
  predicate JustBehind(k: Sock, p: Packet) {
    && ((p.typ == StSyn && k.state == SynRecv) || AckAcceptable(W(k.send.next), k.send.count, p.ackNr))
    && IncomingOffset(k, p) >= MOD16 - REORDER_BUFFER_MAX_SIZE
    && p.typ != StState
  }

  /** A packet that is not examined changes nothing, except that one just behind, a repetition, will be
      acknowledged again. */
  lemma UnexaminedIsDropped(k: Sock, p: Packet, env: Env)
    requires !Examined(k, p) && k.state != SynSent
    ensures ProcessIncoming(k, p, env) == (k.(ackPending := k.ackPending || JustBehind(k, p)), 0)
  {
  }

  /** While connecting, nothing is taken. */
  lemma ConnectingTakesNothing(k: Sock, k': Sock, taken: nat, p: Packet, env: Env)
    requires k.state == SynSent && p.typ != StState && (k', taken) == ProcessIncoming(k, p, env)
    ensures taken == 0 && Delivered(k'.events) == Delivered(k.events) && k'.state != Connected
  {
    var k0 := LearnPeerNumber(k, p);
    var k2 := ReopenWindow(ProcessAcks(k0, p, env), env);
    StateAfterAcks(k0, k2, p, env);
    AcksAreSpoken(k0, k2, p, env);
  }

  /** So the number delivered last moves exactly when the next packet in order is examined and finds the
      socket listening. */
  lemma AdvancesExactly(k: Sock, k': Sock, p: Packet, env: Env, m: map<int, Bytes>)
    requires k.state != SynSent && Holds(k, m) && k' == ProcessIncoming(k, p, env).0
    ensures k'.recv.ack != k.recv.ack <==> Examined(k, p) && Listens(k, p) && IncomingOffset(k, p) == 0
  {
    var taken := ProcessIncoming(k, p, env).1;
    if !Examined(k, p) {
      UnexaminedIsDropped(k, p, env);
    } else if !Listens(k, p) {
      UnheardIsDropped(k, k', taken, p, env);
    } else if IncomingOffset(k, p) == 0 {
      InOrderIsTaken(k, k', taken, p, env);
    } else {
      AboveGapIsHeld(k, k', taken, p, IncomingOffset(k, p), env, m);
    }
  }
}
