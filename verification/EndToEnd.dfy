/** Two sockets and a network that loses, duplicates and reorders packets.

    The network is every packet either socket has ever sent: at any time any of them may
    arrive, any number of times, or never. */
module EndToEnd {
  import opened Serial
  import opened Protocol
  import opened Conservation
  import opened FlushCursor
  import opened Sack
  import opened Reorder
  import opened Channel
  import opened ChannelSender
  import opened ChannelReceiver

  const MAX_AGE := 64512

  /** If the packet carries a part of the stream, its number is less than 64,512 behind what the
      socket that gets it has received. */
  predicate FrameRecent(k: Sock, p: Packet, t: Tag) {
    p.typ != StSyn && p.typ != StState ==> k.recv.ack - t.seqno < MAX_AGE
  }

  /** What the packet acknowledges is less than 64,512 behind what the socket that gets it has sent.
      (The number in a SYN means nothing.) */
  predicate AckRecent(k: Sock, p: Packet, t: Tag) {
    p.typ != StSyn ==> k.send.next - 1 - t.ackno < MAX_AGE
  }

  // ---------------------------------------------------------------- calls at the sender

  /** A call that writes nothing and takes off the window only what was received. */
  lemma SenderMoves(x: Sock, x': Sock, y: Sock, c: Record)
    requires ChannelInv(x, y, c) && SenderInv(x') && SenderSide(x', c.h, c.first, G(y, c))
    requires x'.send.next == x.send.next
    requires forall n :: Frozen(x.send.win, n) ==> Frozen(x'.send.win, n)
    ensures ChannelInv(x', y, c)
  {
  }

  /** `h'` continues `h` from `next` on and keeps everything received. */
  ghost predicate Continues(h: History, h': History, first: int, next: int, next': int, G: set<int>) {
    && next <= next'
    && (forall n :: n in h <==> first <= n < next)
    && (forall n :: n in h' <==> first <= n < next')
    && (forall n :: n in G ==> n in h && h'[n] == h[n])
    && (next - 1 in h && h[next - 1].typ == StFin ==> next' == next && h' == h)
  }

  lemma ReceivedUndisturbed(h: History, h': History, first: int, next: int, next': int, ack: int, m: map<int, Bytes>)
    requires Continues(h, h', first, next, next', Received(h, ack, m)) && ack < next && forall n :: n in m ==> n in h
    ensures Received(h', ack, m) == Received(h, ack, m)
  {
  }

  lemma DeliveredUndisturbed(events: seq<Event>, shut: bool, ack: int, h: History, h': History, first: int, next: int,
                             next': int,
                             m: map<int, Bytes>, upTo: int)
    requires Continues(h, h', first, next, next', Received(h, ack, m)) && ack < next
    requires DeliveredOk(events, shut, ack, h, first, upTo)
    ensures DeliveredOk(events, shut, ack, h', first, upTo)
  {
    forall n | first + 1 <= n < upTo + 1
      ensures Conservation.Ring.Lookup(h, n) == Conservation.Ring.Lookup(h', n)
    {
      assert n in Received(h, ack, m);
    }
    StreamAgrees(h, h', first + 1, upTo + 1);
  }

  lemma StoredUndisturbed(h: History, h': History, first: int, next: int, next': int, ack: int, m: map<int, Bytes>)
    requires Continues(h, h', first, next, next', Received(h, ack, m)) && StoredOk(m, h)
    ensures StoredOk(m, h')
  {
    assert forall n :: n in m ==> n in Received(h, ack, m);
  }

  /** The receiver's picture of the stream is not disturbed when it grows. */
  lemma StreamGrows(y: Sock, h: History, h': History, first: int, next: int, next': int, m: map<int, Bytes>, upTo: int)
    requires ReceiverSide(y, h, first, next, m, upTo)
    requires Continues(h, h', first, next, next', Received(h, y.recv.ack, m))
    ensures Received(h', y.recv.ack, m) == Received(h, y.recv.ack, m)
    ensures ReceiverSide(y, h', first, next', m, upTo)
  {
    var r := y.recv;
    StoredUndisturbed(h, h', first, next, next', r.ack, m);
    ReceivedUndisturbed(h, h', first, next, next', r.ack, m);
    DeliveredUndisturbed(y.events, r.readShutdown, r.ack, h, h', first, next, next', m, upTo);
    EofUndisturbed(r, h, h', next, next', Received(h, r.ack, m));
  }

  lemma EofUndisturbed(r: RecvState, h: History, h': History, next: int, next': int, G: set<int>)
    requires EofOk(r, h, next, G) && r.ack < next <= next'
    requires forall n :: n in G ==> n in h && n in h' && h'[n] == h[n]
    requires forall n :: n in h ==> n < next
    requires next - 1 in h && h[next - 1].typ == StFin ==> next' == next && h' == h
    ensures EofOk(r, h', next', G)
  {
  }

  lemma WriteContinues(x: Sock, x': Sock, h: History, h': History, first: int, G: set<int>, data: Bytes)
    requires SenderSide(x, h, first, G) && SenderSide(x', h', first, G) && Extends(x.send, h, x'.send, h', first, data)
    requires !x.send.finSent
    requires forall n :: n in G ==> n in h && Frozen(x.send.win, n)
    ensures Continues(h, h', first, x.send.next, x'.send.next, G)
    ensures forall n :: n in G ==> Frozen(x'.send.win, n)
  {
  }

  lemma SenderWrites(x: Sock, x': Sock, y: Sock, c: Record, h': History, data: Bytes) returns (c': Record)
    requires ChannelInv(x, y, c) && SenderInv(x') && SenderSide(x', h', c.first, G(y, c))
    requires Extends(x.send, c.h, x'.send, h', c.first, data)
    requires !x.send.finSent
    ensures c' == c.(h := h', written := c.written + data)
    ensures ChannelInv(x', y, c')
  {
    c' := c.(h := h', written := c.written + data);
    WriteExtends(x, x', y, c, h', data);
    Assemble(x', y, c');
  }

  lemma WriteExtends(x: Sock, x': Sock, y: Sock, c: Record, h': History, data: Bytes)
    requires ChannelInv(x, y, c) && SenderSide(x', h', c.first, G(y, c)) && !x.send.finSent
    requires Extends(x.send, c.h, x'.send, h', c.first, data)
    ensures Received(h', y.recv.ack, c.m) == G(y, c) && ReceiverSide(y, h', c.first, x'.send.next, c.m, c.upTo)
    ensures forall n :: n in G(y, c) ==> Frozen(x'.send.win, n)
    ensures c.written + data == Stream(h', c.first + 1, x'.send.next)
  {
    WriteContinues(x, x', c.h, h', c.first, G(y, c), data);
    StreamGrows(y, c.h, h', c.first, x.send.next, x'.send.next, c.m, c.upTo);
  }

  lemma Assemble(x: Sock, y: Sock, c: Record)
    requires SenderInv(x) && SenderSide(x, c.h, c.first, Received(c.h, y.recv.ack, c.m))
    requires ReceiverSide(y, c.h, c.first, x.send.next, c.m, c.upTo)
    requires forall n :: n in Received(c.h, y.recv.ack, c.m) ==> Frozen(x.send.win, n)
    requires c.written == Stream(c.h, c.first + 1, x.send.next)
    ensures ChannelInv(x, y, c)
  {
  }

  lemma WritevKeeps(x: Sock, y: Sock, c: Record, data: Bytes, env: Env) returns (c': Record)
    requires ChannelInv(x, y, c)
    ensures ChannelInv(Writev(x, data, env).0, y, c')
    ensures Writev(x, data, env).1 <= |data| && c'.written == c.written + data[..Writev(x, data, env).1]
    ensures c'.first == c.first
  {
    c' := c;
    var (x', sent) := Writev(x, data, env);
    if x.state == Connected && !x.send.finSent {
      WriteChunksKeeps(x, data, env);
      FirstIsReceived(x, y, c);
      var h' := WriteChunksSide(x, data, env, c.h, c.first, G(y, c));
      c' := SenderWrites(x, x', y, c, h', data[..sent]);
    } else {
      assert data[..0] == [] && c.written + [] == c.written;
    }
  }

  lemma FirstIsReceived(x: Sock, y: Sock, c: Record)
    requires ChannelInv(x, y, c)
    ensures c.first in c.h && Frozen(x.send.win, c.first)
  {
    assert c.first in G(y, c);
  }

  lemma SendFinStep(x: Sock, y: Sock, c: Record, env: Env) returns (c': Record)
    requires ChannelInv(x, y, c) && !x.send.finSent
    ensures ChannelInv(SendFin(x, env), y, c') && c'.written == c.written && c'.first == c.first
  {
    SendFinKeeps(x, env);
    var h' := SendFinSide(x, env, c.h, c.first, G(y, c));
    c' := SenderWrites(x, SendFin(x, env), y, c, h', []);
    assert c.written + [] == c.written;
  }

  /** The parts of a sender that a channel speaks about. */
  lemma SameForChannel(x: Sock, x': Sock, y: Sock, c: Record)
    requires ChannelInv(x, y, c)
    requires x'.send.win == x.send.win && x'.send.next == x.send.next && x'.send.count == x.send.count
    requires x'.send.ringSize == x.send.ringSize && x'.ctl.curWindow == x.ctl.curWindow
    requires x'.send.finSent == x.send.finSent && x'.send.finSentAcked == x.send.finSentAcked
    requires x'.out == x.out && x'.tags == x.tags
    ensures ChannelInv(x', y, c)
  {
    SameWindow(x, x');
    SameSide(x, x', c.h, c.first, G(y, c));
  }

  lemma CloseStep(x: Sock, y: Sock, c: Record, env: Env) returns (c': Record)
    requires ChannelInv(x, y, c)
    ensures ChannelInv(Close(x, env), y, c') && c'.written == c.written && c'.first == c.first
  {
    c' := c;
    var k1 := MarkReadShutdown(x);
    var k2 := k1.(send := k1.send.(closeRequested := true));
    SameForChannel(x, k2, y, c);
    if (x.state == Connected || x.state == ConnectedFull) && !k2.send.finSent {
      c' := SendFinStep(k2, y, c, env);
    } else {
      SameForChannel(x, Close(x, env), y, c);
    }
  }

  lemma ShutdownStep(x: Sock, y: Sock, c: Record, how: How, env: Env) returns (c': Record)
    requires ChannelInv(x, y, c)
    ensures ChannelInv(Shutdown(x, how, env), y, c') && c'.written == c.written && c'.first == c.first
  {
    c' := c;
    var k1 := if how != ShutWr then MarkReadShutdown(x) else x;
    SameForChannel(x, k1, y, c);
    if (x.state == Connected || x.state == ConnectedFull) && how != ShutRd && !k1.send.finSent {
      c' := SendFinStep(k1, y, c, env);
    }
  }

  lemma RtoExpiredFrozen(k: Sock, probeTimedOut: bool)
    ensures var k' := RtoExpired(k, probeTimedOut).0;
            k'.send.next == k.send.next && forall n :: Frozen(k.send.win, n) ==> Frozen(k'.send.win, n)
  {
  }

  lemma CheckTimeoutsFrozen(k: Sock, timers: Timers, before: Env, after: Env)
    ensures var k' := CheckTimeouts(k, timers, before, after);
            k'.send.next == k.send.next && forall n :: Frozen(k.send.win, n) ==> Frozen(k'.send.win, n)
  {
    FlushScanFrozen(k, FlushSpan(k.send), true, before);
    FlushScanShape(k, FlushSpan(k.send), true, before);
    RunTimersFrozen(FlushUnlessDestroyed(k, before), timers, after);
  }

  lemma RunTimersFrozen(k: Sock, timers: Timers, env: Env)
    ensures var k' := RunTimers(k, timers, env);
            k'.send.next == k.send.next && forall n :: Frozen(k.send.win, n) ==> Frozen(k'.send.win, n)
  {
    var k1 := LiftZeroWindow(k, timers);
    RtoExpiredFrozen(k1, timers.probeTimedOut);
    TailFrozen(MaybeExpire(k1, timers).0, timers, env);
  }

  lemma TailFrozen(k: Sock, timers: Timers, env: Env)
    ensures KeepAlive(ReopenWindow(k, env), timers, env).send == k.send
  {
  }

  lemma TimeoutsStep(x: Sock, y: Sock, c: Record, timers: Timers, before: Env, after: Env)
    requires ChannelInv(x, y, c)
    ensures ChannelInv(CheckTimeouts(x, timers, before, after), y, c)
  {
    CheckTimeoutsKeeps(x, timers, before, after);
    CheckTimeoutsSide(x, timers, before, after, c.h, c.first, G(y, c));
    CheckTimeoutsFrozen(x, timers, before, after);
    SenderMoves(x, CheckTimeouts(x, timers, before, after), y, c);
  }

  lemma SendAckStep(x: Sock, y: Sock, c: Record, env: Env)
    requires ChannelInv(x, y, c)
    ensures ChannelInv(SendAck(x, env), y, c)
  {
    SameWindow(x, SendAck(x, env));
    SendAckSide(x, env, c.h, c.first, G(y, c));
    SenderMoves(x, SendAck(x, env), y, c);
  }

  // ---------------------------------------------------------------- an acknowledgement arrives

  /** A truthful acknowledgement covers received numbers only. */
  lemma AcksAreReceived(x: Sock, y: Sock, c: Record, p: Packet, t: Tag)
    requires ChannelInv(x, y, c) && p.typ != StSyn && AckTruthful(p, t, y.recv.ack, G(y, c))
    requires x.send.next - 1 - t.ackno < MAX_AGE
    requires AckAcceptable(W(x.send.next), x.send.count, p.ackNr)
    ensures var acks := AckCount(W(x.send.next), x.send.count, p.ackNr);
            && (forall n :: Head(x.send) <= n < Head(x.send) + acks ==> n in G(y, c))
            && (x.send.count == acks ==> forall n :: n in c.h ==> n in G(y, c))
    ensures Head(x.send) - 4 <= t.ackno < x.send.next
  {
    AckCountExact(x.send.next, x.send.count, t.ackno);
    FreshDataIsNear(x, y, c);
    var acks := AckCount(W(x.send.next), x.send.count, p.ackNr);
    if x.send.count == acks {
      assert y.recv.ack == x.send.next - 1;
    }
  }

  lemma MaskIsTruthful(s: SendState, y: Sock, c: Record, p: Packet, t: Tag, head: int)
    requires p.typ != StSyn && AckTruthful(p, t, y.recv.ack, G(y, c)) && p.sack.Some?
    requires s.next - 1024 <= head <= s.next && forall n :: n in s.win ==> head <= n < s.next
    requires head - 4 <= t.ackno < s.next
    ensures MaskTruthful(s, p.ackNr + 2, p.sack.value, G(y, c))
  {
    var mask := p.sack.value;
    forall n | n in s.win && Covers(p.ackNr + 2, mask, 8 * |mask|, n)
      ensures n in G(y, c)
    {
      var bit := n - (t.ackno + 2);
      assert W(n - (p.ackNr + 2)) == W(bit) by {
        WDistance(n - 2, t.ackno);
      }
      WSmall(bit);
      assert W(bit) < 32;
      assert t.ackno + 2 + bit == n;
    }
  }

  lemma CumulativeArrives(x: Sock, x1: Sock, y: Sock, c: Record, p: Packet, t: Tag, env: Env)
    requires ChannelInv(x, y, c) && p.typ != StSyn && AckTruthful(p, t, y.recv.ack, G(y, c))
    requires x.send.next - 1 - t.ackno < MAX_AGE
    requires AckAcceptable(W(x.send.next), x.send.count, p.ackNr)
    requires x1 == AdvanceSendWindow(x, p, AckCount(W(x.send.next), x.send.count, p.ackNr), env)
    ensures SenderSide(x1, c.h, c.first, G(y, c)) && Within(x1.send)
    ensures x1.send.next == x.send.next && forall n :: n in x1.send.win ==> Head(x.send) <= n < x.send.next
    ensures Head(x.send) - 4 <= t.ackno < x.send.next
  {
    AcksAreReceived(x, y, c, p, t);
    var acks := AckCount(W(x.send.next), x.send.count, p.ackNr);
    AdvanceSendWindowSide(x, p, acks, env, c.h, c.first, G(y, c));
    AdvanceSendWindowKeeps(x, p, acks, env);
    AdvanceSendWindowSettled(x, p, acks, env);
  }

  lemma SackArrives(x1: Sock, x2: Sock, y: Sock, c: Record, p: Packet, t: Tag, head: int, env: Env)
    requires SenderSide(x1, c.h, c.first, G(y, c)) && Within(x1.send) && p.typ != StSyn
    requires AckTruthful(p, t, y.recv.ack, G(y, c))
    requires x1.send.next - 1024 <= head <= x1.send.next && forall n :: n in x1.send.win ==> head <= n < x1.send.next
    requires head - 4 <= t.ackno < x1.send.next
    requires x2 == if p.sack.Some? then SelectiveAck(x1, p.ackNr + 2, p.sack.value, env) else x1
    ensures SenderSide(x2, c.h, c.first, G(y, c))
  {
    if p.sack.Some? {
      MaskIsTruthful(x1.send, y, c, p, t, head);
      SelectiveAckSide(x1, p.ackNr + 2, p.sack.value, env, c.h, c.first, G(y, c));
    }
  }

  lemma ProcessAcksIs(x: Sock, p: Packet, env: Env)
    ensures var x1 := AdvanceSendWindow(x, p, AckCount(W(x.send.next), x.send.count, p.ackNr), env);
            ProcessAcks(x, p, env) == if p.sack.Some? then SelectiveAck(x1, p.ackNr + 2, p.sack.value, env) else x1
  {
  }

  lemma AckArrivesSide(x: Sock, y: Sock, c: Record, p: Packet, t: Tag, env: Env)
    requires ChannelInv(x, y, c) && p.typ != StSyn && AckTruthful(p, t, y.recv.ack, G(y, c))
    requires x.send.next - 1 - t.ackno < MAX_AGE
    requires AckAcceptable(W(x.send.next), x.send.count, p.ackNr)
    ensures SenderSide(ProcessAcks(x, p, env), c.h, c.first, G(y, c))
  {
    var x1 := AdvanceSendWindow(x, p, AckCount(W(x.send.next), x.send.count, p.ackNr), env);
    CumulativeArrives(x, x1, y, c, p, t, env);
    ProcessAcksIs(x, p, env);
    SackArrives(x1, ProcessAcks(x, p, env), y, c, p, t, Head(x.send), env);
  }

  lemma AckArrivesKeeps(x: Sock, y: Sock, c: Record, p: Packet, t: Tag, env: Env)
    requires ChannelInv(x, y, c) && p.typ != StSyn && AckTruthful(p, t, y.recv.ack, G(y, c))
    requires x.send.next - 1 - t.ackno < MAX_AGE
    requires AckAcceptable(W(x.send.next), x.send.count, p.ackNr)
    ensures SenderSide(ProcessInWindow(x, p, IncomingOffset(x, p), env).0, c.h, c.first, G(y, c))
  {
    AckArrivesSide(x, y, c, p, t, env);
    var x1 := ProcessAcks(x, p, env);
    var x2 := ReopenWindow(x1, env);
    SameSide(x1, x2, c.h, c.first, G(y, c));
    DeliverDataSide(x2, p, IncomingOffset(x, p), env, c.h, c.first, G(y, c));
  }

  lemma ArrivedSide(x: Sock, x': Sock, p: Packet, env: Env, h: History, first: int, G: set<int>)
    requires SenderSide(x, h, first, G) && x' == ProcessIncoming(x, p, env).0 && p.typ != StSyn
    requires var x0 := LearnPeerNumber(x, p);
             AckAcceptable(W(x.send.next), x.send.count, p.ackNr) ==>
               SenderSide(ProcessInWindow(x0, p, IncomingOffset(x0, p), env).0, h, first, G)
    ensures SenderSide(x', h, first, G)
  {
    var x0 := LearnPeerNumber(x, p);
    SameSide(x, x0, h, first, G);
    SameSide(x, x0.(ackPending := true), h, first, G);
    if AckAcceptable(W(x.send.next), x.send.count, p.ackNr) && IncomingOffset(x0, p) < REORDER_BUFFER_MAX_SIZE {
      assert x' == ProcessInWindow(x0, p, IncomingOffset(x0, p), env).0;
    } else {
      assert x' == x || x' == x0 || x' == x0.(ackPending := true);
    }
  }

  /** A packet from the receiver arrives at the sender. */
  lemma ArrivesAtSender(x: Sock, y: Sock, c: Record, p: Packet, t: Tag, env: Env)
    requires ChannelInv(x, y, c) && p.typ != StSyn && AckTruthful(p, t, y.recv.ack, G(y, c)) && AckRecent(x, p, t)
    ensures ChannelInv(ProcessIncoming(x, p, env).0, y, c)
  {
    var x' := ProcessIncoming(x, p, env).0;
    if AckAcceptable(W(x.send.next), x.send.count, p.ackNr) {
      var x0 := LearnPeerNumber(x, p);
      SameForChannel(x, x0, y, c);
      AckArrivesKeeps(x0, y, c, p, t, env);
    }
    ArrivedSide(x, x', p, env, c.h, c.first, G(y, c));
    IncomingKeeps(x, p, env);
    IncomingSettled(x, p, env);
    SenderMoves(x, x', y, c);
  }

  // ---------------------------------------------------------------- calls at the receiver

  lemma ReceiverSpeaks(x: Sock, y: Sock, y': Sock, c: Record)
    requires ChannelInv(x, y, c) && Spoke(y, y')
    ensures ChannelInv(x, y', c)
  {
    SpokeReceives(y, y', c.h, c.first, x.send.next, c.m, c.upTo);
  }

  lemma ReceiverAcks(x: Sock, y: Sock, y': Sock, c: Record, back: nat, env: Env)
    requires ChannelInv(x, y, c) && back <= 1 && y' == AckBack(y, back, env)
    ensures ChannelInv(x, y', c)
  {
    AckBackReceives(y, back, env, c.h, c.first, x.send.next, c.m, c.upTo);
  }

  lemma SendFinSpoke(k: Sock, k': Sock, env: Env)
    requires Spoke(k, k')
    ensures Spoke(k, SendFin(k', env))
  {
    var k1 := k'.(send := k'.send.(finSent := true));
    WriteOutgoingPacketSpoke(k1, StFin, [], env);
    SpokeTransitive(k, k', k1);
    SpokeTransitive(k, k1, SendFin(k', env));
  }

  lemma CloseSpoke(k: Sock, env: Env)
    ensures Spoke(k, Close(k, env))
  {
    var k1 := MarkReadShutdown(k);
    var k2 := k1.(send := k1.send.(closeRequested := true));
    SendFinSpoke(k, k2, env);
  }

  lemma ShutdownSpoke(k: Sock, how: How, env: Env)
    ensures Spoke(k, Shutdown(k, how, env))
  {
    SendFinSpoke(k, if how != ShutWr then MarkReadShutdown(k) else k, env);
  }

  lemma KeepAliveAtReceiver(x: Sock, y: Sock, c: Record, timers: Timers, env: Env)
    requires ChannelInv(x, y, c)
    ensures ChannelInv(x, KeepAlive(y, timers, env), c)
  {
    ReceiverAcks(x, y, SendKeepAlive(y, env), c, 1, env);
  }

  lemma TimeoutsAtReceiver(x: Sock, y: Sock, c: Record, timers: Timers, before: Env, after: Env)
    requires ChannelInv(x, y, c)
    ensures ChannelInv(x, CheckTimeouts(y, timers, before, after), c)
  {
    CheckTimeoutsSpoke(y, timers, before, after);
    var y0 := FlushUnlessDestroyed(y, before);
    ReceiverSpeaks(x, y, y0, c);
    if TimeoutActive(y0.state) {
      var (y1, alive) := MaybeExpire(LiftZeroWindow(y0, timers), timers);
      if alive {
        ReceiverSpeaks(x, y, ReopenWindow(y1, after), c);
        KeepAliveAtReceiver(x, ReopenWindow(y1, after), c, timers, after);
      } else {
        ReceiverSpeaks(x, y, y1, c);
      }
    }
  }

  /** Where a packet of the stream falls: a fresh one exactly where it belongs, an old one
      outside the receiver's window. */
  lemma OffsetOfPacket(y: Sock, p: Packet, n: int)
    requires p.seqNr == W(n) && y.recv.ack - n < MAX_AGE && n - y.recv.ack - 1 < REORDER_BUFFER_MAX_SIZE
    ensures if n > y.recv.ack then IncomingOffset(y, p) == n - y.recv.ack - 1
            else IncomingOffset(y, p) >= REORDER_BUFFER_MAX_SIZE
  {
    WDistance(n, y.recv.ack + 1);
    WSmall(n - y.recv.ack - 1);
  }

  /** The part of `process_incoming` before delivery, at the receiver. */
  lemma ArrivalSpoke(y: Sock, p: Packet, env: Env)
    ensures Spoke(y, ReopenWindow(ProcessAcks(y, p, env), env))
    ensures Spoke(y, y.(ackPending := true))
  {
    ProcessAcksSpoke(y, p, env);
  }

  lemma ReceiverTakes(x: Sock, y: Sock, y': Sock, c: Record, m': map<int, Bytes>, upTo': int, n: int)
    requires ChannelInv(x, y, c) && Frozen(x.send.win, n)
    requires ReceiverSide(y', c.h, c.first, x.send.next, m', upTo')
    requires Received(c.h, y'.recv.ack, m') == G(y, c) + {n}
    ensures ChannelInv(x, y', c.(m := m', upTo := upTo'))
  {
    MoreReceived(x, c.h, c.first, G(y, c), G(y, c) + {n});
  }

  lemma FrameIsNear(x: Sock, y: Sock, c: Record, n: int)
    requires ChannelInv(x, y, c) && n in c.h
    ensures n - y.recv.ack - 1 < REORDER_BUFFER_MAX_SIZE
  {
    FreshDataIsNear(x, y, c);
  }

  lemma FrameFits(x: Sock, y: Sock, c: Record, p: Packet, t: Tag)
    requires ChannelInv(x, y, c) && FrameOk(p, t, x.send.win, c.h) && p.typ != StState && t.seqno > y.recv.ack
    ensures Fits(y, c, x.send.next, p, t.seqno)
  {
    FreshDataIsNear(x, y, c);
  }

  lemma FrameDelivered(x: Sock, y1: Sock, y2: Sock, c: Record, p: Packet, t: Tag, env: Env) returns (c': Record)
    requires ChannelInv(x, y1, c) && FrameOk(p, t, x.send.win, c.h) && p.typ != StState && t.seqno > y1.recv.ack
    requires y2 == DeliverData(y1, p, t.seqno - y1.recv.ack - 1, env).0
    ensures ChannelInv(x, y2, c') && c'.written == c.written && c'.first == c.first
  {
    FrameFits(x, y1, c, p, t);
    var m', upTo' := DeliverDataReceives(y1, y2, c, x.send.next, p, t.seqno, env);
    c' := FrameTaken(x, y1, y2, c, t.seqno, m', upTo');
  }

  lemma FrameTaken(x: Sock, y1: Sock, y2: Sock, c: Record, n: int, m': map<int, Bytes>, upTo': int) returns (c': Record)
    requires ChannelInv(x, y1, c) && Frozen(x.send.win, n) && Took(y1, y2, c, x.send.next, n, m', upTo')
    ensures ChannelInv(x, y2, c') && c'.written == c.written && c'.first == c.first
  {
    c' := c.(m := m', upTo := upTo');
    ReceiverTakes(x, y1, y2, c, m', upTo', n);
  }

  /** The offset at which a frame is delivered is the true one. */
  lemma OffsetOfFrame(x: Sock, y: Sock, c: Record, p: Packet, t: Tag)
    requires ChannelInv(x, y, c) && FrameOk(p, t, x.send.win, c.h) && p.typ != StState
    requires y.recv.ack - t.seqno < MAX_AGE && IncomingOffset(y, p) < REORDER_BUFFER_MAX_SIZE
    ensures t.seqno > y.recv.ack && IncomingOffset(y, p) == t.seqno - y.recv.ack - 1
  {
    FrameIsNear(x, y, c, t.seqno);
    OffsetOfPacket(y, p, t.seqno);
  }

  lemma FrameAccepted(x: Sock, y: Sock, y1: Sock, y': Sock, c: Record, p: Packet, t: Tag, env: Env) returns (c': Record)
    requires ChannelInv(x, y, c) && FrameOk(p, t, x.send.win, c.h) && p.typ != StState && Spoke(y, y1)
    requires y.recv.ack - t.seqno < MAX_AGE && IncomingOffset(y, p) < REORDER_BUFFER_MAX_SIZE
    requires y' == DeliverData(y1, p, IncomingOffset(y, p), env).0
    ensures ChannelInv(x, y', c') && c'.written == c.written && c'.first == c.first
  {
    OffsetOfFrame(x, y, c, p, t);
    ReceiverSpeaks(x, y, y1, c);
    c' := FrameDelivered(x, y1, y', c, p, t, env);
  }

  lemma IncomingIs(y: Sock, p: Packet, env: Env)
    requires y.state != SynSent && p.typ != StSyn
    ensures var y' := ProcessIncoming(y, p, env).0;
            var y1 := ReopenWindow(ProcessAcks(y, p, env), env);
            || Spoke(y, y')
            || (&& Spoke(y, y1)
                && IncomingOffset(y, p) < REORDER_BUFFER_MAX_SIZE
                && p.typ != StState
                && y' == DeliverData(y1, p, IncomingOffset(y, p), env).0)
  {
    ArrivalSpoke(y, p, env);
  }

  /** A packet from the sender arrives at the receiver. */
  lemma ArrivesAtReceiver(x: Sock, y: Sock, y': Sock, c: Record, p: Packet, t: Tag, env: Env) returns (c': Record)
    requires ChannelInv(x, y, c) && FrameOk(p, t, x.send.win, c.h) && FrameRecent(y, p, t)
    requires p.typ != StSyn && y' == ProcessIncoming(y, p, env).0
    ensures ChannelInv(x, y', c') && c'.written == c.written && c'.first == c.first
  {
    IncomingIs(y, p, env);
    if Spoke(y, y') {
      ReceiverSpeaks(x, y, y', c);
      c' := c;
    } else {
      c' := FrameAccepted(x, y, ReopenWindow(ProcessAcks(y, p, env), env), y', c, p, t, env);
    }
  }
}
