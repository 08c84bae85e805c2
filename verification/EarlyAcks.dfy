/** Acknowledgements a client sends before it knows any number of the server's. They carry the number
    0, and are harmless exactly while no packet of the server's window has a number that wraps
    to 0. */
module EarlyAcks {
  import opened Serial
  import opened Protocol
  import opened Conservation
  import opened Sack
  import opened Channel
  import opened ChannelSender
  import opened EndToEnd
  import opened GiveUp
  import FlushCursor

  /** Was the packet sent before its sender knew where the other side's numbers start? */
  predicate Early(p: Packet, t: Tag) {
    p.typ != StSyn && t.ackno == UNKNOWN
  }

  ghost predicate ZeroInWindow(s: SendState) {
    exists n :: Head(s) <= n < s.next && W(n) == 0
  }

  /** How an acknowledgement of the number 0 is counted. */
  lemma ZeroIsCounted(s: SendState, y: int)
    requires s.count <= 1024 && y == W(s.next - 1)
    ensures AckAcceptable(W(s.next), s.count, 0) <==> y <= s.count + ACK_NR_ALLOWED_WINDOW
    ensures AckAcceptable(W(s.next), s.count, 0) ==>
              AckCount(W(s.next), s.count, 0) == if y < s.count then s.count - y else 0
  {
    AckWindowExact(W(s.next), s.count, 0);
    WDistance(s.next, 1);
    assert W(0 - (W(s.next) - 1 - s.count)) == W(s.count - y) by {
      WDistance(s.count, s.next - 1);
      WDistance(1 + s.count, s.next);
    }
    WSmall(s.count - y);
  }

  lemma ZeroIsAt(s: SendState, n: int)
    requires s.count <= 1024 && Head(s) <= n < s.next && W(n) == 0
    ensures W(s.next - 1) == s.next - 1 - n
  {
    WDistance(s.next - 1, n);
    WSmall(s.next - 1 - n);
  }

  /** The number 0 acknowledges a part of the window exactly if the window has a number that wraps
      to 0. */
  lemma ZeroCountsExactly(s: SendState)
    requires s.count <= 1024
    ensures AckAcceptable(W(s.next), s.count, 0) && AckCount(W(s.next), s.count, 0) > 0 <==> ZeroInWindow(s)
  {
    var y: int := W(s.next - 1);
    ZeroIsCounted(s, y);
    if y < s.count {
      ZeroIsThere(s, y);
    }
    forall n | Head(s) <= n < s.next && W(n) == 0
      ensures y == s.next - 1 - n
    {
      ZeroIsAt(s, n);
    }
  }

  lemma ZeroIsThere(s: SendState, y: int)
    requires y == W(s.next - 1) && y < s.count
    ensures ZeroInWindow(s)
  {
    var n := s.next - 1 - y;
    WDistance(s.next - 1, s.next - 1);
    WDistance(s.next - 1, W(s.next - 1));
    WSmall(0);
    assert W(n) == 0;
  }

  // ---------------------------------------------------------------- harmless ones

  /** When nothing is covered, an early acknowledgement covers received numbers only. */
  lemma EarlyCoversReceived(x: Sock, y: Sock, c: Record)
    requires ChannelInv(x, y, c) && !ZeroInWindow(x.send) && AckAcceptable(W(x.send.next), x.send.count, 0)
    ensures AckCount(W(x.send.next), x.send.count, 0) == 0
    ensures x.send.count == 0 ==> forall n :: n in c.h ==> n in G(y, c)
  {
    ZeroCountsExactly(x.send);
  }

  /** An early acknowledgement has no bit set: it could only speak of numbers nobody has received. */
  lemma EarlyMaskIsEmpty(s: SendState, y: Sock, c: Record, p: Packet, t: Tag)
    requires Early(p, t) && AckTruthful(p, t, y.recv.ack, G(y, c)) && p.sack.Some?
    requires forall n :: n in c.h ==> n >= -1
    ensures MaskTruthful(s, p.ackNr + 2, p.sack.value, G(y, c)) && |p.sack.value| <= 255
  {
    var mask := p.sack.value;
    forall bit: nat | bit < 32
      ensures !MaskBit(mask, bit)
    {
      assert t.ackno + 2 + bit !in G(y, c);
    }
  }

  lemma EarlyArrivesSide(x: Sock, y: Sock, c: Record, p: Packet, t: Tag, env: Env)
    requires ChannelInv(x, y, c) && Early(p, t) && AckTruthful(p, t, y.recv.ack, G(y, c))
    requires !ZeroInWindow(x.send) && AckAcceptable(W(x.send.next), x.send.count, p.ackNr) && c.first >= -1
    ensures SenderSide(ProcessAcks(x, p, env), c.h, c.first, G(y, c))
  {
    WSmall(0);
    assert p.ackNr == 0;
    EarlyCoversReceived(x, y, c);
    AdvanceSendWindowSide(x, p, 0, env, c.h, c.first, G(y, c));
    AdvanceSendWindowKeeps(x, p, 0, env);
    ProcessAcksIs(x, p, env);
    if p.sack.Some? {
      var x1 := AdvanceSendWindow(x, p, 0, env);
      EarlyMaskIsEmpty(x1.send, y, c, p, t);
      SelectiveAckSide(x1, p.ackNr + 2, p.sack.value, env, c.h, c.first, G(y, c));
    }
  }

  lemma EarlyArrivesInWindow(x: Sock, y: Sock, c: Record, p: Packet, t: Tag, env: Env)
    requires ChannelInv(x, y, c) && Early(p, t) && AckTruthful(p, t, y.recv.ack, G(y, c))
    requires !ZeroInWindow(x.send) && AckAcceptable(W(x.send.next), x.send.count, p.ackNr) && c.first >= -1
    ensures SenderSide(ProcessInWindow(x, p, IncomingOffset(x, p), env).0, c.h, c.first, G(y, c))
  {
    EarlyArrivesSide(x, y, c, p, t, env);
    var x1 := ProcessAcks(x, p, env);
    var x2 := ReopenWindow(x1, env);
    SameSide(x1, x2, c.h, c.first, G(y, c));
    DeliverDataSide(x2, p, IncomingOffset(x, p), env, c.h, c.first, G(y, c));
  }

  /** A harmless early acknowledgement arrives at the sender. */
  lemma EarlyArrives(x: Sock, y: Sock, c: Record, p: Packet, t: Tag, env: Env)
    requires ChannelInv(x, y, c) && Early(p, t) && AckTruthful(p, t, y.recv.ack, G(y, c))
    requires !ZeroInWindow(x.send) && c.first >= -1
    ensures ChannelInv(ProcessIncoming(x, p, env).0, y, c)
  {
    var x' := ProcessIncoming(x, p, env).0;
    if AckAcceptable(W(x.send.next), x.send.count, p.ackNr) {
      var x0 := LearnPeerNumber(x, p);
      SameForChannel(x, x0, y, c);
      EarlyArrivesInWindow(x0, y, c, p, t, env);
    }
    ArrivedSide(x, x', p, env, c.h, c.first, G(y, c));
    IncomingKeeps(x, p, env);
    FlushCursor.IncomingSettled(x, p, env);
    SenderMoves(x, x', y, c);
  }

  // ---------------------------------------------------------------- and the others

  /** Exactly when an early acknowledgement takes the head of a window, which has been sent, for
      received: when a packet of the window has a number that wraps to 0. */
  lemma EarlyTakesExactly(b: Sock, b': Sock, p: Packet, env: Env)
    requires SenderInv(b) && b.send.count > 0 && b.send.win[Head(b.send)].transmissions > 0
    requires p.typ == StState && p.ackNr == 0 && p.sack == None && b.state != SynSent
    requires IncomingOffset(b, p) < REORDER_BUFFER_MAX_SIZE && b' == ProcessIncoming(b, p, env).0
    ensures Head(b.send) !in b'.send.win <==> ZeroInWindow(b.send)
  {
    ZeroCountsExactly(b.send);
    if AckAcceptable(W(b.send.next), b.send.count, 0) {
      TakesHeadExactly(b, p, env);
    }
  }

  lemma LoneKeepsKeys(k: Sock)
    ensures SendLoneUnsent(k).send.win.Keys == k.send.win.Keys
  {
  }

  lemma TimeoutKeepsKeys(k: Sock)
    ensures FastTimeout(k).send.win.Keys == k.send.win.Keys
  {
  }

  /** The cumulative part decides: the rest takes nothing off the window. */
  lemma TailKeepsKeys(k: Sock)
    ensures FastTimeout(SendLoneUnsent(SkipAcked(k))).send.win.Keys == k.send.win.Keys
  {
    SkipAckedShrinks(k);
    LoneKeepsKeys(SkipAcked(k));
    TimeoutKeepsKeys(SendLoneUnsent(SkipAcked(k)));
  }

  lemma HeadIsTaken(k: Sock, acks: nat, env: Env)
    requires 0 < acks && k.send.count > 0 && Head(k.send) in k.send.win
    requires k.send.win[Head(k.send)].transmissions > 0
    ensures Head(k.send) !in AckCumulative(k, acks, env).send.win
  {
    var k1 := AckPacket(k, Head(k.send), env).0;
    AckCumulativeShrinks(k1.(send := k1.send.(count := k1.send.count - 1)), acks - 1, env);
  }

  lemma NotesFirst(b: Sock, k1: Sock, p: Packet, acks: nat)
    requires k1 == RaiseFastResend(AdvanceState(b, p, acks), p.ackNr)
    ensures k1.send.win == b.send.win && Head(k1.send) == Head(b.send) && k1.send.count == b.send.count
  {
  }

  lemma TakesHeadExactly(b: Sock, p: Packet, env: Env)
    requires SenderInv(b) && b.send.count > 0 && b.send.win[Head(b.send)].transmissions > 0 && p.sack == None
    ensures var acks := AckCount(W(b.send.next), b.send.count, p.ackNr);
            Head(b.send) !in ProcessAcks(b, p, env).send.win <==> acks > 0
  {
    var acks := AckCount(W(b.send.next), b.send.count, p.ackNr);
    var k1 := RaiseFastResend(AdvanceState(b, p, acks), p.ackNr);
    NotesFirst(b, k1, p, acks);
    if acks > 0 {
      HeadIsTaken(k1, acks, env);
    }
    TailKeepsKeys(AckCumulative(k1, acks, env));
  }

  lemma {:induction false} AckCumulativeShrinks(k: Sock, acks: nat, env: Env)
    ensures AckCumulative(k, acks, env).send.win.Keys <= k.send.win.Keys
    decreases acks
  {
    AckCumulativeResent(k, acks, env);
  }

  lemma SkipAckedShrinks(k: Sock)
    ensures SkipAcked(k).send.win == k.send.win
    decreases k.send.count
  {
    if k.send.count > 0 && Head(k.send) !in k.send.win {
      SkipAckedShrinks(k.(send := k.send.(count := k.send.count - 1)));
    }
  }
}
