/** How far the cursor of `flush_packets` falls behind, and what comes of it.

    A flush that is not stopped by a full window leaves the cursor at most one number behind. A
    flush that is stopped before its first packet leaves it where it was, and packets can leave
    the window without it: so nothing bounds the distance over runs, and 16 bits mistake it. */
module CursorLag {
  import opened Serial
  import opened Protocol
  import opened Conservation
  import opened FlushCursor

  // ---------------------------------------------------------------- catching up

  lemma {:induction false} ScanCatchesUp(k: Sock, k': Sock, left: nat, env: Env)
    requires left <= k.send.count && (k', false) == FlushScan(k, left, true, env)
    requires left > 0 || k.send.flushScanStart == W(k.send.next)
    ensures k'.send.next == k.send.next
    ensures k'.send.flushScanStart == W(k.send.next) || k'.send.flushScanStart == W(k.send.next - 1)
            || (left == 1 && k'.send.flushScanStart == k.send.flushScanStart)
    decreases left
  {
    if left > 0 {
      var n := k.send.next - left;
      var cursor := W(n + 1);
      if Settled(k.send.win, n) {
        ScanCatchesUp(WithCursor(k, cursor), k', left - 1, env);
      } else if left != 1 || k.send.count == 1 || |k.send.win[n].payload| >= env.packetSize {
        ScanCatchesUp(WithCursor(SendPacket(k, n), cursor), k', left - 1, env);
      } else {
        assert k' == FlushScan(k, 0, false, env).0;
      }
    }
  }

  lemma SpanToLag(s: SendState)
    requires FlushSpan(s) < s.count < MOD16
    ensures s.flushScanStart == W(s.next - FlushSpan(s))
  {
    var ahead: int := W(s.flushScanStart - Head(s));
    WDistance(Head(s), -ahead);
    WDistance(s.flushScanStart - Head(s), -Head(s));
    assert W(Head(s) + ahead) == s.flushScanStart;
  }

  /** After a flush of a window with packets that was not stopped because the window is full, the
      cursor is at the next number, or at the last packet if that is held back to be filled up. */
  lemma FlushCatchesUp(k: Sock, env: Env)
    requires 0 < k.send.count < MOD16 && !Flush(k, env).1
    ensures var s' := Flush(k, env).0.send; s'.next == k.send.next && Lag(s') <= 1
  {
    var s := k.send;
    if FlushSpan(s) < s.count {
      SpanToLag(s);
    }
    ScanCatchesUp(k, Flush(k, env).0, FlushSpan(s), env);
    WDistance(s.next, s.next);
    WDistance(s.next, s.next - 1);
    WSmall(0);
    WSmall(1);
  }

  // ---------------------------------------------------------------- falling behind

  /** A connected client with an empty window. */
  ghost predicate Idling(k: Sock) {
    && SenderInv(k) && k.state == Connected && !k.send.finSent && k.send.count == 0
    && !k.ctl.fastTimeout && k.send.maxWindowUser >= 1400
  }

  /** Room for one byte, but not for a whole packet. */
  const TIGHT := Env(1400, 100, 1400, 1000)

  /** The server acknowledges everything below `n`. */
  function AckBelow(k: Sock, n: int): Packet {
    Packet(StState, W(k.recv.ack + 1), W(n - 1), 1400, None, [])
  }

  /** One byte is written and held back by the full window; an old acknowledgement has the lone packet
      sent; then it is acknowledged. */
  function Round(k: Sock): seq<Call> {
    [CallWritev([1], TIGHT),
     CallIncoming(AckBelow(k, k.send.next), TIGHT),
     CallIncoming(AckBelow(k, k.send.next + 1), TIGHT)]
  }

  lemma NothingLeft(k: Sock)
    requires WindowInv(k) && k.send.count == 0
    ensures k.send.win == map[] && k.ctl.curWindow == 0
  {
    assert forall n :: n !in k.send.win;
  }

  /** The byte is appended but not sent. */
  lemma ByteIsHeld(k: Sock, k1: Sock)
    requires Idling(k) && k1 == Do(k, CallWritev([1], TIGHT))
    ensures SenderInv(k1) && k1.state == Connected && !k1.send.finSent && !k1.ctl.fastTimeout
    ensures k1.recv.ack == k.recv.ack
    ensures k1.send.next == k.send.next + 1 && k1.send.count == 1 && k1.send.win.Keys == {k.send.next}
    ensures k1.send.win[k.send.next].transmissions == 0 && k1.send.flushScanStart == k.send.flushScanStart
    ensures k1.out == k.out
  {
    NothingLeft(k);
    var k0 := k.(ctl := k.ctl.(retransmitTimeout := TIGHT.rto));
    var k2 := Append(k0, StData, [1], TIGHT);
    assert !IsFull(k, 1, TIGHT);
    assert [1 as bv8][..1] == [1];
    assert WriteRounds(k0, StData, [1], TIGHT) == k2;
    assert IsFull(k2, -1, TIGHT);
    assert Flush(k2, TIGHT).0 == k2;
    DoKeeps(k, CallWritev([1], TIGHT));
  }

  /** One packet in the window, not sent or sent. */
  ghost predicate Lone(k: Sock, sent: bool) {
    && SenderInv(k) && k.state == Connected && !k.send.finSent && !k.ctl.fastTimeout && k.send.count == 1
    && k.send.next - 1 in k.send.win && (k.send.win[k.send.next - 1].transmissions > 0 <==> sent)
  }

  /** An acknowledgement of everything below `n`, seen with `acks` packets of the window below it. */
  lemma AckBelowCounts(next: int, count: nat, n: int, acks: nat)
    requires count <= 1024 && acks <= count && n == next - count + acks
    ensures AckAcceptable(W(next), count, W(n - 1)) && AckCount(W(next), count, W(n - 1)) == acks
  {
    var nr := W(n - 1);
    AckWindowExact(W(next), count, nr);
    assert W(W(next) - 1 - nr) == count - acks by {
      WDistance(next, nr + 1);
      WDistance(next - 1, n - 1);
      WSmall(next - n);
    }
    assert W(nr - (W(next) - 1 - count)) == acks by {
      WDistance(nr + 1 + count, next);
      WDistance(n - 1, next - 1 - count);
      WSmall(acks);
    }
  }

  lemma NextInOrder(k: Sock, n: int)
    requires k.state == Connected
    ensures IncomingOffset(k, AckBelow(k, n)) == 0
  {
    WDistance(k.recv.ack + 1, k.recv.ack + 1);
    WSmall(0);
    assert W(W(k.recv.ack + 1) - k.recv.ack - 1) == W(W(k.recv.ack + 1) - (k.recv.ack + 1));
  }

  /** An acknowledgement that arrives in order does nothing else. */
  lemma AckOnly(k: Sock, k': Sock, n: int, acks: nat)
    requires k.state == Connected && k.send.count <= 1024 && 0 <= acks <= k.send.count && n == Head(k.send) + acks
    requires AdvanceSendWindow(k, AckBelow(k, n), acks, TIGHT).state == Connected
    requires k' == Do(k, CallIncoming(AckBelow(k, n), TIGHT))
    ensures k' == AdvanceSendWindow(k, AckBelow(k, n), acks, TIGHT)
  {
    AckBelowCounts(k.send.next, k.send.count, n, acks);
    NextInOrder(k, n);
    assert ProcessAcks(k, AckBelow(k, n), TIGHT) == AdvanceSendWindow(k, AckBelow(k, n), acks, TIGHT);
  }

  /** What an acknowledgement notes before the window moves. */
  lemma OldAckNotes(k: Sock, k1: Sock, p: Packet)
    requires Lone(k, false) && p == AckBelow(k, k.send.next - 1)
    requires k1 == RaiseFastResend(AdvanceState(k, p, 0), p.ackNr)
    ensures k1.send == k.send.(maxWindowUser := 1400) && k1.state == Connected && k1.recv == k.recv
    ensures !k1.ctl.fastTimeout
  {
  }

  lemma LoneIsSent(k: Sock)
    requires k.send.count == 1 && k.send.next - 1 in k.send.win && k.send.win[k.send.next - 1].transmissions == 0
    requires !k.ctl.fastTimeout
    ensures FastTimeout(SendLoneUnsent(SkipAcked(AckCumulative(k, 0, TIGHT)))) == SendPacket(k, k.send.next - 1)
  {
  }

  lemma OldAckAdvances(k: Sock, k': Sock, p: Packet)
    requires Lone(k, false) && p == AckBelow(k, k.send.next - 1) && k' == AdvanceSendWindow(k, p, 0, TIGHT)
    ensures Lone(k', true) && k'.recv == k.recv && k'.send.maxWindowUser == 1400
    ensures k'.send.next == k.send.next && k'.send.flushScanStart == k.send.flushScanStart
  {
    AdvanceSendWindowKeeps(k, p, 0, TIGHT);
    var k1 := RaiseFastResend(AdvanceState(k, p, 0), p.ackNr);
    OldAckNotes(k, k1, p);
    LoneIsSent(k1);
  }

  /** The lone packet is sent, past the full window and past the flush. */
  lemma OldAckSends(k: Sock, k': Sock)
    requires Lone(k, false) && k' == Do(k, CallIncoming(AckBelow(k, k.send.next - 1), TIGHT))
    ensures Lone(k', true) && k'.recv.ack == k.recv.ack && k'.send.maxWindowUser == 1400
    ensures k'.send.next == k.send.next && k'.send.flushScanStart == k.send.flushScanStart
  {
    var p := AckBelow(k, k.send.next - 1);
    OldAckAdvances(k, AdvanceSendWindow(k, p, 0, TIGHT), p);
    AckOnly(k, k', k.send.next - 1, 0);
  }

  /** And acknowledged. */
  lemma NewAckEmpties(k: Sock, k': Sock)
    requires Lone(k, true) && k' == Do(k, CallIncoming(AckBelow(k, k.send.next), TIGHT))
    ensures Idling(k') && k'.recv.ack == k.recv.ack
    ensures k'.send.next == k.send.next && k'.send.flushScanStart == k.send.flushScanStart
  {
    var p := AckBelow(k, k.send.next);
    var k1 := RaiseFastResend(AdvanceState(k, p, 1), p.ackNr);
    assert k1.send == k.send.(maxWindowUser := 1400) && k1.state == Connected;
    var k2 := AckPacket(k1, k.send.next - 1, TIGHT).0;
    var k3 := k2.(send := k2.send.(count := 0));
    assert AckCumulative(k1, 1, TIGHT) == AckCumulative(k3, 0, TIGHT) == k3;
    assert SkipAcked(k3) == k3 && FastTimeout(SendLoneUnsent(k3)) == k3;
    AckOnly(k, k', k.send.next, 1);
    AdvanceSendWindowKeeps(k, p, 1, TIGHT);
  }

  lemma DoOne(k: Sock, calls: seq<Call>, c: Call)
    ensures DoAll(k, calls + [c]) == Do(DoAll(k, calls), c)
  {
    assert (calls + [c])[..|calls + [c]| - 1] == calls;
  }

  lemma DoThree(k: Sock, k': Sock, calls: seq<Call>, c1: Call, c2: Call, c3: Call)
    requires k' == DoAll(k, calls)
    ensures DoAll(k, calls + [c1, c2, c3]) == Do(Do(Do(k', c1), c2), c3)
  {
    var calls1 := calls + [c1];
    var calls2 := calls1 + [c2];
    assert calls + [c1, c2, c3] == calls2 + [c3];
    DoOne(k, calls, c1);
    DoOne(k, calls1, c2);
    DoOne(k, calls2, c3);
  }

  /** An acknowledgement is the same, seen from any socket that has received as much. */
  lemma SameAck(k: Sock, k1: Sock, n: int)
    requires k1.recv.ack == k.recv.ack
    ensures AckBelow(k1, n) == AckBelow(k, n)
  {
  }

  lemma RoundLags(k: Sock, k1: Sock, k2: Sock, k': Sock)
    requires Idling(k) && k1 == Do(k, CallWritev([1], TIGHT))
    requires k2 == Do(k1, CallIncoming(AckBelow(k, k.send.next), TIGHT))
    requires k' == Do(k2, CallIncoming(AckBelow(k, k.send.next + 1), TIGHT))
    ensures Idling(k') && k'.recv.ack == k.recv.ack
    ensures k'.send.next == k.send.next + 1 && k'.send.flushScanStart == k.send.flushScanStart
  {
    ByteIsHeld(k, k1);
    SameAck(k, k1, k.send.next);
    OldAckSends(k1, k2);
    SameAck(k, k2, k.send.next + 1);
    NewAckEmpties(k2, k');
  }

  /** For every distance there is a run, of small writes and prompt acknowledgements, that leaves the
      cursor that far behind where it was: the distance has no bound. */
  lemma {:induction false} LagHasNoBound(k: Sock, rounds: nat) returns (calls: seq<Call>)
    requires Idling(k)
    ensures var k' := DoAll(k, calls);
            Idling(k') && k'.send.next == k.send.next + rounds && k'.send.flushScanStart == k.send.flushScanStart
  {
    if rounds == 0 {
      calls := [];
    } else {
      calls := LagHasNoBound(k, rounds - 1);
      var k1 := DoAll(k, calls);
      OneMoreRound(k, k1, calls);
      calls := calls + Round(k1);
    }
  }

  lemma OneMoreRound(k: Sock, k1: Sock, calls: seq<Call>)
    requires Idling(k1) && k1 == DoAll(k, calls)
    ensures var k' := DoAll(k, calls + Round(k1));
            Idling(k') && k'.send.next == k1.send.next + 1 && k'.send.flushScanStart == k1.send.flushScanStart
  {
    var c1, c2, c3 := Round(k1)[0], Round(k1)[1], Round(k1)[2];
    assert Round(k1) == [c1, c2, c3];
    DoThree(k, k1, calls, c1, c2, c3);
    RoundLags(k1, Do(k1, c1), Do(Do(k1, c1), c2), Do(Do(Do(k1, c1), c2), c3));
  }

  // ---------------------------------------------------------------- being mistaken

  const ROOMY := Env(1400, 1_000_000, 1_000_000, 1000)

  function Whole(): Bytes {
    seq(1400, _ => 0)
  }

  /** Connected, with nothing written and the cursor still at 1; the first packet written will have
      the number `first`. */
  ghost predicate JustOpen(k: Sock, first: int) {
    && SenderInv(k) && k.state == Connected && k.send.next == first && k.send.count == 0
    && !k.send.finSent && k.send.maxWindowUser == 1_000_000 && k.send.flushScanStart == 1
  }

  /** The window holds one packet, not sent. */
  ghost predicate OneWritten(k: Sock, first: int) {
    && k.send.next == first + 1 && k.send.count == 1 && first in k.send.win
    && k.send.win[first].transmissions == 0 && k.send.flushScanStart == 1 && !IsFull(k, -1, ROOMY)
  }

  lemma WriteFlushes(k: Sock, k': Sock, first: int) returns (k1: Sock)
    requires JustOpen(k, first) && k' == Do(k, CallWritev(Whole(), ROOMY))
    ensures OneWritten(k1, first) && k' == Flush(k1, ROOMY).0 && k1.out == k.out
  {
    NothingLeft(k);
    var k0 := k.(ctl := k.ctl.(retransmitTimeout := ROOMY.rto));
    k1 := Append(k0, StData, Whole(), ROOMY);
    assert !IsFull(k, 1400, ROOMY);
    assert Whole()[..1400] == Whole();
    assert WriteRounds(k0, StData, Whole(), ROOMY) == k1;
  }

  /** The full scan sends the packet; so does the flush if it looks at it. */
  lemma ScanSends(k: Sock, first: int)
    requires OneWritten(k, first)
    ensures FullScan(k, 1, ROOMY).0 == SendPacket(k, first)
    ensures |FlushScan(k, 1, true, ROOMY).0.out| == |k.out| + 1
  {
    assert FullScan(k, 1, ROOMY) == FullScan(SendPacket(k, first), 0, ROOMY);
    var k1 := WithCursor(SendPacket(k, first), W(first + 1));
    assert FlushScan(k, 1, true, ROOMY) == FlushScan(k1, 0, true, ROOMY);
  }

  lemma SpanOfFirst(s: SendState, first: int)
    requires s.next == first + 1 && s.count == 1 && s.flushScanStart == 1
    ensures FlushSpan(s) == if W(first) == 0 then 0 else 1
  {
    WDistance(1, first);
    WSmall(1 - W(first));
  }

  /** What a write leaves when the flush passes its packet over: a packet that waits in a window that
      is not full, which the full scan would send. */
  ghost predicate Missed(k: Sock, first: int) {
    && k.send.count == 1 && first in k.send.win && k.send.win[first].transmissions == 0
    && !IsFull(k, -1, ROOMY) && FullScan(k, 1, ROOMY).0 == SendPacket(k, first)
  }

  /** The first whole packet written into a wide open window is sent exactly unless its number wraps
      to 0: then the cursor at 1 looks as if it were past it. */
  lemma FirstPacketSentExactly(k: Sock, k': Sock, first: int)
    requires JustOpen(k, first) && k' == Do(k, CallWritev(Whole(), ROOMY))
    ensures |k'.out| == |k.out| + if W(first) == 0 then 0 else 1
    ensures W(first) == 0 ==> Missed(k', first)
  {
    var k1 := WriteFlushes(k, k', first);
    ScanSends(k1, first);
    SpanOfFirst(k1.send, first);
  }

  lemma FirstAfterOpening(k0: Sock, k1: Sock, k: Sock, c: Call, first: int)
    requires k1 == Do(k0, c) && JustOpen(k1, first) && k == DoAll(k0, [c, CallWritev(Whole(), ROOMY)])
    ensures |k.out| == |k1.out| + if W(first) == 0 then 0 else 1
    ensures W(first) == 0 ==> Missed(k, first)
  {
    TwoCalls(k0, k1, k, c, CallWritev(Whole(), ROOMY));
    FirstPacketSentExactly(k1, k, first);
  }

  lemma TwoCalls(k0: Sock, k1: Sock, k2: Sock, c1: Call, c2: Call)
    requires k1 == Do(k0, c1) && k2 == DoAll(k0, [c1, c2])
    ensures k2 == Do(k1, c2)
  {
    DoOne(k0, [], c1);
    assert [] + [c1] == [c1];
    DoOne(k0, [c1], c2);
    assert [c1] + [c2] == [c1, c2];
  }
}
