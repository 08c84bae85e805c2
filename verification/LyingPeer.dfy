/** A run in which a peer that acknowledges what was never sent has one packet resent twice by a
    single mask.

    The number just below a mask is listed by the scan when it lies above the head of the window,
    and once more after the scan. It gets there when the cumulative acknowledgement stops at a
    packet never sent, below a packet that was sent. Writing sends packets in order; what sends
    one out of order is a misfire. */
module LyingPeer {
  import opened Serial
  import opened Protocol
  import opened Conservation
  import opened Sack
  import opened FastResending
  import opened Network
  import opened Traces
  import opened CalmPeers
  import StaleKeepAlive
  import Ring

  /** The window leaves no room for a whole packet beside the one in flight. */
  const NARROW := Env(SIZE, SIZE, ROOM, 1000)

  /** Packet 3 is in flight, 4 to 6 are gone, and from 7 on the packets are empty and, but for those
      of `sent`, were never sent. */
  ghost predicate Stuffed(k: Sock, next: int, sent: set<int>, mark: int) {
    && SenderInv(k) && Aligned(k)
    && k.state == Connected && k.recv.ack == 499 && !k.send.finSent && k.send.maxWindowUser == ROOM
    && 7 <= next <= 40 && k.send.next == next && Head(k.send) == 3
    && (forall n :: n in k.send.win <==> n == 3 || 7 <= n < next)
    && (forall n :: n in k.send.win ==> (k.send.win[n].transmissions > 0 <==> n == 3 || n in sent))
    && (forall n :: n in k.send.win && n != 3 ==> k.send.win[n].payload == [])
    && k.ctl.curWindow == SIZE && !k.ctl.fastTimeout && 0 < mark <= 40 && k.ctl.fastResend == mark
  }

  lemma ClientIsStuffed(k: Sock, keys: set<int>)
    requires Client(k, 3, 7, keys, 2) && forall n :: n in keys <==> n == 3
    ensures Stuffed(k, 7, {}, 2)
  {
    var win := k.send.win;
    assert 3 in win && 4 !in win && 5 !in win && 6 !in win;
    assert BytesInFlight(win, 3, 4) == BytesInFlight(win, 3, 3) + SIZE;
    assert BytesInFlight(win, 3, 5) == BytesInFlight(win, 3, 4);
    assert BytesInFlight(win, 3, 6) == BytesInFlight(win, 3, 5);
    assert BytesInFlight(win, 3, 7) == BytesInFlight(win, 3, 6);
  }

  // ---------------------------------------------------------------- empty packets

  /** A full window keeps the flush from sending anything. */
  lemma {:induction false} FullFlush(k: Sock, k': Sock, left: nat, inPrefix: bool, env: Env)
    requires IsFull(k, -1, env) && k' == FlushScan(k, left, inPrefix, env).0
    ensures k' == WithCursor(k, k'.send.flushScanStart)
    decreases left
  {
    if left > 0 {
      var n := k.send.next - left;
      var cursor := if inPrefix then W(n + 1) else k.send.flushScanStart;
      if Settled(k.send.win, n) {
        FullFlush(WithCursor(k, cursor), k', left - 1, inPrefix, env);
      }
    }
  }

  lemma WriteNothingIs(k: Sock, next: int, sent: set<int>, mark: int) returns (k1: Sock)
    requires Stuffed(k, next, sent, mark) && next < 40
    ensures k1 == Append(k, StData, [], NARROW)
    ensures Writev(k, [], NARROW).0 == Flush(k1, NARROW).0 && SenderInv(Flush(k1, NARROW).0)
  {
    k1 := Append(k, StData, [], NARROW);
    assert !IsFull(k, 0, NARROW);
    assert WriteRounds(k, StData, [], NARROW) == k1;
    WriteOutgoingPacketKeeps(k, StData, [], NARROW);
  }

  lemma AppendedStuffed(k: Sock, k1: Sock, k': Sock, next: int, sent: set<int>, mark: int)
    requires Stuffed(k, next, sent, mark) && next < 40 && next !in sent && k1 == Append(k, StData, [], NARROW)
    requires k' == WithCursor(k1, k'.send.flushScanStart) && SenderInv(k')
    ensures Stuffed(k', next + 1, sent, mark)
  {
  }

  lemma WriteNothing(k: Sock, k': Sock, next: int, sent: set<int>, mark: int)
    requires Stuffed(k, next, sent, mark) && next < 40 && next !in sent && k' == Writev(k, [], NARROW).0
    ensures Stuffed(k', next + 1, sent, mark) && SameTraces(k, k')
    ensures k'.send.ringSize == Ring.GrownSize(k.send.ringSize, next - 3)
  {
    var k1 := WriteNothingIs(k, next, sent, mark);
    FullFlush(k1, k', FlushSpan(k1.send), true, NARROW);
    AppendedStuffed(k, k1, k', next, sent, mark);
  }

  // ---------------------------------------------------------------- the misfire

  lemma StaleNumbers(next: int, count: nat)
    requires 10 <= next <= 40 && count == next - 3 && count <= 16
    ensures AckAcceptable(W(next), count, 1) && AckCount(W(next), count, 1) == 0
  {
    AckWindowExact(W(next), count, 1);
    WSmall(next - 2);
    WSmall(-1);
  }

  /** A stale acknowledgement leaves the window as it is. */
  lemma StaleAck(k: Sock, p: Packet, next: int, sent: set<int>)
    requires Stuffed(k, next, sent, 2) && 10 <= next && Ack(p, 1) && k.send.count <= 16
    ensures AfterAcks(k, p, CALM) == k && AckAcceptable(W(next), k.send.count, 1)
  {
    StaleNumbers(next, k.send.count);
    SmallRaise(k, 2, 1);
    assert SkipAcked(k) == k;
  }

  lemma StaleTaken(k: Sock, p: Packet)
    requires k.state == Connected && k.recv.ack == 499 && Ack(p, 1) && AckAcceptable(W(k.send.next), k.send.count, 1)
    requires AfterAcks(k, p, CALM) == k
    ensures Arrive(k, p, CALM) == SelectiveAck(k, 3, p.sack.value, CALM)
  {
    WSmall(0);
    SelectiveAckState(k, 3, p.sack.value);
  }

  /** The scan of a mask that marks 4 to 6 changes nothing and lists nothing. */
  lemma NothingTaken(k: Sock, c: Scan, mask: Mask, next: int, sent: set<int>)
    requires Stuffed(k, next, sent, 2) && 10 <= next && Marked(mask, 1, 4)
    requires c == SackScan(Scan(k, 0, []), 3, mask, 31, CALM)
    ensures c.resends == [] && c.found == 3 && SenderOnly(k, c.sock) && c.sock.send == k.send && SenderInv(c.sock)
  {
    forall b | -1 <= b < 4
      ensures SackNumber(k.send, 3, b) == if b < 1 then None else Some(3 + b)
    {
      SmallSackNumber(k.send, 3, b);
    }
    ListsNothing(k.send, Scan(k, 0, []), c, 3, mask, 31, 1, 4);
    SackScanTakesOff(Scan(k, 0, []), 3, mask, 31, CALM);
    SackScanKeeps(Scan(k, 0, []), 3, mask, 31, CALM);
    forall n | n in k.send.win
      ensures !TakenOff(k.send, 3, mask, 31, n)
    {
      MaskCovers(3, mask, 1, 4, n);
    }
    assert Without(k.send, 3, mask, 31) == k.send.win;
  }

  lemma Slot18(k: Sock)
    requires Head(k.send) == 3 && k.send.ringSize == 16
    ensures Ring.Alias(2, Head(k.send), k.send.ringSize) == 18
  {
  }

  /** Packet 18, never sent before, goes out for the number 2. */
  lemma SendsOutOfOrder(k: Sock, k': Sock, p: Packet)
    requires Stuffed(k, 19, {}, 2) && k.send.ringSize == 16 && Ack(p, 1) && Marked(p.sack.value, 1, 4)
    requires k' == Arrive(k, p, CALM)
    ensures Stuffed(k', 19, {18}, 3) && k'.send.ringSize == 16
  {
    StaleAck(k, p, 19, {});
    StaleTaken(k, p);
    var c := SelectiveAckIs(k, 3, p.sack.value);
    NothingTaken(k, c, p.sack.value, 19, {});
    CandidatesAre(c, 3);
    Slot18(c.sock);
    LoneResend(c.sock, 2, 18);
    SlotSent(k, c.sock, k');
  }

  lemma SlotSent(k: Sock, k1: Sock, k': Sock)
    requires Stuffed(k, 19, {}, 2) && SenderOnly(k, k1) && k1.send == k.send && SenderInv(k1)
    requires k' == ResendOne(k1, 2, 18)
    requires k.send.ringSize == 16
    ensures Stuffed(k', 19, {18}, 3) && k'.send.ringSize == 16
  {
    ResendOneKeeps(k1, 2, 18);
    assert k1.ctl.curWindow == k.ctl.curWindow;
  }

  // ---------------------------------------------------------------- the lie

  /** An acknowledgement up to 17 stops at packet 7, which was never sent. */
  lemma {:induction false} StopsUnsent(k: Sock, k': Sock, acks: nat, stop: int)
    requires Head(k.send) <= stop < Head(k.send) + acks && stop < k.send.next && k' == AckCumulative(k, acks, CALM)
    requires stop in k.send.win && k.send.win[stop].transmissions == 0
    requires forall n :: Head(k.send) <= n < stop && n in k.send.win ==> k.send.win[n].transmissions > 0
    ensures k'.send.next == k.send.next && Head(k'.send) == stop && k'.ctl.fastResend == k.ctl.fastResend
    ensures k'.ctl.fastTimeout == k.ctl.fastTimeout && k'.state == k.state
    ensures forall n :: n >= stop && n in k.send.win ==> n in k'.send.win && k'.send.win[n] == k.send.win[n]
    decreases acks
  {
    if Head(k.send) < stop {
      var k1 := AckPacket(k, Head(k.send), CALM).0;
      StopsUnsent(k1.(send := k1.send.(count := k1.send.count - 1)), k', acks - 1, stop);
    }
  }

  lemma LieAdvances(k: Sock, k1: Sock, p: Packet)
    requires Stuffed(k, 22, {18}, 3) && Ack(p, 17) && k1 == AfterAcks(k, p, CALM)
    ensures AckAcceptable(W(22), k.send.count, 17)
    ensures k1.send.next == 22 && Head(k1.send) == 7 && k1.ctl.fastResend == 18 && k1.state == Connected
    ensures 18 in k1.send.win && k1.send.win[18].transmissions > 0
  {
    SmallAck(22, 3, 17);
    SmallRaise(k, 3, 17);
    var k2 := AckCumulative(RaiseFastResend(AdvanceState(k, p, 15), 17), 15, CALM);
    StopsUnsent(RaiseFastResend(AdvanceState(k, p, 15), 17), k2, 15, 7);
    assert SkipAcked(k2) == k2;
    assert k1 == FastTimeout(SendLoneUnsent(k2)) == k2;
  }

  /** The number below the mask is listed by the scan and after it. */
  lemma LieIsListedTwice(k: Sock, mask: Mask)
    requires k.send.next == 22 && Head(k.send) == 7 && k.ctl.fastResend == 18 && Marked(mask, 0, 3)
    requires 18 in k.send.win && k.send.win[18].transmissions > 0
    ensures ListedTwice(k, 19, mask)
  {
    SmallSackNumber(k.send, 19, -1);
    CountSetBits(k.send, 19, mask, 0, 3, 31);
    WSmall(0);
    WSmall(18);
  }

  /** So packet 18 is resent twice by one mask. */
  lemma ResendsTwiceAtOnce(k: Sock, k': Sock, p: Packet)
    requires Stuffed(k, 22, {18}, 3) && Ack(p, 17) && Marked(p.sack.value, 0, 3) && k' == Arrive(k, p, CALM)
    ensures Later(k, k') && !NoRepeat(ResentBy(k, k'), k'.tags)
  {
    var k1 := AfterAcks(k, p, CALM);
    LieAdvances(k, k1, p);
    LieIsListedTwice(k1, p.sack.value);
    AfterAcksKeeps(k, p, CALM);
    AdvanceClimbs(k, k1, p, AckCount(W(k.send.next), k.send.count, p.ackNr), CALM);
    var k2 := SelectiveAck(k1, 19, p.sack.value, CALM);
    ListedTwiceRepeats(k1, k2, 19, p.sack.value, CALM);
    WSmall(0);
    SelectiveAckState(k1, 19, p.sack.value);
    assert k' == k2;
    ResentThen(k, k1, k2);
    RepeatsInBoth(ResentBy(k, k1), ResentBy(k1, k2), k2.tags);
  }

  lemma RepeatsInBoth(log1: seq<Resend>, log2: seq<Resend>, tags: seq<Tag>)
    requires !NoRepeat(log2, tags)
    ensures !NoRepeat(log1 + log2, tags)
  {
    var i, j :| 0 <= i < j < |log2| && Seqno(tags, log2[i]) == Seqno(tags, log2[j]);
    assert (log1 + log2)[|log1| + i] == log2[i] && (log1 + log2)[|log1| + j] == log2[j];
  }

  // ---------------------------------------------------------------- the run

  /** Calls with the sockets they go through. */
  datatype Walk = Walk(calls: seq<Call>, socks: seq<Sock>)

  ghost predicate Went(w: Walk, k: Sock, k': Sock) {
    && |w.socks| == |w.calls| + 1 && w.socks[0] == k && w.socks[|w.calls|] == k'
    && forall i {:trigger Link(i)} :: Link(i) && 0 <= i < |w.calls| ==> w.socks[i + 1] == Do(w.socks[i], w.calls[i])
  }

  lemma Goes(w: Walk, k: Sock, k1: Sock, k2: Sock, c: Call) returns (w': Walk)
    requires Went(w, k, k1) && k2 == Do(k1, c)
    ensures Went(w', k, k2) && w'.calls == w.calls + [c]
  {
    w' := Walk(w.calls + [c], w.socks + [k2]);
    forall i | Link(i) && 0 <= i < |w'.calls|
      ensures w'.socks[i + 1] == Do(w'.socks[i], w'.calls[i])
    {
      if i < |w.calls| {
        assert Link(i);
      }
    }
  }

  lemma {:induction false} IsDoAll(w: Walk, k: Sock, k': Sock)
    requires Went(w, k, k')
    ensures DoAll(k, w.calls) == k'
    decreases |w.calls|
  {
    if w.calls != [] {
      var n := |w.calls| - 1;
      assert Link(n);
      IsDoAll(Walk(w.calls[..n], w.socks[..n + 1]), k, w.socks[n]);
    }
  }

  /** An empty write `times` over. */
  function Empties(times: nat): seq<Call> {
    seq(times, _ => CallWritev([], NARROW))
  }

  lemma {:induction false} WriteEmpties(w: Walk, k0: Sock, k: Sock, times: nat, next: int, sent: set<int>, mark: int)
    returns (w': Walk, k': Sock)
    requires Went(w, k0, k) && Stuffed(k, next, sent, mark) && next + times <= 40 && forall n :: n in sent ==> n < next
    ensures Went(w', k0, k') && w'.calls == w.calls + Empties(times) && Stuffed(k', next + times, sent, mark)
    ensures k.send.ringSize == 16 && next + times <= 19 ==> k'.send.ringSize == 16
    decreases times
  {
    if times == 0 {
      w', k' := w, k;
    } else {
      w', k' := WriteEmpties(w, k0, k, times - 1, next, sent, mark);
      var k1 := k';
      k' := Writev(k1, [], NARROW).0;
      WriteNothing(k1, k', next + times - 1, sent, mark);
      w' := Goes(w', k0, k1, k', CallWritev([], NARROW));
      assert Empties(times - 1) + [CallWritev([], NARROW)] == Empties(times);
      assert w.calls + Empties(times - 1) + [CallWritev([], NARROW)] == w.calls + Empties(times);
    }
  }

  /** The peer's packets: an acknowledgement of `a` whose mask is the byte `bits`. */
  function Says(a: U16, bits: Byte): Packet {
    Packet(StState, 500, a, ROOM, Some([bits, 0, 0, 0]), [])
  }

  lemma ZeroBits(i: nat)
    requires i < 8
    ensures !NatBit(0, i)
  {
    NoBits(i);
  }

  lemma SaysMarks(a: U16, bits: Byte, lo: int, hi: int)
    requires 0 <= lo < hi <= 8 && forall i: nat :: i < 8 ==> (NatBit(bits, i) <==> lo <= i < hi)
    ensures Ack(Says(a, bits), a) && Marked(Says(a, bits).sack.value, lo, hi)
  {
    var mask := Says(a, bits).sack.value;
    forall i: nat | i < 32
      ensures MaskBit(mask, i) <==> lo <= i < hi
    {
      if i >= 8 {
        ZeroBits(i % 8);
      }
    }
  }

  lemma Bits(i: nat)
    requires i < 8
    ensures NatBit(1, i) <==> i < 1
    ensures NatBit(14, i) <==> 1 <= i < 4
    ensures NatBit(7, i) <==> i < 3
  {
    assert NatBit(14, i) == if i == 0 then false else NatBit(7, i - 1);
    assert NatBit(7, i) == if i == 0 then true else NatBit(3, i - 1);
    SmallBits(3, i);
  }

  lemma SmallBits(b: nat, i: nat)
    requires i < 8
    ensures NatBit(0, i) == false
    ensures NatBit(1, i) <==> i == 0
    ensures NatBit(3, i) <==> i <= 1
    ensures NatBit(7, i) <==> i <= 2
  {
    ZeroBits(i);
    if i > 0 {
      ZeroBits(i - 1);
    }
    if i > 1 {
      ZeroBits(i - 2);
    }
    if i > 2 {
      ZeroBits(i - 3);
    }
  }

  const FIRST_ANSWER := Packet(StState, 500, 0, ROOM, None, [])

  /** The connection opens and six packets are written; 2 is acknowledged by a mask, then 1 with 4
      to 6 in a mask. */
  function Lies0(): seq<Call> {
    [CallIncoming(FIRST_ANSWER, CALM), CallWritev(Data(6), CALM), CallIncoming(Says(0, 1), CALM),
     CallIncoming(Says(1, 14), CALM)]
  }

  lemma Receives(w: Walk, k0: Sock, k: Sock, p: Packet) returns (w': Walk, k': Sock)
    requires Went(w, k0, k) && p.typ != StSyn
    ensures Went(w', k0, k') && w'.calls == w.calls + [CallIncoming(p, CALM)] && k' == Arrive(k, p, CALM)
  {
    k' := Arrive(k, p, CALM);
    w' := Goes(w, k0, k, k', CallIncoming(p, CALM));
  }

  lemma WritesSix(w: Walk, k0: Sock, k1: Sock) returns (w': Walk, k: Sock, keys: set<int>)
    requires Went(w, k0, k1) && Client(k1, 1, 1, {}, 1) && k1.send.ringSize == 16
    ensures Went(w', k0, k) && w'.calls == w.calls + [CallWritev(Data(6), CALM)]
    ensures Client(k, 1, 7, keys, 1) && k.send.ringSize == 16 && forall n :: n in keys <==> 1 <= n < 7
  {
    k := Writev(k1, Data(6), CALM).0;
    w' := Goes(w, k0, k1, k, CallWritev(Data(6), CALM));
    WriteMany(k1, k, Data(6), 6, 1, 1, {}, 1);
    keys := {} + Numbers(1, 7);
  }

  lemma Answered(k0: Sock) returns (w: Walk, k: Sock)
    requires Opening(k0)
    ensures Went(w, k0, k) && w.calls == [CallIncoming(FIRST_ANSWER, CALM)] && Client(k, 1, 1, {}, 1)
    ensures k.send.ringSize == 16
  {
    w, k := Receives(Walk([], [k0]), k0, k0, FIRST_ANSWER);
    StaleKeepAlive.ClientAnswered(k0, k, FIRST_ANSWER);
    StaleKeepAlive.ClientOpens(k0, k);
  }

  lemma Opens(k0: Sock) returns (w: Walk, k: Sock, keys: set<int>)
    requires Opening(k0)
    ensures Went(w, k0, k) && w.calls == [CallIncoming(FIRST_ANSWER, CALM)] + [CallWritev(Data(6), CALM)]
    ensures Client(k, 1, 7, keys, 1) && k.send.ringSize == 16 && forall n :: n in keys <==> 1 <= n < 7
  {
    w, k := Answered(k0);
    w, k, keys := WritesSix(w, k0, k);
  }

  /** Packet 2 is acknowledged by a mask. */
  lemma FirstMask(k1: Sock, k: Sock, keys: set<int>) returns (keys': set<int>)
    requires Client(k1, 1, 7, keys, 1) && k1.send.ringSize == 16 && forall n :: n in keys <==> 1 <= n < 7
    requires k == Arrive(k1, Says(0, 1), CALM)
    ensures Client(k, 1, 7, keys', 1) && k.send.ringSize == 16 && forall n :: n in keys' <==> 1 <= n < 7 && n != 2
  {
    forall i: nat | i < 8
      ensures NatBit(1, i) <==> 0 <= i < 1
    {
      Bits(i);
    }
    SaysMarks(0, 1, 0, 1);
    TakesFewBits(k1, k, Says(0, 1), 0, 0, 1, 1, 7, keys, 1);
    keys' := Beside(keys, 2, 3);
  }

  lemma Marks14()
    ensures Ack(Says(1, 14), 1) && Marked(Says(1, 14).sack.value, 1, 4)
  {
    forall i: nat | i < 8
      ensures NatBit(14, i) <==> 1 <= i < 4
    {
      Bits(i);
    }
    SaysMarks(1, 14, 1, 4);
  }

  /** Then 1 with 4 to 6, and packet 3 is left. */
  lemma SecondMask(k1: Sock, k: Sock, keys: set<int>)
    requires Client(k1, 1, 7, keys, 1) && k1.send.ringSize == 16 && forall n :: n in keys <==> 1 <= n < 7 && n != 2
    requires k == Arrive(k1, Says(1, 14), CALM)
    ensures Stuffed(k, 7, {}, 2) && k.send.ringSize == 16
  {
    Marks14();
    StaleKeepAlive.SixteenAbove();
    TakesThreeBits(k1, k, Says(1, 14), 1, 1, 1, 7, keys, 1, 3, 18);
    ClientIsStuffed(k, Beside(After(keys, 1), 4, 7));
  }

  lemma Start(k0: Sock) returns (w: Walk, k: Sock)
    requires Opening(k0)
    ensures Went(w, k0, k) && w.calls == Lies0() && Stuffed(k, 7, {}, 2) && k.send.ringSize == 16
  {
    var keys;
    w, k, keys := Opens(k0);
    var k1;
    w, k1 := Receives(w, k0, k, Says(0, 1));
    keys := FirstMask(k, k1, keys);
    w, k := Receives(w, k0, k1, Says(1, 14));
    SecondMask(k1, k, keys);
  }

  /** The whole run: twelve empty packets that are not sent, the acknowledgement of 1 once more,
      three more empty packets, and the lie. */
  function Lies(): seq<Call> {
    Lies0() + Empties(12) + [CallIncoming(Says(1, 14), CALM)] + Empties(3) + [CallIncoming(Says(17, 7), CALM)]
  }

  lemma Marks7()
    ensures Ack(Says(17, 7), 17) && Marked(Says(17, 7).sack.value, 0, 3)
  {
    forall i: nat | i < 8
      ensures NatBit(7, i) <==> 0 <= i < 3
    {
      Bits(i);
    }
    SaysMarks(17, 7, 0, 3);
  }

  lemma Misfire(k0: Sock) returns (w: Walk, k: Sock)
    requires Opening(k0)
    ensures Went(w, k0, k) && w.calls == Lies0() + Empties(12) + [CallIncoming(Says(1, 14), CALM)]
    ensures Stuffed(k, 19, {18}, 3)
  {
    w, k := Start(k0);
    w, k := WriteEmpties(w, k0, k, 12, 7, {}, 2);
    var k1 := k;
    w, k := Receives(w, k0, k1, Says(1, 14));
    Marks14();
    SendsOutOfOrder(k1, k, Says(1, 14));
  }

  lemma Ends(k0: Sock) returns (w: Walk, k: Sock)
    requires Opening(k0)
    ensures Went(w, k0, k) && w.calls == Lies() && !NoRepeat(Reports(k.events), k.tags)
  {
    w, k := Misfire(k0);
    w, k := WriteEmpties(w, k0, k, 3, 19, {18}, 3);
    var k1 := k;
    w, k := Receives(w, k0, k1, Says(17, 7));
    Marks7();
    Repeats(k1, k);
  }

  lemma Repeats(k: Sock, k': Sock)
    requires Stuffed(k, 22, {18}, 3) && k' == Arrive(k, Says(17, 7), CALM)
    requires Ack(Says(17, 7), 17) && Marked(Says(17, 7).sack.value, 0, 3)
    ensures !NoRepeat(Reports(k'.events), k'.tags)
  {
    ResendsTwiceAtOnce(k, k', Says(17, 7));
    assert Reports(k'.events) == Reports(k.events) + ResentBy(k, k');
    RepeatsInBoth(Reports(k.events), ResentBy(k, k'), k'.tags);
  }

  /** From `connect` on, with packets a peer can send: the last of them, which acknowledges packets
      that were never sent, has packet 18 resent twice at once. */
  lemma LyingAckResendsTwice()
    ensures var k := DoAll(Connect(Fresh(), 0, CALM), Lies());
            !NoRepeat(Reports(k.events), k.tags)
  {
    var k0 := Connect(Fresh(), 0, CALM);
    StaleKeepAlive.StartClient(k0);
    var w, k := Ends(k0);
    IsDoAll(w, k0, k);
  }
}
