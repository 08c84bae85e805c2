/** A client that writes whole packets and a server that only reads, step by step: what a write, an
    arriving packet, an acknowledgement and a keep-alive do to them while nothing times out. */
module CalmPeers {
  import opened Serial
  import opened Protocol
  import opened Conservation
  import opened Sack
  import opened FastResending
  import opened EndToEnd
  import opened Network
  import opened Traces
  import SackRoundTrip
  import GiveUp
  import Reorder
  import Ring

  const SIZE := 1400
  const ROOM := 1_000_000
  const CALM := Env(SIZE, ROOM, ROOM, 1000)

  function Data(packets: nat): Bytes {
    seq(packets * SIZE, _ => 0)
  }

  // ---------------------------------------------------------------- the client

  /** Packet `n` of the client as it goes out. */
  predicate Frame(p: Packet, n: int) {
    p.typ == StData && p.seqNr == W(n) && p.ackNr == 499 && p.sack == None
  }

  /** Packet `n` is frame `n + shift`. */
  ghost predicate SentAt(k: Sock, shift: int, n: int) {
    && 0 <= n + shift < |k.out| && n + shift < |k.tags|
    && Frame(k.out[n + shift], n) && k.tags[n + shift] == Tag(n, 499)
  }

  predicate Whole(pkt: OutPkt) {
    pkt.typ == StData && |pkt.payload| == SIZE && InFlight(pkt)
  }

  /** A connected client with exactly the packets `keys` in its window, all in flight. */
  ghost predicate Client(k: Sock, head: int, next: int, keys: set<int>, mark: int) {
    && SenderInv(k) && Aligned(k)
    && k.state == Connected && k.recv.ack == 499 && !k.send.finSent && k.send.maxWindowUser == ROOM
    && 0 < head <= next <= 40 && k.send.next == next && Head(k.send) == head
    && k.send.win.Keys == keys && (forall n :: n in k.send.win ==> Whole(k.send.win[n]))
    && k.ctl.curWindow <= SIZE * next && !k.ctl.fastTimeout
    && 0 < mark <= 40 && k.ctl.fastResend == mark && k.send.flushScanStart == next
  }

  /** Nothing more was sent or reported. */
  predicate SameTraces(k: Sock, k': Sock) {
    k'.out == k.out && k'.tags == k.tags && k'.events == k.events
  }

  /** What writing one whole packet makes of a window with nothing to send. */
  function Written(k: Sock, data: Bytes): Sock {
    var k0 := if k.send.count == 0 then k.(ctl := k.ctl.(retransmitTimeout := CALM.rto)) else k;
    WithCursor(SendPacket(Append(k0, StData, data, CALM), k.send.next), W(k.send.next + 1))
  }

  lemma WriteSends(k: Sock, data: Bytes, head: int, next: int, mark: int)
    requires Client(k, head, next, k.send.win.Keys, mark) && |data| == SIZE && next < 40
    ensures WriteOutgoingPacket(k, StData, data, CALM) == Written(k, data)
  {
    var k0 := if k.send.count == 0 then k.(ctl := k.ctl.(retransmitTimeout := CALM.rto)) else k;
    var k1 := Append(k0, StData, data, CALM);
    assert WriteRounds(k0, StData, data, CALM) == k1;
    WSmall(next - head);
    assert FlushSpan(k1.send) == 1;
    assert !IsFull(k1, -1, CALM);
    assert Flush(k1, CALM) == FlushScan(WithCursor(SendPacket(k1, next), W(next + 1)), 0, true, CALM);
  }

  lemma WrittenClient(k: Sock, k': Sock, data: Bytes, head: int, next: int, keys: set<int>, mark: int)
    requires Client(k, head, next, keys, mark) && |data| == SIZE && next < 40
    requires k' == Written(k, data) && SenderInv(k')
    ensures Client(k', head, next + 1, keys + {next}, mark)
  {
    WSmall(next + 1);
    assert k'.send.win.Keys == keys + {next};
    assert Whole(k'.send.win[next]);
  }

  lemma WrittenWrote(k: Sock, k': Sock, data: Bytes)
    requires Aligned(k) && k.recv.ack == 499 && k' == Written(k, data) && k.send.ringSize > 0
    ensures Wrote(k, k', 1)
  {
    assert SentAt(k', |k.out| - k.send.next, k.send.next);
  }

  lemma WriteOne(k: Sock, k': Sock, data: Bytes, head: int, next: int, keys: set<int>, mark: int)
    requires Client(k, head, next, keys, mark) && |data| == SIZE && next < 40
    requires k' == WriteOutgoingPacket(k, StData, data, CALM)
    ensures Client(k', head, next + 1, keys + {next}, mark) && Wrote(k, k', 1)
  {
    WriteOutgoingPacketKeeps(k, StData, data, CALM);
    WriteSends(k, data, head, next, mark);
    WrittenClient(k, k', data, head, next, keys, mark);
    WrittenWrote(k, k', data);
  }

  function Numbers(lo: int, hi: int): (r: set<int>)
    ensures forall n :: n in r <==> lo <= n < hi
    decreases hi - lo
  {
    if lo >= hi then {} else {lo} + Numbers(lo + 1, hi)
  }

  /** Each packet of `[lo, hi)` is the frame `shift` above its number. */
  ghost predicate SentFrom(k: Sock, shift: int, lo: int, hi: int) {
    forall n :: lo <= n < hi ==> SentAt(k, shift, n)
  }

  ghost predicate Wrote(k: Sock, k': Sock, count: nat) {
    && k'.events == k.events && k.out <= k'.out && k.tags <= k'.tags && |k'.out| == |k.out| + count
    && SentFrom(k', |k.out| - k.send.next, k.send.next, k.send.next + count)
    && (k.send.ringSize == 16 && k.send.count + count <= 16 ==> k'.send.ringSize == 16)
  }

  lemma WroteThen(k: Sock, k1: Sock, k2: Sock, count: nat)
    requires Wrote(k, k1, 1) && Wrote(k1, k2, count) && k1.send.next == k.send.next + 1
    requires k1.send.count == k.send.count + 1
    ensures Wrote(k, k2, count + 1)
  {
    var shift := |k.out| - k.send.next;
    assert SentAt(k1, shift, k.send.next);
    assert SentAt(k2, shift, k.send.next);
  }

  lemma WriteChunksStep(k: Sock, data: Bytes, count: nat, next: int)
    requires 0 < count && |data| == count * SIZE
    requires k.send.count <= 40 && k.ctl.curWindow <= SIZE * 40 && k.send.maxWindowUser == ROOM
    ensures var k1 := WriteOutgoingPacket(k, StData, data[..SIZE], CALM);
            WriteChunks(k, data, CALM).0 == if count == 1 then k1 else WriteChunks(k1, data[SIZE..], CALM).0
  {
    assert !IsFull(k, SIZE, CALM);
  }

  /** Whole packets are sent as they are written. */
  lemma {:induction false} WriteMany(k: Sock, k': Sock, data: Bytes, count: nat, head: int, next: int, keys: set<int>,
                                     mark: int)
    requires Client(k, head, next, keys, mark) && 0 < count && next + count <= 40 && |data| == count * SIZE
    requires k' == WriteChunks(k, data, CALM).0
    ensures Client(k', head, next + count, keys + Numbers(next, next + count), mark) && Wrote(k, k', count)
    decreases count
  {
    var k1 := WriteOutgoingPacket(k, StData, data[..SIZE], CALM);
    WriteChunksStep(k, data, count, next);
    WriteOne(k, k1, data[..SIZE], head, next, keys, mark);
    if count > 1 {
      WriteMany(k1, k', data[SIZE..], count - 1, head, next + 1, keys + {next}, mark);
      WroteThen(k, k1, k', count - 1);
      assert keys + {next} + Numbers(next + 1, next + count) == keys + Numbers(next, next + count);
    } else {
      assert keys + {next} == keys + Numbers(next, next + count);
    }
  }

  // ---------------------------------------------------------------- what it makes of an acknowledgement

  /** An acknowledgement as the server sends it. */
  predicate Ack(p: Packet, a: int) {
    && p.typ == StState && p.seqNr == 500 && p.ackNr == a && p.windowSize == ROOM && p.payload == []
    && p.sack.Some? && |p.sack.value| == 4
  }

  function Above(win: map<int, OutPkt>, a: int): map<int, OutPkt> {
    map n | n in win && n > a :: win[n]
  }

  /** An acknowledgement changes the window and the counters of the sender only. */
  predicate SenderOnly(k: Sock, k': Sock) {
    && k' == k.(send := k'.send, ctl := k'.ctl) && k'.ctl.fastResend == k.ctl.fastResend
    && k'.ctl.fastTimeout == k.ctl.fastTimeout && k'.ctl.curWindow <= k.ctl.curWindow
  }

  /** The window after `acks` packets have been taken off its head. */
  function Taken(s: SendState, acks: nat): SendState
    requires acks <= s.count
  {
    s.(count := s.count - acks, win := Above(s.win, Head(s) + acks - 1))
  }

  lemma TakenNone(s: SendState)
    requires forall n :: n in s.win ==> Head(s) <= n
    ensures Taken(s, 0) == s
  {
    assert Above(s.win, Head(s) - 1) == s.win;
  }

  lemma TakenOneMore(s: SendState, s2: SendState, acks: nat)
    requires 0 < acks <= s.count && s2 == s.(count := s.count - 1, win := s.win - {Head(s)})
    ensures Taken(s2, acks - 1) == Taken(s, acks)
  {
    assert Above(s2.win, Head(s2) + acks - 2) == Above(s.win, Head(s) + acks - 1);
  }

  /** The head is acknowledged, or was before. */
  lemma TakesHead(k: Sock, k2: Sock)
    requires k.send.count > 0 && forall n :: n in k.send.win ==> Head(k.send) <= n && Whole(k.send.win[n])
    requires var k1 := AckPacket(k, Head(k.send), CALM).0; k2 == k1.(send := k1.send.(count := k1.send.count - 1))
    ensures AckPacket(k, Head(k.send), CALM).1 != NeverSent
    ensures k2.send == k.send.(count := k.send.count - 1, win := k.send.win - {Head(k.send)}) && SenderOnly(k, k2)
    ensures forall n :: n in k2.send.win ==> Head(k2.send) <= n && Whole(k2.send.win[n])
  {
    if Head(k.send) !in k.send.win {
      assert k.send.win - {Head(k.send)} == k.send.win;
    }
  }

  lemma {:induction false} AckCumulativeTakes(k: Sock, k': Sock, acks: nat)
    requires acks <= k.send.count && k' == AckCumulative(k, acks, CALM)
    requires forall n :: n in k.send.win ==> Head(k.send) <= n && Whole(k.send.win[n])
    ensures k'.send == Taken(k.send, acks) && SenderOnly(k, k')
    decreases acks
  {
    if acks == 0 {
      TakenNone(k.send);
    } else {
      var k1 := AckPacket(k, Head(k.send), CALM).0;
      var k2 := k1.(send := k1.send.(count := k1.send.count - 1));
      TakesHead(k, k2);
      AckCumulativeTakes(k2, k', acks - 1);
      TakenOneMore(k.send, k2.send, acks);
    }
  }

  lemma {:induction false} SkipAckedTo(k: Sock, head: int)
    requires Head(k.send) <= head < k.send.next && head in k.send.win
    requires forall n :: Head(k.send) <= n < head ==> n !in k.send.win
    ensures SkipAcked(k) == k.(send := k.send.(count := k.send.next - head))
    decreases k.send.count
  {
    if Head(k.send) < head {
      SkipAckedTo(k.(send := k.send.(count := k.send.count - 1)), head);
    }
  }

  lemma SmallAck(next: int, head: int, a: int)
    requires 0 < head <= next <= 40 && head - 4 <= a < next && 0 <= a
    ensures AckAcceptable(W(next), next - head, a)
    ensures AckCount(W(next), next - head, a) == if a < head then 0 else a - head + 1
  {
    AckWindowExact(W(next), next - head, a);
    WSmall(next - 1 - a);
    WSmall(a - head + 1);
  }

  lemma SmallRaise(k: Sock, mark: int, a: int)
    requires 0 < mark <= 40 && 0 <= a < 40 && k.ctl.fastResend == mark
    ensures RaiseFastResend(k, a).ctl.fastResend == if mark < a + 1 then a + 1 else mark
  {
    WrappingLessWithinHalf(mark, a + 1);
    WSmall(a + 1);
    WSmall(mark);
  }

  /** What a client notes of an acknowledgement before it looks at its window. */
  lemma Notes(k: Sock, k1: Sock, p: Packet, a: int, acks: nat, mark: int)
    requires Ack(p, a) && 0 <= a < 40 && 0 < mark <= 40 && k.ctl.fastResend == mark
    requires k.state == Connected && !k.send.finSent && k.send.maxWindowUser == ROOM
    requires k1 == RaiseFastResend(AdvanceState(k, p, acks), a)
    ensures k1 == k.(ctl := k.ctl.(fastResend := if mark < a + 1 then a + 1 else mark))
  {
    SmallRaise(k, mark, a);
  }

  lemma Acknowledges(k: Sock, k': Sock, p: Packet, a: int, head: int, next: int, mark: int)
    requires Client(k, head, next, k.send.win.Keys, mark) && Ack(p, a) && head - 4 <= a < next && 0 <= a
    requires var acks := AckCount(W(next), next - head, a);
             k' == AckCumulative(RaiseFastResend(AdvanceState(k, p, acks), a), acks, CALM)
    ensures k'.send == k.send.(count := if a < head then k.send.count else next - a - 1, win := Above(k.send.win, a))
    ensures k' == k.(send := k'.send, ctl := k'.ctl) && k'.ctl.fastResend == if mark < a + 1 then a + 1 else mark
    ensures k'.ctl.fastTimeout == k.ctl.fastTimeout && k'.ctl.curWindow <= k.ctl.curWindow
  {
    var acks := AckCount(W(next), next - head, a);
    SmallAck(next, head, a);
    var k1 := RaiseFastResend(AdvanceState(k, p, acks), a);
    Notes(k, k1, p, a, acks, mark);
    AckCumulativeTakes(k1, k', acks);
    AboveHead(k.send.win, head, acks, a);
  }

  lemma AboveHead(win: map<int, OutPkt>, head: int, acks: nat, a: int)
    requires (forall n :: n in win ==> head <= n) && acks == if a < head then 0 else a - head + 1
    ensures Above(win, head + acks - 1) == Above(win, a)
  {
  }

  lemma Advances(k: Sock, k': Sock, p: Packet, a: int, head: int, next: int, keys: set<int>, mark: int, head': int)
    requires Client(k, head, next, keys, mark) && Ack(p, a) && head - 4 <= a < next && 0 <= a
    requires head' in Above(k.send.win, a) && (forall n :: n in Above(k.send.win, a) ==> head' <= n) && head' < next - 1
    requires k' == AfterAcks(k, p, CALM)
    ensures Client(k', head', next, Above(k.send.win, a).Keys, if mark < a + 1 then a + 1 else mark)
    ensures SameTraces(k, k') && k'.send.ringSize == k.send.ringSize
  {
    var acks := AckCount(W(next), k.send.count, a);
    var k2 := AckCumulative(RaiseFastResend(AdvanceState(k, p, acks), a), acks, CALM);
    Acknowledges(k, k2, p, a, head, next, mark);
    SkipAckedTo(k2, head');
    AfterAcksKeeps(k, p, CALM);
    AfterAcksIs(k, k2, p);
    NothingToRetry(SkipAcked(k2));
  }

  lemma AfterAcksIs(k: Sock, k2: Sock, p: Packet)
    requires var acks := AckCount(W(k.send.next), k.send.count, p.ackNr);
             k2 == AckCumulative(RaiseFastResend(AdvanceState(k, p, acks), p.ackNr), acks, CALM)
    ensures AfterAcks(k, p, CALM) == FastTimeout(SendLoneUnsent(SkipAcked(k2)))
  {
  }

  lemma NothingToRetry(k: Sock)
    requires k.send.count != 1 && !k.ctl.fastTimeout
    ensures FastTimeout(SendLoneUnsent(k)) == k
  {
  }

  // ---------------------------------------------------------------- and of its mask

  /** Exactly the bits `[lo, hi)` are set. */
  ghost predicate Marked(mask: Mask, lo: int, hi: int) {
    |mask| == 4 && 0 <= lo < hi <= 24 && forall i: nat :: i < 32 ==> (MaskBit(mask, i) <==> lo <= i < hi)
  }

  lemma SmallSackNumber(s: SendState, base: int, bits: int)
    requires 0 < s.count && 0 < Head(s) && s.next <= 40 && 2 <= base <= 40 && -1 <= bits < 32
    ensures SackNumber(s, base, bits) == if Head(s) < base + bits < s.next then Some(base + bits) else None
  {
    WSmall(s.next - (base + bits) - 1);
  }

  lemma {:induction false} CountSetBits(s: SendState, base: int, mask: Mask, lo: int, hi: int, top: int)
    requires Marked(mask, lo, hi) && -1 <= top < 32 && 0 < s.count && 0 < Head(s) && s.next <= 40 && 2 <= base <= 40
    requires Head(s) < base + lo && base + hi <= s.next
    ensures SetBits(s, base, mask, top) == if top < lo then 0 else if top < hi then top - lo + 1 else hi - lo
    decreases top + 1
  {
    if top != -1 {
      SmallSackNumber(s, base, top);
      CountSetBits(s, base, mask, lo, hi, top - 1);
    }
  }

  /** How many of the bits `[lo, hi)` lie above `bits`. */
  function BitsAbove(lo: int, hi: int, bits: int): int {
    if bits < lo then hi - lo else if bits < hi then hi - 1 - bits else 0
  }

  /** Nothing is listed by a scan whose third set bit is the lowest that speaks about a packet above
      the head. */
  lemma {:induction false} ListsNothing(s: SendState, c: Scan, c': Scan, base: int, mask: Mask, bits: int, lo: int,
                                        hi: int)
    requires Marked(mask, lo, hi) && -2 <= bits < 32 && c' == SackScan(c, base, mask, bits, CALM) && c.resends == []
    requires SameBounds(s, c.sock.send) && hi - lo <= 3 && c.found == BitsAbove(lo, hi, bits)
    requires forall b :: -1 <= b < lo ==> SackNumber(s, base, b) == None
    requires forall b :: lo <= b < hi ==> SackNumber(s, base, b).Some?
    ensures c'.resends == [] && c'.found == hi - lo && SenderOnly(c.sock, c'.sock)
    decreases bits + 2
  {
    if bits != -2 {
      var c1 := SackVisit(c, base, mask, bits, CALM);
      assert SackNumber(c.sock.send, base, bits) == SackNumber(s, base, bits);
      VisitListsNothing(c, c1, base, mask, bits, lo, hi);
      ListsNothing(s, c1, c', base, mask, bits - 1, lo, hi);
    }
  }

  lemma VisitListsNothing(c: Scan, c1: Scan, base: int, mask: Mask, bits: int, lo: int, hi: int)
    requires Marked(mask, lo, hi) && -1 <= bits < 32 && c1 == SackVisit(c, base, mask, bits, CALM) && c.resends == []
    requires hi - lo <= 3 && c.found == BitsAbove(lo, hi, bits)
    requires (bits < lo ==> SackNumber(c.sock.send, base, bits) == None)
    requires (lo <= bits < hi ==> SackNumber(c.sock.send, base, bits).Some?)
    ensures c1.resends == [] && c1.found == BitsAbove(lo, hi, bits - 1) && SenderOnly(c.sock, c1.sock)
    ensures SameBounds(c.sock.send, c1.sock.send)
  {
    SackVisitIs(c, base, mask, bits, CALM);
  }

  /** The window without the numbers `[lo, hi)` above its head. */
  function Beside(keys: set<int>, lo: int, hi: int): set<int> {
    set n | n in keys && !(lo <= n < hi)
  }

  lemma MaskCovers(base: int, mask: Mask, lo: int, hi: int, n: int)
    requires Marked(mask, lo, hi) && 0 < n <= 40 && 2 <= base <= 40
    ensures Covers(base, mask, 31, n) <==> base + lo <= n < base + hi
  {
    WSmall(n - base);
  }

  /** What is left of the window after the mask, and the list of what to resend. */
  lemma MaskTakes(k: Sock, c: Scan, base: int, mask: Mask, lo: int, hi: int, head: int, next: int, mark: int)
    requires Client(k, head, next, k.send.win.Keys, mark) && Marked(mask, lo, hi) && 2 <= base <= 40 && hi - lo <= 3
    requires base + lo - 1 <= head < base + lo && base + hi <= next
    requires c == SackScan(Scan(k, 0, []), base, mask, 31, CALM)
    ensures Client(c.sock, head, next, Beside(k.send.win.Keys, base + lo, base + hi), mark)
    ensures SameTraces(k, c.sock) && c.sock.send.ringSize == k.send.ringSize && c.resends == [] && c.found == hi - lo
  {
    forall b | -1 <= b < hi
      ensures SackNumber(k.send, base, b) == if b < lo then None else Some(base + b)
    {
      SmallSackNumber(k.send, base, b);
    }
    ListsNothing(k.send, Scan(k, 0, []), c, base, mask, 31, lo, hi);
    SackScanTakesOff(Scan(k, 0, []), base, mask, 31, CALM);
    SackScanKeeps(Scan(k, 0, []), base, mask, 31, CALM);
    forall n | n in k.send.win
      ensures TakenOff(k.send, base, mask, 31, n) <==> base + lo <= n < base + hi
    {
      MaskCovers(base, mask, lo, hi, n);
    }
  }

  /** Fewer than three bits: nothing is resent. */
  lemma FewBits(k: Sock, k': Sock, base: int, mask: Mask, lo: int, hi: int, head: int, next: int, mark: int)
    requires Client(k, head, next, k.send.win.Keys, mark) && Marked(mask, lo, hi) && 2 <= base <= 40 && hi - lo < 3
    requires base + lo - 1 <= head < base + lo && base + hi <= next && k' == SelectiveAck(k, base, mask, CALM)
    ensures Client(k', head, next, Beside(k.send.win.Keys, base + lo, base + hi), mark)
    ensures SameTraces(k, k') && k'.send.ringSize == k.send.ringSize
  {
    var c := SelectiveAckIs(k, base, mask);
    MaskTakes(k, c, base, mask, lo, hi, head, next, mark);
    assert k' == ResendLast(c.sock, [], MAX_RESENDS);
  }

  lemma SelectiveAckIs(k: Sock, base: int, mask: Mask) returns (c: Scan)
    requires k.send.count > 0 && |mask| == 4
    ensures c == SackScan(Scan(k, 0, []), base, mask, 31, CALM)
    ensures SelectiveAck(k, base, mask, CALM) == ResendLast(c.sock, SackCandidates(c, base), MAX_RESENDS)
  {
    c := SackScan(Scan(k, 0, []), base, mask, 31, CALM);
  }

  /** Three bits, and the mark just below the mask: what is in the slot of the mark is resent. */
  lemma ThreeBits(k: Sock, k': Sock, base: int, mask: Mask, lo: int, head: int, next: int, n: int)
    requires Client(k, head, next, k.send.win.Keys, base - 1) && Marked(mask, lo, lo + 3) && 2 <= base <= 40
    requires base + lo - 1 <= head < base + lo && base + lo + 3 <= next && k' == SelectiveAck(k, base, mask, CALM)
    requires n == Ring.Alias(base - 1, head, k.send.ringSize)
    ensures var keys := Beside(k.send.win.Keys, base + lo, base + lo + 3);
            if n in keys then Client(k', head, next, keys, base) && Misfired(k, k', base - 1, n)
            else Client(k', head, next, keys, base - 1) && SameTraces(k, k')
    ensures k'.send.ringSize == k.send.ringSize
  {
    var c := SelectiveAckIs(k, base, mask);
    MaskTakes(k, c, base, mask, lo, lo + 3, head, next, base - 1);
    CandidatesAre(c, base);
    SlotLookedUp(k, c.sock, k', Beside(k.send.win.Keys, base + lo, base + lo + 3), head, next, base - 1, n);
  }

  lemma SlotLookedUp(k: Sock, k1: Sock, k': Sock, keys: set<int>, head: int, next: int, v: int, n: int)
    requires 0 < v < 40 && Client(k1, head, next, keys, v) && SameTraces(k, k1) && Aligned(k)
    requires k' == ResendLast(k1, [v], MAX_RESENDS) && n == Ring.Alias(v, head, k1.send.ringSize)
    ensures if n in keys then Client(k', head, next, keys, v + 1) && Misfired(k, k', v, n)
            else Client(k', head, next, keys, v) && SameTraces(k, k')
    ensures k'.send.ringSize == k1.send.ringSize
  {
    LoneResend(k1, v, n);
    if n in keys {
      SlotResent(k1, k', head, next, v, n);
    }
  }

  lemma CandidatesAre(c: Scan, base: int)
    requires c.resends == [] && c.found == 3 && 2 <= base <= 40 && c.sock.ctl.fastResend == base - 1
    ensures SackCandidates(c, base) == [base - 1]
  {
    WSmall(base - 1);
    WSmall(0);
  }

  lemma LoneResend(k: Sock, v: U16, n: int)
    requires k.send.ringSize > 0 && n == Ring.Alias(v, Head(k.send), k.send.ringSize)
    ensures ResendLast(k, [v], MAX_RESENDS) == if n in k.send.win then ResendOne(k, v, n) else k
  {
    assert [] + [v] == [v];
    ResendStep(k, [], v, MAX_RESENDS, if n in k.send.win then ResendOne(k, v, n) else k, n in k.send.win);
  }

  /** The slot of `v` was looked up and packet `n` sent. */
  ghost predicate Misfired(k: Sock, k': Sock, v: int, n: int) {
    && 0 <= v < 40 && k'.events == k.events + [FastResend(v, |k.out|)]
    && k.out <= k'.out && k.tags <= k'.tags && |k'.out| == |k.out| + 1 && SentAt(k', |k.out| - n, n)
  }

  lemma SlotResent(k: Sock, k': Sock, head: int, next: int, v: int, n: int)
    requires 0 <= v < 40 && Client(k, head, next, k.send.win.Keys, v) && n in k.send.win && k' == ResendOne(k, v, n)
    ensures Client(k', head, next, k.send.win.Keys, v + 1) && Misfired(k, k', v, n)
    ensures k'.send.ringSize == k.send.ringSize
  {
    ResendOneKeeps(k, v, n);
    WSmall(v + 1);
    assert SentAt(k', |k.out| - n, n);
  }

  /** A connected client takes an acknowledgement of the connected server. */
  lemma TakesAck(k: Sock, p: Packet, a: int, head: int, next: int, mark: int)
    requires Client(k, head, next, k.send.win.Keys, mark) && Ack(p, a) && head - 4 <= a < next && 0 <= a
    requires AfterAcks(k, p, CALM).state == Connected
    ensures Arrive(k, p, CALM) == SelectiveAck(AfterAcks(k, p, CALM), a + 2, p.sack.value, CALM)
  {
    SmallAck(next, head, a);
    WSmall(0);
    var k1 := AfterAcks(k, p, CALM);
    assert ProcessAcks(k, p, CALM) == SelectiveAck(k1, a + 2, p.sack.value, CALM);
    SelectiveAckState(k1, a + 2, p.sack.value);
  }

  lemma SelectiveAckState(k: Sock, base: int, mask: Mask)
    ensures SelectiveAck(k, base, mask, CALM).state == k.state
  {
    GiveUp.SelectiveAckResent(k, base, mask, CALM);
  }

  // ---------------------------------------------------------------- the server

  /** A server that has written nothing, has `ack` in order, and stores `m` above the gap. */
  ghost predicate Server(k: Sock, ack: int, m: map<int, Bytes>) {
    && Aligned(k) && (k.state == SynRecv || k.state == Connected)
    && k.send.next == 500 && k.send.count == 0 && k.send.win == map[] && !k.send.finSent
    && !k.ctl.fastTimeout && k.ctl.fastResend == 500 && k.send.flushScanStart == 1
    && 0 <= ack <= 40 && k.recv.ack == ack && !k.recv.gotFin && !k.recv.gotFinReached
    && Reorder.Stores(k.recv, m)
  }

  lemma ServerIgnoresAck(k: Sock, p: Packet, n: int, ack: int, m: map<int, Bytes>)
    requires Server(k, ack, m) && Frame(p, n)
    ensures AckAcceptable(W(k.send.next), k.send.count, p.ackNr)
    ensures ReopenWindow(ProcessAcks(k, p, CALM), CALM)
         == k.(state := Connected, send := k.send.(maxWindowUser := p.windowSize))
  {
    AckWindowExact(500, 0, 499);
    WSmall(0);
    assert AckCount(500, 0, 499) == 0;
    var k1 := RaiseFastResend(AdvanceState(k, p, 0), 499);
    assert k1 == k.(state := Connected, send := k.send.(maxWindowUser := p.windowSize));
    assert AckCumulative(k1, 0, CALM) == k1 && SkipAcked(k1) == k1;
  }

  lemma ServerDelivers(k: Sock, k1: Sock, p: Packet, n: int, ack: int, m: map<int, Bytes>)
    requires Server(k, ack, m) && Frame(p, n) && ack < n <= 40
    requires k1 == k.(state := Connected, send := k.send.(maxWindowUser := p.windowSize))
    ensures Arrive(k, p, CALM) == DeliverData(k1, p, n - ack - 1, CALM).0
  {
    ServerIgnoresAck(k, p, n, ack, m);
    FrameOffset(k, p, n);
    assert ProcessIncoming(k, p, CALM) == ProcessInWindow(k, p, n - ack - 1, CALM);
  }

  lemma FrameOffset(k: Sock, p: Packet, n: int)
    requires Frame(p, n) && 0 <= k.recv.ack < n <= 40
    ensures IncomingOffset(k, p) == n - k.recv.ack - 1
  {
    WSmall(n);
    WSmall(n - k.recv.ack - 1);
  }

  lemma InOrder(k: Sock, k': Sock, p: Packet, ack: int, m: map<int, Bytes>, stop: int)
    requires Server(k, ack, m) && Frame(p, ack + 1) && ack < stop <= 40 && k' == Arrive(k, p, CALM)
    requires (forall i :: ack + 1 < i <= stop ==> i in m) && stop + 1 !in m
    ensures Server(k', stop, Reorder.Above(m, stop)) && k'.out == k.out && k'.tags == k.tags
    ensures k'.state == Connected && k'.ackPending
  {
    var k1 := k.(state := Connected, send := k.send.(maxWindowUser := p.windowSize));
    ServerDelivers(k, k1, p, ack + 1, ack, m);
    DeliversInOrder(k1, k', p.payload, ack, m, stop);
  }

  lemma DeliversInOrder(k: Sock, k': Sock, payload: Bytes, ack: int, m: map<int, Bytes>, stop: int)
    requires Server(k, ack, m) && ack < stop <= 40 && k.state == Connected && k' == DeliverInOrder(k, payload, CALM)
    requires (forall i :: ack + 1 < i <= stop ==> i in m) && stop + 1 !in m
    ensures Server(k', stop, Reorder.Above(m, stop)) && k'.out == k.out && k'.tags == k.tags
    ensures k'.state == Connected && k'.ackPending
  {
    Reorder.DeliverInOrderExact(k, payload, CALM, m);
    StopsAt(Read(k, payload).recv.(ack := ack + 1), m, ack + 1, stop);
    DeliverKeepsControl(k, payload);
  }

  lemma StopsAt(r: RecvState, m: map<int, Bytes>, n: int, stop: int)
    requires !r.gotFin && n <= stop && (forall i :: n < i <= stop ==> i in m) && stop + 1 !in m
    ensures Reorder.StopAt(r, m, n) == stop
  {
    Reorder.StopAtContiguous(r, m, n);
  }

  lemma DeliverKeepsControl(k: Sock, payload: Bytes)
    ensures DeliverInOrder(k, payload, CALM).ctl == k.ctl
  {
    var k1 := Read(k, payload);
    DrainKeepsSender(k1.(recv := k1.recv.(ack := k1.recv.ack + 1)), CALM);
  }

  lemma OutOfOrder(k: Sock, k': Sock, p: Packet, n: int, ack: int, m: map<int, Bytes>)
    requires Server(k, ack, m) && Frame(p, n) && ack + 1 < n <= 40 && n !in m && k' == Arrive(k, p, CALM)
    ensures Server(k', ack, m[n := p.payload]) && k'.out == k.out && k'.tags == k.tags
    ensures k'.state == Connected && k'.ackPending
  {
    var k1 := k.(state := Connected, send := k.send.(maxWindowUser := p.windowSize));
    ServerDelivers(k, k1, p, n, ack, m);
    StoresAbove(k1, k', p, n, ack, m);
  }

  lemma StoresAbove(k: Sock, k': Sock, p: Packet, n: int, ack: int, m: map<int, Bytes>)
    requires Server(k, ack, m) && Frame(p, n) && ack + 1 < n <= 40 && n !in m && k.state == Connected
    requires k' == DeliverData(k, p, n - ack - 1, CALM).0
    ensures Server(k', ack, m[n := p.payload]) && k'.out == k.out && k'.tags == k.tags
    ensures k'.state == Connected && k'.ackPending
  {
    Reorder.StoreOutOfOrderExact(k.recv, p, n - ack - 1, m);
    assert k' == Buffer(k, p, n - ack - 1).0;
  }

  /** Exactly `[lo, hi)` is stored. */
  ghost predicate Spans(m: map<int, Bytes>, lo: int, hi: int) {
    forall n :: n in m <==> lo <= n < hi
  }

  /** What the server last sent acknowledges `a` and marks `[a + 2 + lo, a + 2 + hi)`. */
  ghost predicate Answered(k: Sock, k': Sock, a: int, lo: int, hi: int) {
    && |k'.out| == |k.out| + 1 && k.out <= k'.out && k.tags <= k'.tags && Answer(k', |k.out|, a, lo, hi)
  }

  ghost predicate Answer(k: Sock, i: nat, a: int, lo: int, hi: int) {
    && i < |k.out| && i < |k.tags| && 0 <= a && Ack(k.out[i], a) && Marked(k.out[i].sack.value, lo, hi)
    && k.tags[i] == Tag(500, a)
  }

  lemma Answers(k: Sock, k': Sock, ack: int, m: map<int, Bytes>, lo: int, hi: int)
    requires Server(k, ack, m) && 0 <= lo < hi <= 24 && Spans(m, ack + 2 + lo, ack + 2 + hi)
    requires k' == SendAck(k, CALM)
    ensures Server(k', ack, m) && Answered(k, k', ack, lo, hi) && k'.state == k.state
  {
    StoresSome(k.recv, m, ack + 2 + lo);
    var mask := SackOf(k.recv).value;
    WSmall(ack);
    forall i: nat | i < 32
      ensures |mask| == 4 && (MaskBit(mask, i) <==> lo <= i < hi)
    {
      SackRoundTrip.BitIsStored(k.recv, m, i);
      if ack + 2 + i in m {
        Reorder.StoredRange(k.recv, m, ack + 2 + i);
      }
    }
  }

  lemma StoresSome(r: RecvState, m: map<int, Bytes>, n: int)
    requires Reorder.Stores(r, m) && n in m
    ensures r.reorderCount > 0
  {
    Reorder.RemoveOne(m, n);
  }

  const ALIVE := Timers(false, false, false, true)

  /** A keep-alive is one number out of date, so its mask starts one number lower. */
  lemma KeepsAlive(k: Sock, k': Sock, ack: int, m: map<int, Bytes>, lo: int, hi: int)
    requires Server(k, ack, m) && 0 <= lo < hi <= 23 && Spans(m, ack + 2 + lo, ack + 2 + hi)
    requires k.state == Connected && 0 < ack && k' == CheckTimeouts(k, ALIVE, CALM, CALM)
    ensures Server(k', ack, m) && Answered(k, k', ack - 1, lo + 1, hi + 1) && k'.state == Connected
  {
    StoresSome(k.recv, m, ack + 2 + lo);
    assert k' == SendKeepAlive(k, CALM) by {
      WSmall(-499);
      assert FlushSpan(k.send) == 0;
    }
    var r := k.recv.(ack := ack - 1);
    var mask := SackOf(r).value;
    WSmall(ack - 1);
    forall i: nat | i < 32
      ensures |mask| == 4 && (MaskBit(mask, i) <==> lo + 1 <= i < hi + 1)
    {
      MaskRoundTrip(SackBits(r), i);
      if i < Min(SACK_BITS, |r.inbuf|) {
        Reorder.KeepAliveBitsExact(k.recv, m, i);
      }
      if ack + 1 + i in m {
        Reorder.StoredRange(k.recv, m, ack + 1 + i);
      }
    }
  }

  // ---------------------------------------------------------------- the run

  ghost predicate Scene(s: System, head: int, next: int, keys: set<int>, mark: int, ack: int, m: map<int, Bytes>) {
    Client(s.a, head, next, keys, mark) && Server(s.b, ack, m)
  }

  lemma Stay(k: Sock, k': Sock, shift: int, lo: int, hi: int)
    requires SentFrom(k, shift, lo, hi) && k.out <= k'.out && k.tags <= k'.tags
    ensures SentFrom(k', shift, lo, hi)
  {
    forall n | lo <= n < hi
      ensures SentAt(k', shift, n)
    {
      assert SentAt(k, shift, n);
    }
  }

  /** The client writes `count` whole packets. */
  lemma Writes(t: Trace, s: System, count: nat, head: int, next: int, keys: set<int>, mark: int, ack: int,
               m: map<int, Bytes>) returns (t': Trace, s': System, keys': set<int>)
    requires At(t, s) && Scene(s, head, next, keys, mark, ack, m) && 0 < count && next + count <= 40
    ensures At(t', s') && Adds(t, t', AtA(CallWritev(Data(count), CALM)))
    ensures Scene(s', head, next + count, keys', mark, ack, m) && s'.b == s.b && Wrote(s.a, s'.a, count)
    ensures forall n :: n in keys' <==> n in keys || next <= n < next + count
  {
    t', s' := Goes(t, s, AtA(CallWritev(Data(count), CALM)));
    WriteMany(s.a, s'.a, Data(count), count, head, next, keys, mark);
    keys' := keys + Numbers(next, next + count);
  }

  /** Packet `n`, which is frame `i`, arrives above a gap. */
  lemma ArrivesAbove(t: Trace, s: System, i: nat, n: int, head: int, next: int, keys: set<int>, mark: int,
                     ack: int, m: map<int, Bytes>) returns (t': Trace, s': System, m': map<int, Bytes>)
    requires At(t, s) && Scene(s, head, next, keys, mark, ack, m) && SentAt(s.a, i - n, n)
    requires ack + 1 < n <= 40 && n !in m
    ensures At(t', s') && Adds(t, t', ToB(i, CALM)) && Scene(s', head, next, keys, mark, ack, m') && s'.a == s.a
    ensures forall i :: i in m' <==> i in m || i == n
    ensures s'.b.out == s.b.out && s'.b.tags == s.b.tags
    ensures s'.b.state == Connected && s'.b.ackPending
  {
    t', s' := Goes(t, s, ToB(i, CALM));
    OutOfOrder(s.b, s'.b, s.a.out[i], n, ack, m);
    m' := m[n := s.a.out[i].payload];
  }

  /** The next packet in order arrives, and `stop` is the last number that follows without a gap. */
  lemma ArrivesNext(t: Trace, s: System, i: nat, head: int, next: int, keys: set<int>, mark: int,
                    ack: int, m: map<int, Bytes>, stop: int) returns (t': Trace, s': System, m': map<int, Bytes>)
    requires At(t, s) && Scene(s, head, next, keys, mark, ack, m) && i == ack + 1 && SentAt(s.a, 0, i)
    requires ack < stop <= 40 && (forall i :: ack + 1 < i <= stop ==> i in m) && stop + 1 !in m
    ensures At(t', s') && Adds(t, t', ToB(i, CALM)) && Scene(s', head, next, keys, mark, stop, m') && s'.a == s.a
    ensures (forall n :: n in m' <==> n in m && n > stop) && s'.b.out == s.b.out && s'.b.tags == s.b.tags
    ensures s'.b.state == Connected && s'.b.ackPending
  {
    t', s' := Goes(t, s, ToB(i, CALM));
    InOrder(s.b, s'.b, s.a.out[i], ack, m, stop);
    m' := Reorder.Above(m, stop);
  }

  /** The deferred acknowledgement is sent. */
  lemma SendsAck(t: Trace, s: System, head: int, next: int, keys: set<int>, mark: int,
                 ack: int, m: map<int, Bytes>, lo: int, hi: int) returns (t': Trace, s': System)
    requires At(t, s) && Scene(s, head, next, keys, mark, ack, m) && s.b.ackPending
    requires 0 <= lo < hi <= 24 && Spans(m, ack + 2 + lo, ack + 2 + hi)
    ensures At(t', s') && Adds(t, t', AtB(CallDeferredAck(CALM))) && Scene(s', head, next, keys, mark, ack, m)
    ensures s'.a == s.a
    ensures Answered(s.b, s'.b, ack, lo, hi) && s'.b.state == s.b.state
  {
    t', s' := Goes(t, s, AtB(CallDeferredAck(CALM)));
    Answers(s.b, s'.b, ack, m, lo, hi);
  }

  lemma SendsKeepAlive(t: Trace, s: System, head: int, next: int, keys: set<int>, mark: int,
                       ack: int, m: map<int, Bytes>, lo: int, hi: int) returns (t': Trace, s': System)
    requires At(t, s) && Scene(s, head, next, keys, mark, ack, m) && s.b.state == Connected && 0 < ack
    requires 0 <= lo < hi <= 23 && Spans(m, ack + 2 + lo, ack + 2 + hi)
    ensures At(t', s') && Adds(t, t', AtB(CallTimeouts(ALIVE, CALM, CALM)))
    ensures Scene(s', head, next, keys, mark, ack, m) && s'.a == s.a
    ensures Answered(s.b, s'.b, ack - 1, lo + 1, hi + 1) && s'.b.state == Connected
  {
    t', s' := Goes(t, s, AtB(CallTimeouts(ALIVE, CALM, CALM)));
    KeepsAlive(s.b, s'.b, ack, m, lo, hi);
  }

  function After(keys: set<int>, a: int): set<int> {
    set n | n in keys && n > a
  }

  lemma TakesFewBits(k: Sock, k': Sock, p: Packet, a: int, lo: int, hi: int, head: int, next: int, keys: set<int>,
                     mark: int)
    requires Client(k, head, next, keys, mark) && Ack(p, a) && Marked(p.sack.value, lo, hi) && hi - lo < 3
    requires 0 <= a && head - 1 == a && head in keys && a + 1 + lo <= head < a + 2 + lo && a + 2 + hi <= next
    requires mark == a + 1
    requires k' == Arrive(k, p, CALM)
    ensures Client(k', head, next, Beside(keys, a + 2 + lo, a + 2 + hi), mark) && SameTraces(k, k')
    ensures k'.send.ringSize == k.send.ringSize
  {
    var k1 := AfterAcks(k, p, CALM);
    AllAbove(k.send.win, a);
    Advances(k, k1, p, a, head, next, keys, mark, head);
    TakesAck(k, p, a, head, next, mark);
    FewBits(k1, k', a + 2, p.sack.value, lo, hi, head, next, mark);
  }

  lemma AllAbove(win: map<int, OutPkt>, a: int)
    requires forall n :: n in win ==> a < n
    ensures Above(win, a) == win
  {
  }

  /** An answer with fewer than three bits arrives at the client. */
  lemma AnswerArrives(t: Trace, s: System, i: nat, a: int, lo: int, hi: int, head: int, next: int, keys: set<int>,
                      mark: int, ack: int, m: map<int, Bytes>) returns (t': Trace, s': System, keys': set<int>)
    requires At(t, s) && Scene(s, head, next, keys, mark, ack, m) && Answer(s.b, i, a, lo, hi) && hi - lo < 3
    requires head - 1 == a && head in keys && a + 1 + lo <= head < a + 2 + lo && a + 2 + hi <= next && mark == a + 1
    ensures At(t', s') && Adds(t, t', ToA(i, CALM)) && s'.b == s.b && SameTraces(s.a, s'.a)
    ensures Scene(s', head, next, keys', mark, ack, m)
    ensures forall n :: n in keys' <==> n in keys && !(a + 2 + lo <= n < a + 2 + hi)
    ensures s'.a.send.ringSize == s.a.send.ringSize
  {
    t', s' := Goes(t, s, ToA(i, CALM));
    TakesFewBits(s.a, s'.a, s.b.out[i], a, lo, hi, head, next, keys, mark);
    keys' := Beside(keys, a + 2 + lo, a + 2 + hi);
  }

  lemma TakesThreeBits(k: Sock, k': Sock, p: Packet, a: int, lo: int, head: int, next: int, keys: set<int>, mark: int,
                       head': int, n: int)
    requires Client(k, head, next, keys, mark) && Ack(p, a) && Marked(p.sack.value, lo, lo + 3)
    requires 0 <= a && head - 4 <= a < next && mark <= a + 1 && head' in keys && a < head'
    requires forall i :: i in keys && i > a ==> head' <= i
    requires a + 1 + lo <= head' < a + 2 + lo && a + 5 + lo <= next && n == Ring.Alias(a + 1, head', k.send.ringSize)
    requires k' == Arrive(k, p, CALM)
    ensures var keys' := Beside(After(keys, a), a + 2 + lo, a + 5 + lo);
            if n in keys' then Client(k', head', next, keys', a + 2) && Misfired(k, k', a + 1, n)
            else Client(k', head', next, keys', a + 1) && SameTraces(k, k')
    ensures k'.send.ringSize == k.send.ringSize
  {
    var k1 := AfterAcks(k, p, CALM);
    AboveKeys(k.send.win, a);
    Advances(k, k1, p, a, head, next, keys, mark, head');
    TakesAck(k, p, a, head, next, mark);
    ThreeBits(k1, k', a + 2, p.sack.value, lo, head', next, n);
  }

  lemma AboveKeys(win: map<int, OutPkt>, a: int)
    ensures Above(win, a).Keys == After(win.Keys, a)
  {
  }

  /** An answer with three bits arrives, and its number is, or becomes, just below the mark: what
      the slot of the mark holds is resent. */
  lemma AnswerResends(t: Trace, s: System, i: nat, a: int, lo: int, head: int, next: int, keys: set<int>, mark: int,
                      ack: int, m: map<int, Bytes>, head': int, n: int)
    returns (t': Trace, s': System, keys': set<int>)
    requires At(t, s) && Scene(s, head, next, keys, mark, ack, m) && Answer(s.b, i, a, lo, lo + 3)
    requires head - 4 <= a < next && mark <= a + 1 && head' in keys && a < head'
    requires forall i :: i in keys && i > a ==> head' <= i
    requires a + 1 + lo <= head' < a + 2 + lo && a + 5 + lo <= next && n == Ring.Alias(a + 1, head', s.a.send.ringSize)
    ensures At(t', s') && Adds(t, t', ToA(i, CALM)) && s'.b == s.b
    ensures if n in keys' then Scene(s', head', next, keys', a + 2, ack, m) && Misfired(s.a, s'.a, a + 1, n)
            else Scene(s', head', next, keys', a + 1, ack, m) && SameTraces(s.a, s'.a)
    ensures forall i :: i in keys' <==> i in keys && i > a && !(a + 2 + lo <= i < a + 5 + lo)
    ensures s'.a.send.ringSize == s.a.send.ringSize
  {
    t', s' := Goes(t, s, ToA(i, CALM));
    TakesThreeBits(s.a, s'.a, s.b.out[i], a, lo, head, next, keys, mark, head', n);
    keys' := Beside(After(keys, a), a + 2 + lo, a + 5 + lo);
  }

  /** A client that has sent its SYN. */
  ghost predicate Opening(k: Sock) {
    && SenderInv(k) && OnlySynSent(k, 0) && Aligned(k) && |k.out| == 1 && k.events == []
    && k.send.ringSize == 16 && k.send.flushScanStart == 1 && k.ctl.fastResend == 1 && !k.send.finSent
      && k.recv.ack == UNKNOWN
    && !k.ctl.fastTimeout
  }

  /** What the first answer makes of the client. */
  ghost predicate Opened(k: Sock, k': Sock) {
    && SenderInv(k') && k'.state == Connected && k'.recv.ack == 499 && k'.out == k.out && k'.tags == k.tags
    && k'.send == k.send.(count := 0, win := map[], maxWindowUser := ROOM)
    && k'.ctl.fastResend == RaiseFastResend(k, 0).ctl.fastResend && !k'.ctl.fastTimeout
    && k'.events == k.events + [OnConnect]
  }
}
