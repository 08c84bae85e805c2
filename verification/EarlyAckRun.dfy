/** A run in which an early acknowledgement does harm. The server's first number is 65,535. The client's
    application reports something read before the first answer arrives, so an acknowledgement of
    number 0 goes out. When it arrives, the server has sent one packet and its end of stream,
    number 65,536, which wraps to 0: the server takes both for received. */
module EarlyAckRun {
  import opened Serial
  import opened Protocol
  import opened Conservation
  import opened CursorLag
  import opened FirstWrite
  import opened GiveUp
  import opened Handshake
  import opened Network
  import opened EndToEnd
  import opened Traces
  import ChannelReceiver

  /** The read buffer when the SYN is sent; `ROOMY` has twice as much. */
  const HALF := Env(1400, 1_000_000, 500_000, 1000)

  function Start(): System {
    Accepted(10, 65535, HALF)
  }

  // ---------------------------------------------------------------- the client

  /** The acknowledgement that is sent too early. */
  function Hasty(): Packet {
    Packet(StState, 11, 0, 1_000_000, None, [])
  }

  lemma SendsHasty(a: Sock, a1: Sock, a2: Sock)
    requires a == Start().a && a1 == Do(a, CallReadDrained(ROOMY)) && a2 == Do(a1, CallDeferredAck(ROOMY))
    ensures Connecting(a2, 10) && |a2.out| == 2 && a2.out[1] == Hasty() && a2.ctl.fastResend == 1
    ensures a2.send.flushScanStart == 1
  {
    StartsConnecting(10, 65535, HALF);
    CallWhileConnecting(a, a1, CallReadDrained(ROOMY), 10);
    CallWhileConnecting(a1, a2, CallDeferredAck(ROOMY), 10);
    WSmall(11);
    WSmall(0);
  }

  /** A connected client about to write the packet `n` into a window that has room. */
  ghost predicate CanWrite(a: Sock, n: int) {
    && SenderInv(a) && a.state == Connected && !a.send.finSent && a.send.maxWindowUser == 500_000
    && a.send.next == n && a.ctl.curWindow <= 1400 && a.recv.ack == 65534 && a.events == [OnConnect]
    && 11 <= n <= 12 && a.send.count == n - 11 && a.send.flushScanStart == (if n == 11 then 1 else n)
    && (n == 12 ==> 11 in a.send.win && a.send.win[11].transmissions > 0)
  }

  lemma ClientOpens(a: Sock, a': Sock, p: Packet)
    requires Connecting(a, 10) && a.send.flushScanStart == 1
    requires p == Packet(StState, 65535, 10, 500_000, None, []) && a' == Arrive(a, p, ROOMY)
    ensures CanWrite(a', 11) && a'.out == a.out && a'.tags == a.tags
  {
    WSmall(10);
    FirstAnswer(a, a', p, 10, ROOMY);
    IncomingKeeps(a, p, ROOMY);
    NothingLeft(a');
  }

  /** The packet `n` is appended, and is the one number the flush looks at. */
  lemma AppendsOne(a: Sock, data: Bytes, n: int) returns (a1: Sock)
    requires CanWrite(a, n) && |data| == 1400
    ensures n in a1.send.win
    ensures WriteOutgoingPacket(a, StData, data, ROOMY) == WithCursor(SendPacket(a1, n), W(n + 1))
    ensures a1.out == a.out && a1.tags == a.tags && a1.events == a.events && a1.recv.ack == a.recv.ack
    ensures a1.send.win == a.send.win[n := OutPkt(StData, W(n), 1_000_000, data, 0, false)]
    ensures a1.send.next == n + 1 && a1.send.count == a.send.count + 1 && a1.state == Connected && !a1.send.finSent
    ensures a1.send.maxWindowUser == 500_000 && a1.ctl.curWindow == a.ctl.curWindow
  {
    var a0 := if a.send.count == 0 then a.(ctl := a.ctl.(retransmitTimeout := ROOMY.rto)) else a;
    a1 := Append(a0, StData, data, ROOMY);
    assert WriteRounds(a0, StData, data, ROOMY) == a1;
    WSmall(1 - 11);
    WSmall(1);
    assert FlushSpan(a1.send) == 1;
    assert !IsFull(a1, -1, ROOMY);
    assert Flush(a1, ROOMY) == FlushScan(WithCursor(SendPacket(a1, n), W(n + 1)), 0, true, ROOMY);
  }

  lemma WritesOne(a: Sock, a': Sock, data: Bytes, n: int)
    requires CanWrite(a, n) && |data| == 1400 && a' == WriteOutgoingPacket(a, StData, data, ROOMY)
    ensures a'.out == a.out + [Packet(StData, n, 65534, 1_000_000, None, data)]
    ensures |a'.tags| == |a.tags| + 1 && a.tags <= a'.tags && a'.tags[|a.tags|] == Tag(n, 65534)
    ensures a'.events == a.events && (n == 11 ==> CanWrite(a', 12))
  {
    WriteOutgoingPacketKeeps(a, StData, data, ROOMY);
    var a1 := AppendsOne(a, data, n);
    WSmall(n);
    WSmall(n + 1);
    WSmall(65534);
  }

  lemma WritesWhole(a: Sock, a': Sock, n: int)
    requires CanWrite(a, n) && a' == Do(a, CallWritev(Whole(), ROOMY))
    ensures a' == WriteOutgoingPacket(a, StData, Whole(), ROOMY)
  {
    assert !IsFull(a, 1400, ROOMY);
    assert Whole()[..1400] == Whole();
  }

  // ---------------------------------------------------------------- the server

  /** The second packet, which overtakes the first. */
  function Second(): Packet {
    Packet(StData, 12, 65534, 1_000_000, None, Whole())
  }

  /** The server after it has answered the SYN. */
  ghost predicate Answered(b: Sock) {
    && SenderInv(b) && b.state == SynRecv && b.send.next == 65535 && b.send.count == 0 && b.send.win == map[]
    && !b.send.finSent && !b.ctl.fastTimeout && b.send.flushScanStart == 1 && b.recv.ack == 10 && !b.recv.gotFin
  }

  lemma StartAnswered(b: Sock)
    requires b == Start().b
    ensures Answered(b) && b.out[..] == [Packet(StState, 65535, 10, 500_000, None, [])] && b.tags == [Tag(65535, 10)]
  {
    StartsConnecting(10, 65535, HALF);
    WSmall(10);
    WSmall(65535);
  }

  lemma SecondIsNear(b: Sock)
    requires Answered(b)
    ensures AckAcceptable(W(b.send.next), b.send.count, 65534) && AckCount(W(b.send.next), b.send.count, 65534) == 0
    ensures IncomingOffset(b, Second()) == 1
  {
    AckBelowCounts(65535, 0, 65535, 0);
    WSmall(65534);
    WSmall(1);
  }

  lemma SecondIsKept(b: Sock, b': Sock)
    requires b.state == Connected && !b.recv.gotFin && b' == DeliverData(b, Second(), 1, ROOMY).0
    ensures b'.send == b.send && b'.state == b.state && b'.recv.ack == b.recv.ack
  {
    DeliverDataKeepsSender(b, Second(), 1, ROOMY);
  }

  lemma ServerConnects(b: Sock, b': Sock)
    requires Answered(b) && b' == Arrive(b, Second(), ROOMY)
    ensures JustOpen(b', 65535) && b'.recv.ack == 10
  {
    var p := Second();
    SecondIsNear(b);
    IncomingKeeps(b, p, ROOMY);
    var b1 := RaiseFastResend(AdvanceState(b, p, 0), p.ackNr);
    AcksNothing(b, b1, p);
    SecondIsKept(b1, DeliverData(b1, p, 1, ROOMY).0);
  }

  /** The server's one packet has been written. */
  ghost predicate WroteOne(b: Sock) {
    && SenderInv(b) && b.state == Connected && !b.send.finSent && b.recv.ack == 10
    && b.send.next == 65536 && b.send.count == 1
  }

  lemma ServerWrites(b: Sock, b': Sock)
    requires JustOpen(b, 65535) && b.recv.ack == 10 && b' == Do(b, CallWritev(Whole(), ROOMY))
    ensures WroteOne(b')
  {
    DoKeeps(b, CallWritev(Whole(), ROOMY));
    var k := WriteFlushes(b, b', 65535);
    FlushScanShape(k, FlushSpan(k.send), true, ROOMY);
    ChannelReceiver.WriteChunksSpoke(b, Whole(), ROOMY);
    WriteKeepsState(b, b', k);
  }

  lemma WriteKeepsState(b: Sock, b': Sock, k: Sock)
    requires JustOpen(b, 65535) && b' == Do(b, CallWritev(Whole(), ROOMY)) && SameShape(k, b')
    ensures b'.state == Connected && !b'.send.finSent
  {
    assert !IsFull(b, 1400, ROOMY);
    assert Whole()[..1400] == Whole();
    WriteOutgoingPacketState(b, StData, Whole(), ROOMY);
    WriteOutgoingPacketKeeps(b, StData, Whole(), ROOMY);
  }

  /** And its end of stream, number 65,536. */
  ghost predicate Ended(b: Sock) {
    && b.state == Connected && b.send.finSent && b.recv.ack == 10 && b.send.next == 65537 && b.send.count == 2
  }

  lemma ServerEnds(b: Sock, b': Sock)
    requires WroteOne(b) && b' == Do(b, CallShutdown(ShutWr, ROOMY))
    ensures Ended(b')
  {
    var k := b.(send := b.send.(finSent := true));
    var k1 := Append(k, StFin, [], ROOMY);
    assert WriteRounds(k, StFin, [], ROOMY) == k1;
    FlushScanShape(k1, FlushSpan(k1.send), true, ROOMY);
  }

  /** The early acknowledgement counts for both of them. */
  lemma ServerIsMisled(b: Sock, b': Sock)
    requires Ended(b) && b' == Arrive(b, Hasty(), ROOMY)
    ensures b'.send.finSentAcked
  {
    WSmall(65537);
    AckBelowCounts(65537, 2, 65537, 2);
    WSmall(65536);
    WSmall(0);
    assert IncomingOffset(b, Hasty()) == 0;
    ProcessAcksResent(b, Hasty(), ROOMY);
  }

  // ---------------------------------------------------------------- the run

  function Steps(): seq<Step> {
    [AtA(CallReadDrained(ROOMY)), AtA(CallDeferredAck(ROOMY)), ToA(0, ROOMY), AtA(CallWritev(Whole(), ROOMY)),
     AtA(CallWritev(Whole(), ROOMY)), ToB(3, ROOMY), AtB(CallWritev(Whole(), ROOMY)), AtB(CallShutdown(ShutWr, ROOMY)),
     ToB(1, ROOMY)]
  }

  lemma ClientWrites(a: Sock, a1: Sock, a2: Sock)
    requires CanWrite(a, 11) && |a.out| == 2 == |a.tags| && a.out[1] == Hasty()
    requires a1 == Do(a, CallWritev(Whole(), ROOMY)) && a2 == Do(a1, CallWritev(Whole(), ROOMY))
    ensures |a2.out| == 4 == |a2.tags| && a2.out[1] == Hasty() && a2.out[3] == Second() && a2.tags[3] == Tag(12, 65534)
    ensures a2.events == [OnConnect]
  {
    WritesWhole(a, a1, 11);
    WritesOne(a, a1, Whole(), 11);
    WritesWhole(a1, a2, 12);
    WritesOne(a1, a2, Whole(), 12);
  }

  lemma CallsA(t: Trace, s: System, call: Call) returns (t': Trace, s': System)
    requires At(t, s) && !call.CallIncoming?
    ensures At(t', s') && Adds(t, t', AtA(call)) && s'.a == Do(s.a, call) && s'.b == s.b
  {
    t', s' := Goes(t, s, AtA(call));
  }

  lemma CallsB(t: Trace, s: System, call: Call) returns (t': Trace, s': System)
    requires At(t, s) && !call.CallIncoming?
    ensures At(t', s') && Adds(t, t', AtB(call)) && s'.b == Do(s.b, call) && s'.a == s.a
  {
    t', s' := Goes(t, s, AtB(call));
  }

  lemma ReachesB(t: Trace, s: System, i: nat) returns (t': Trace, s': System)
    requires At(t, s) && i < |s.a.out| && (i < |s.a.tags| ==> FrameRecent(s.b, s.a.out[i], s.a.tags[i]))
    ensures At(t', s') && Adds(t, t', ToB(i, ROOMY)) && s'.b == Arrive(s.b, s.a.out[i], ROOMY) && s'.a == s.a
  {
    t', s' := Goes(t, s, ToB(i, ROOMY));
  }

  lemma ReachesA(t: Trace, s: System, i: nat) returns (t': Trace, s': System)
    requires At(t, s) && i < |s.b.out| && (i < |s.b.tags| ==> AckRecent(s.a, s.b.out[i], s.b.tags[i]))
    ensures At(t', s') && Adds(t, t', ToA(i, ROOMY)) && s'.a == Arrive(s.a, s.b.out[i], ROOMY) && s'.b == s.b
  {
    t', s' := Goes(t, s, ToA(i, ROOMY));
  }

  lemma Hurries(s0: System) returns (t: Trace, s: System)
    requires s0 == Start()
    ensures At(t, s) && t.start == s0 && t.steps == [] + [AtA(CallReadDrained(ROOMY))] + [AtA(CallDeferredAck(ROOMY))]
    ensures s.b == s0.b && Connecting(s.a, 10) && |s.a.out| == 2 && s.a.out[1] == Hasty()
    ensures s.a.send.flushScanStart == 1
  {
    var s1;
    t, s1 := CallsA(Trace(s0, [], [s0]), s0, CallReadDrained(ROOMY));
    t, s := CallsA(t, s1, CallDeferredAck(ROOMY));
    SendsHasty(s0.a, s1.a, s.a);
  }

  lemma Connects(t0: Trace, s0: System) returns (t: Trace, s: System)
    requires At(t0, s0) && s0.b == Start().b
    requires Connecting(s0.a, 10) && |s0.a.out| == 2 && s0.a.out[1] == Hasty() && s0.a.send.flushScanStart == 1
    ensures At(t, s) && Adds(t0, t, ToA(0, ROOMY)) && s.b == s0.b
    ensures CanWrite(s.a, 11) && |s.a.out| == 2 == |s.a.tags| && s.a.out[1] == Hasty()
  {
    StartAnswered(s0.b);
    assert s0.b.out[0] == s0.b.out[..][0];
    t, s := ReachesA(t0, s0, 0);
    ClientOpens(s0.a, s.a, s0.b.out[0]);
  }

  lemma Writes(t0: Trace, s0: System) returns (t: Trace, s: System)
    requires At(t0, s0) && CanWrite(s0.a, 11) && |s0.a.out| == 2 == |s0.a.tags| && s0.a.out[1] == Hasty()
    ensures At(t, s) && t.start == t0.start && s.b == s0.b
    ensures t.steps == t0.steps + [AtA(CallWritev(Whole(), ROOMY))] + [AtA(CallWritev(Whole(), ROOMY))]
    ensures |s.a.out| == 4 == |s.a.tags| && s.a.out[1] == Hasty() && s.a.out[3] == Second()
    ensures s.a.tags[3] == Tag(12, 65534) && s.a.events == [OnConnect]
  {
    var s1;
    t, s1 := CallsA(t0, s0, CallWritev(Whole(), ROOMY));
    t, s := CallsA(t, s1, CallWritev(Whole(), ROOMY));
    ClientWrites(s0.a, s1.a, s.a);
  }

  lemma Answers(t0: Trace, s0: System) returns (t: Trace, s: System)
    requires At(t0, s0) && Answered(s0.b) && |s0.a.out| == 4 == |s0.a.tags| && s0.a.out[3] == Second()
    requires s0.a.tags[3] == Tag(12, 65534)
    ensures At(t, s) && t.start == t0.start && s.a == s0.a && Ended(s.b)
    ensures t.steps == t0.steps + [ToB(3, ROOMY)] + [AtB(CallWritev(Whole(), ROOMY))]
                       + [AtB(CallShutdown(ShutWr, ROOMY))]
  {
    var s1, s2;
    t, s1 := ReachesB(t0, s0, 3);
    ServerConnects(s0.b, s1.b);
    t, s2 := CallsB(t, s1, CallWritev(Whole(), ROOMY));
    ServerWrites(s1.b, s2.b);
    t, s := CallsB(t, s2, CallShutdown(ShutWr, ROOMY));
    ServerEnds(s2.b, s.b);
  }

  lemma Misleads(t0: Trace, s0: System) returns (t: Trace, s: System)
    requires At(t0, s0) && Ended(s0.b) && |s0.a.out| == 4 && s0.a.out[1] == Hasty()
    ensures At(t, s) && Adds(t0, t, ToB(1, ROOMY)) && s.a == s0.a && s.b.send.finSentAcked
  {
    t, s := ReachesB(t0, s0, 1);
    ServerIsMisled(s0.b, s.b);
  }

  lemma Story(s0: System) returns (t: Trace, s: System)
    requires s0 == Start()
    ensures At(t, s) && t.start == s0 && t.steps == Steps() && s.b.send.finSentAcked && s.a.events == [OnConnect]
  {
    t, s := Hurries(s0);
    StartAnswered(s.b);
    t, s := Connects(t, s);
    t, s := Writes(t, s);
    t, s := Answers(t, s);
    t, s := Misleads(t, s);
    assert t.steps == Steps();
  }

  /** In this run everything the client sends of its stream and everything the server acknowledges is
      on time, and yet the server's end of stream counts as acknowledged although the client has
      not reached it. */
  lemma HastyAckMisleads()
    ensures TimelyRun(Accepted(10, 65535, HALF), Steps())
    ensures var s := Run(Accepted(10, 65535, HALF), Steps());
            s.b.send.finSentAcked && OnEof !in s.a.events && !SafeBothWays(s)
  {
    var t, s := Story(Start());
    IsRun(t, s);
  }
}
