/** The first packet written after opening a connection, while the cursor of `flush_packets` is still
    where it was initialised. */
module FirstWrite {
  import opened Serial
  import opened Protocol
  import opened Conservation
  import opened CursorLag
  import opened Network

  // ---------------------------------------------------------------- from connect

  function FirstAnswerTo(seqNr: U16): Packet {
    Packet(StState, 500, seqNr, 1_000_000, None, [])
  }

  lemma ConnectOpens(k: Sock, seqNr: U16)
    requires k == Do(Connect(Fresh(), seqNr, ROOMY), CallIncoming(FirstAnswerTo(seqNr), ROOMY))
    ensures JustOpen(k, seqNr + 1) && |k.out| == 1
  {
    ConservationOverRuns(ROOMY, seqNr, 0, []);
    var k0 := Connect(Fresh(), seqNr, ROOMY);
    WSmall(seqNr);
    FirstAnswer(k0, k, FirstAnswerTo(seqNr), seqNr, ROOMY);
    IncomingKeeps(k0, FirstAnswerTo(seqNr), ROOMY);
  }

  /** After `connect` and the first answer, the first packet is sent unless `connect` drew 65,535. */
  lemma FirstAfterConnect(seqNr: U16, k0: Sock, k: Sock)
    requires k0 == Connect(Fresh(), seqNr, ROOMY)
    requires k == DoAll(k0, [CallIncoming(FirstAnswerTo(seqNr), ROOMY), CallWritev(Whole(), ROOMY)])
    ensures |k.out| == if seqNr == 0xffff then 1 else 2
    ensures seqNr == 0xffff ==> Missed(k, 0x1_0000)
  {
    var k1 := Do(k0, CallIncoming(FirstAnswerTo(seqNr), ROOMY));
    ConnectOpens(k1, seqNr);
    WrapsAfterLast(seqNr);
    FirstAfterOpening(k0, k1, k, CallIncoming(FirstAnswerTo(seqNr), ROOMY), seqNr + 1);
  }

  lemma WrapsAfterLast(seqNr: U16)
    ensures W(seqNr + 1) == 0 <==> seqNr == 0xffff
  {
    WSmall(seqNr + 1);
  }

  // ---------------------------------------------------------------- from accept_syn

  /** The first packet of a client whose SYN had the number `peerSeq`. */
  function FirstData(peerSeq: U16, seqNr: U16): Packet {
    Packet(StData, W(peerSeq + 1), W(seqNr - 1), 1_000_000, None, [])
  }

  /** It connects the socket, whose own numbers and window stay as they were. */
  lemma AcceptOpens(k: Sock, peerSeq: U16, seqNr: U16)
    requires k == Do(AcceptSyn(Fresh(), peerSeq, seqNr), CallIncoming(FirstData(peerSeq, seqNr), ROOMY))
    ensures JustOpen(k, seqNr) && |k.out| == 0 && |k.tags| == 0
  {
    var k0 := AcceptSyn(Fresh(), peerSeq, seqNr);
    var p := FirstData(peerSeq, seqNr);
    ConservationOverRuns(ROOMY, seqNr, peerSeq, []);
    IncomingKeeps(k0, p, ROOMY);
    DataIsNext(k0, peerSeq, seqNr);
    var k1 := RaiseFastResend(AdvanceState(k0, p, 0), p.ackNr);
    AcksNothing(k0, k1, p);
    var k2 := ReopenWindow(ProcessAcks(k0, p, ROOMY), ROOMY);
    assert k2 == k1;
    EmptyDelivered(k2, DeliverInOrder(k2, [], ROOMY));
  }

  lemma DataIsNext(k: Sock, peerSeq: U16, seqNr: U16)
    requires k == AcceptSyn(Fresh(), peerSeq, seqNr)
    ensures var p := FirstData(peerSeq, seqNr);
            && AckAcceptable(W(k.send.next), k.send.count, p.ackNr)
            && AckCount(W(k.send.next), k.send.count, p.ackNr) == 0 && IncomingOffset(k, p) == 0
  {
    var n: int := seqNr;
    WSmall(n);
    AckBelowCounts(n, 0, n, 0);
    WDistance(peerSeq + 1, peerSeq + 1);
    WSmall(0);
  }

  lemma AcksNothing(k: Sock, k1: Sock, p: Packet)
    requires k.state == SynRecv && k.send.count == 0 && k.send.win == map[] && !k.ctl.fastTimeout && !k.send.finSent
    requires p.typ == StData && p.sack == None && AckCount(W(k.send.next), k.send.count, p.ackNr) == 0
    requires k1 == RaiseFastResend(AdvanceState(k, p, 0), p.ackNr)
    ensures ProcessAcks(k, p, ROOMY) == k1 && k1.state == Connected
    ensures k1.recv == k.recv && k1.out == k.out && k1.tags == k.tags
    ensures k1.send == k.send.(maxWindowUser := p.windowSize)
  {
    assert SkipAcked(AckCumulative(k1, 0, ROOMY)) == k1;
  }

  /** An empty packet in order is delivered without further effect. */
  lemma EmptyDelivered(k: Sock, k': Sock)
    requires !k.recv.gotFin && k.recv.reorderCount == 0 && k' == DeliverInOrder(k, [], ROOMY)
    ensures k'.send == k.send && k'.state == k.state && k'.out == k.out && k'.tags == k.tags
  {
  }

  /** After `accept_syn` and the client's first packet, the first packet is sent unless `accept_syn`
      drew 0. */
  lemma FirstAfterAccept(peerSeq: U16, seqNr: U16, k0: Sock, k: Sock)
    requires k0 == AcceptSyn(Fresh(), peerSeq, seqNr)
    requires k == DoAll(k0, [CallIncoming(FirstData(peerSeq, seqNr), ROOMY), CallWritev(Whole(), ROOMY)])
    ensures |k.out| == if seqNr == 0 then 0 else 1
    ensures seqNr == 0 ==> Missed(k, 0)
  {
    var k1 := Do(k0, CallIncoming(FirstData(peerSeq, seqNr), ROOMY));
    AcceptOpens(k1, peerSeq, seqNr);
    WSmall(seqNr);
    FirstAfterOpening(k0, k1, k, CallIncoming(FirstData(peerSeq, seqNr), ROOMY), seqNr);
  }
}
