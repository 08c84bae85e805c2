/** The fast-resend mark after `connect`, which leaves it at 1 whatever number it draws. */
module ConnectMark {
  import opened Serial
  import opened Protocol
  import opened Conservation
  import opened FastResending
  import opened Network
  import EndToEnd
  import FlushCursor
  import Ring

  // ---------------------------------------------------------------- where the window starts

  lemma RtoExpiredHead(k: Sock, probeTimedOut: bool)
    ensures Head(RtoExpired(k, probeTimedOut).0.send) == Head(k.send)
  {
  }

  lemma RunTimersHead(k: Sock, timers: Timers, env: Env)
    ensures Head(RunTimers(k, timers, env).send) == Head(k.send)
  {
    var k1 := LiftZeroWindow(k, timers);
    RtoExpiredHead(k1, timers.probeTimedOut);
    EndToEnd.TailFrozen(MaybeExpire(k1, timers).0, timers, env);
  }

  lemma SendFinHead(k: Sock, env: Env)
    ensures Head(SendFin(k, env).send) == Head(k.send)
  {
    FlushCursor.WriteOutgoingPacketHead(k.(send := k.send.(finSent := true)), StFin, [], env);
  }

  /** Only packets that arrive move the head of the window. */
  lemma OtherCallHead(k: Sock, c: Call)
    requires !c.CallIncoming?
    ensures Head(Do(k, c).send) == Head(k.send)
  {
    match c {
      case CallWritev(data, env) => FlushCursor.WriteChunksHead(k, data, env);
      case CallTimeouts(timers, before, after) =>
        FlushScanShape(k, FlushSpan(k.send), true, before);
        RunTimersHead(FlushUnlessDestroyed(k, before), timers, after);
      case CallClose(env) =>
        var k1 := MarkReadShutdown(k);
        SendFinHead(k1.(send := k1.send.(closeRequested := true)), env);
      case CallShutdown(how, env) => SendFinHead(if how != ShutWr then MarkReadShutdown(k) else k, env);
      case _ =>
    }
  }

  // ---------------------------------------------------------------- one acknowledgement

  /** The mark is still at 1, nothing has been resent fast, and no number below 32,768 has been used. */
  ghost predicate MarkWaits(k: Sock) {
    && SenderInv(k) && Aligned(k) && Head(k.send) >= 0x8000
    && k.ctl.fastResend == 1 && Reports(k.events) == []
  }

  /** The packet does not acknowledge one of the four numbers below 32,768, which can only be from
      before the SYN. */
  predicate NotBefore(nr: U16) {
    !(0x7ffc <= nr < 0x8000)
  }

  /** The number an acceptable acknowledgement stands for. */
  lemma AckIsLate(s: SendState, nr: U16) returns (a: int)
    requires s.count <= 1024 && Head(s) >= 0x8000 && s.next <= 0x1_0001 && NotBefore(nr)
    requires AckAcceptable(W(s.next), s.count, nr)
    ensures 0x8000 <= a < s.next && nr == W(a) && a >= Head(s) - 4
  {
    var y: int := W(s.next - 1 - nr);
    AckWindowExact(W(s.next), s.count, nr);
    assert W(W(s.next) - 1 - nr) == y by { WDistance(s.next, nr + 1); }
    a := s.next - 1 - y;
    WDistance(s.next - 1, s.next - 1 - nr);
    assert W(a) == W(nr);
    WSmall(nr);
    WSmall(a);
  }

  lemma MarkIsNotRaised(k: Sock, nr: U16, a: int)
    requires k.ctl.fastResend == 1 && nr == W(a) && 0x8000 <= a <= 0x1_0000
    ensures RaiseFastResend(k, nr) == k
  {
    WSmall(a);
    WSmall(a + 1);
    WSmall(1 - W(nr + 1));
    WSmall(W(nr + 1) - 1);
  }

  /** Of the acknowledgements that pass the check, exactly those from before the SYN raise the mark:
      when 32,768 was drawn, a keep-alive one number out of date is one of them. */
  lemma MarkRaisedExactly(k: Sock, nr: U16)
    requires k.ctl.fastResend == 1 && Head(k.send) >= 0x8000 && k.send.next <= 0x1_0001 && k.send.count <= 1024
    requires AckAcceptable(W(k.send.next), k.send.count, nr)
    ensures RaiseFastResend(k, nr) == k <==> NotBefore(nr)
  {
    if NotBefore(nr) {
      var a := AckIsLate(k.send, nr);
      MarkIsNotRaised(k, nr, a);
    } else {
      WSmall(nr + 1);
      var n: int := nr;
      WSmall(-n);
      WSmall(n);
    }
  }

  /** No number of such a window qualifies for a fast resend. */
  lemma NoneQualifies(k: Sock, base: int, bits: int, found: nat)
    requires k.ctl.fastResend == 1 && Head(k.send) >= 0x8000 && k.send.next <= 0x1_0001 && k.send.count <= 1024
    requires SackNumber(k.send, base, bits).Some?
    ensures !Resendable(k, base + bits, found)
  {
    var n := SackNumber(k.send, base, bits).value;
    var x := k.send.next - (base + bits) - 1;
    assert W(n) == W(base + bits) by {
      WDistance(k.send.next - 1, x);
    }
    WDistance(base + bits, 1);
    WDistance(n, 1);
    WSmall(n - 1);
  }

  /** So a scan lists nothing. */
  lemma {:induction false} ScanListsNothing(k: Sock, c: Scan, c': Scan, base: int, mask: Mask, bits: int, env: Env)
    requires -2 <= bits < 8 * |mask| && c' == SackScan(c, base, mask, bits, env) && c.resends == []
    requires k.ctl.fastResend == 1 && Head(k.send) >= 0x8000 && k.send.next <= 0x1_0001 && k.send.count <= 1024
    requires SameBounds(k.send, c.sock.send) && c.sock.ctl.fastResend == 1
    ensures c'.resends == [] && Quiet(c.sock, c'.sock) && SameBounds(k.send, c'.sock.send)
    decreases bits + 2
  {
    if bits != -2 {
      var c1 := SackVisit(c, base, mask, bits, env);
      SackVisitIs(c, base, mask, bits, env);
      if SackNumber(c.sock.send, base, bits).Some? {
        NoneQualifies(c.sock, base, bits, c.found);
      }
      ScanListsNothing(k, c1, c', base, mask, bits - 1, env);
      QuietThen(c.sock, c1.sock, c'.sock);
    }
  }

  /** A mask resends nothing, unless the number below it is at the mark. */
  lemma SelectiveAckQuiet(k: Sock, k': Sock, nr: U16, a: int, mask: Mask, env: Env)
    requires k.ctl.fastResend == 1 && Head(k.send) >= 0x8000 && k.send.next <= 0x1_0001 && k.send.count <= 1024
    requires nr == W(a) && 0x8000 <= a < k.send.next && (a == 0x1_0000 ==> k.send.count == 0)
    requires k' == SelectiveAck(k, nr + 2, mask, env)
    ensures Quiet(k, k')
  {
    if k.send.count != 0 {
      var c := SackScan(Scan(k, 0, []), nr + 2, mask, 8 * |mask| - 1, env);
      ScanListsNothing(k, Scan(k, 0, []), c, nr + 2, mask, 8 * |mask| - 1, env);
      WSmall(a);
      assert SackCandidates(c, nr + 2) == [];
      assert k' == c.sock;
    }
  }

  /** Neither does a timeout that has just been followed by an acknowledgement. */
  lemma FastTimeoutQuiet(k: Sock)
    requires SenderInv(k) && k.ctl.fastResend == 1 && 0x8000 <= Head(k.send) && k.send.next <= 0x1_0001
    ensures Quiet(k, FastTimeout(k))
  {
    WSmall(Head(k.send));
  }

  lemma AfterAcksQuiet(k: Sock, k': Sock, p: Packet, a: int, env: Env)
    requires MarkWaits(k) && k.send.next <= 0x1_0001 && p.ackNr == W(a) && 0x8000 <= a < k.send.next
    requires k' == AfterAcks(k, p, env)
    ensures Quiet(k, k') && SenderInv(k') && Head(k.send) <= Head(k'.send) && k'.send.next == k.send.next
  {
    var acks := AckCount(W(k.send.next), k.send.count, p.ackNr);
    var k0 := AdvanceState(k, p, acks);
    AdvanceStateQuiet(k, p, acks);
    MarkIsNotRaised(k0, p.ackNr, a);
    var k1 := BeforeRetry(k, p, acks, env);
    BeforeRetryQuiet(k, p, acks, env);
    BeforeRetryKeeps(k, p, acks, env);
    FlushCursor.AdvanceSendWindowSettled(k, p, acks, env);
    AfterAcksKeeps(k, p, env);
    QuietThen(k, k0, k1);
    HeadBeforeRetry(k1);
    FastTimeoutQuiet(k1);
    QuietThen(k, k1, k');
  }

  lemma HeadBeforeRetry(k: Sock)
    ensures Head(FastTimeout(k).send) == Head(k.send) && FastTimeout(k).send.next == k.send.next
  {
  }

  // ---------------------------------------------------------------- runs

  /** `connect` leaves the fast-resend mark at 1, whatever number it draws. The first answer brings it
      up to the next number exactly when the number drawn was below 32,768. Otherwise it stays, and
      counts as being ahead. */
  lemma MarkAfterConnect(seqNr: U16, env: Env, k0: Sock, k: Sock, answer: Packet, arrival: Env)
    requires answer.typ == StState && answer.sack == None && answer.ackNr == seqNr
    requires k0 == Connect(Fresh(), seqNr, env) && k == ProcessIncoming(k0, answer, arrival).0
    ensures k.ctl.fastResend == if seqNr < 0x8000 then seqNr + 1 else 1
    ensures forall v, found :: seqNr >= 0x8000 && seqNr < v < 0x1_0001 ==> !Resendable(k, v, found)
  {
    MarkOfAnswer(seqNr, env, k0, k, answer, arrival);
    forall v, found | seqNr >= 0x8000 && seqNr < v < 0x1_0001
      ensures !Resendable(k, v, found)
    {
      WSmall(v - 1);
    }
  }

  lemma MarkOfAnswer(seqNr: U16, env: Env, k0: Sock, k: Sock, answer: Packet, arrival: Env)
    requires answer.typ == StState && answer.sack == None && answer.ackNr == seqNr
    requires k0 == Connect(Fresh(), seqNr, env) && k == ProcessIncoming(k0, answer, arrival).0
    ensures k.ctl.fastResend == if seqNr < 0x8000 then seqNr + 1 else 1
  {
    WSmall(seqNr);
    FirstAnswer(k0, k, answer, seqNr, arrival);
    FirstRaise(k0, seqNr);
  }

  lemma FirstRaise(k: Sock, seqNr: U16)
    requires k.ctl.fastResend == 1
    ensures RaiseFastResend(k, seqNr).ctl.fastResend == if seqNr < 0x8000 then seqNr + 1 else 1
  {
    var s: int := seqNr;
    WSmall(s + 1);
    WSmall(s);
    WSmall(-s);
    WDistance(s + 1, 1);
    WDistance(1, s + 1);
  }

  /** An acknowledgement of everything leaves an empty window. */
  lemma AllAcked(k: Sock, k1: Sock, p: Packet, env: Env)
    requires SenderInv(k) && k.send.next == 0x1_0001 && p.ackNr == 0 && CoversOnlySent(k.send, p.ackNr)
    requires AckAcceptable(W(k.send.next), k.send.count, p.ackNr) && k1 == AfterAcks(k, p, env)
    ensures k1.send.count == 0
  {
    WSmall(0x1_0000);
    AckCountExact(k.send.next, k.send.count, 0x1_0000);
    AdvanceCounts(k, k1, p, AckCount(W(k.send.next), k.send.count, p.ackNr), env);
  }

  /** What a mask finds after the cumulative acknowledgement of `a`. */
  ghost predicate BeforeMask(k: Sock, nr: U16, a: int) {
    && k.ctl.fastResend == 1 && Head(k.send) >= 0x8000 && k.send.next <= 0x1_0001 && k.send.count <= 1024
    && nr == W(a) && 0x8000 <= a < k.send.next && (a == 0x1_0000 ==> k.send.count == 0)
  }

  lemma AfterAcksWait(k: Sock, k1: Sock, p: Packet, env: Env) returns (a: int)
    requires MarkWaits(k) && k.send.next <= 0x1_0001 && NotBefore(p.ackNr)
    requires AckAcceptable(W(k.send.next), k.send.count, p.ackNr) && CoversOnlySent(k.send, p.ackNr)
    requires k1 == AfterAcks(k, p, env)
    ensures Quiet(k, k1) && BeforeMask(k1, p.ackNr, a)
  {
    a := AckIsLate(k.send, p.ackNr);
    AfterAcksQuiet(k, k1, p, a, env);
    if a == 0x1_0000 {
      WSmall(0);
      AllAcked(k, k1, p, env);
    }
  }

  lemma AcksWait(k: Sock, k': Sock, p: Packet, env: Env)
    requires MarkWaits(k) && k.send.next <= 0x1_0001 && NotBefore(p.ackNr)
    requires AckAcceptable(W(k.send.next), k.send.count, p.ackNr) && CoversOnlySent(k.send, p.ackNr)
    requires k' == ProcessAcks(k, p, env)
    ensures Quiet(k, k')
  {
    var k1 := AfterAcks(k, p, env);
    var a := AfterAcksWait(k, k1, p, env);
    EndToEnd.ProcessAcksIs(k, p, env);
    if p.sack.Some? {
      SelectiveAckQuiet(k1, k', p.ackNr, a, p.sack.value, env);
      QuietThen(k, k1, k');
    }
  }

  lemma IncomingWaits(k: Sock, k': Sock, p: Packet, env: Env)
    requires MarkWaits(k) && k.send.next <= 0x1_0001 && NotBefore(p.ackNr)
    requires Honest(k, CallIncoming(p, env)) && k' == ProcessIncoming(k, p, env).0
    ensures MarkWaits(k') && k'.send.next == k.send.next
  {
    IncomingKeeps(k, p, env);
    FlushCursor.IncomingSettled(k, p, env);
    IncomingIsAcks(k, k', p, env);
    if Examined(k, p) {
      var k0 := LearnPeerNumber(k, p);
      SameSenderKeeps(k, k0);
      AcksWait(k0, ProcessAcks(k0, p, env), p, env);
    }
  }

  lemma CallWaits(k: Sock, k': Sock, c: Call)
    requires MarkWaits(k) && k.send.next <= 0x1_0001 && Honest(k, c) && (c.CallIncoming? ==> NotBefore(c.p.ackNr))
    requires k' == Do(k, c)
    ensures MarkWaits(k') && k.send.next <= k'.send.next
  {
    if c.CallIncoming? {
      IncomingWaits(k, k', c.p, c.env);
    } else {
      DoKeeps(k, c);
      OtherCallQuiet(k, k', c);
      OtherCallHead(k, c);
    }
  }

  /** When `connect` draws 32,768 or more, nothing is resent fast, and the mark stays at 1, until the
      numbers have come round to it: in every run against an honest peer, whatever is lost, as long
      as no packet beyond number 65,536 has been written and nothing from before the SYN is
      acknowledged. */
  lemma {:induction false} NothingResentBeforeTurn(k0: Sock, k: Sock, calls: seq<Call>, seqNr: U16, env: Env)
    requires k0 == Connect(Fresh(), seqNr, env) && seqNr >= 0x8000
    requires HonestRun(k0, calls) && forall c :: c in calls && c.CallIncoming? ==> NotBefore(c.p.ackNr)
    requires k == DoAll(k0, calls) && k.send.next <= 0x1_0001
    ensures MarkWaits(k)
    decreases |calls|
  {
    if calls == [] {
      ConservationOverRuns(env, seqNr, 0, []);
    } else {
      var init, last := calls[..|calls| - 1], calls[|calls| - 1];
      var k1 := DoAll(k0, init);
      NextOnlyGrows(k1, k, last);
      NothingResentBeforeTurn(k0, k1, init, seqNr, env);
      CallWaits(k1, k, last);
    }
  }

  lemma NextOnlyGrows(k: Sock, k': Sock, c: Call)
    requires k' == Do(k, c)
    ensures k.send.next <= k'.send.next
  {
    if c.CallIncoming? {
      FlushCursor.IncomingSettled(k, c.p, c.env);
    } else {
      OtherCallQuiet(k, k', c);
    }
  }
}
