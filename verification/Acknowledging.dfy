/** Whatever is received in order is acknowledged, or will be at the next `issue_deferred_acks`; only a
    keep-alive can get in the way. */
module Acknowledging {
  import opened Serial
  import opened Protocol
  import opened Conservation
  import opened ChannelReceiver
  import opened FastResending
  import opened Arrivals
  import opened Endings
  import opened Timeouts
  import opened GiveUp
  import opened SendWindow
  import opened CursorLag
  import opened FirstWrite
  import Ring

  /** A frame that was sent carried the number received last. */
  ghost predicate Told(k: Sock) {
    exists i :: 0 <= i < |k.tags| && k.tags[i].ackno == k.recv.ack
  }

  /** The number received last, if it is not still the first one, `base`, has been or will be told. */
  ghost predicate Informed(k: Sock, base: int) {
    k.recv.ack == base || k.ackPending || Told(k)
  }

  // ---------------------------------------------------------------- speaking

  /** An acknowledgement that was owed still is, unless something was sent. */
  ghost predicate StillOwed(k: Sock, k': Sock) {
    && k.tags <= k'.tags && k'.recv.ack == k.recv.ack
    && (k'.tags == k.tags ==> k'.ackPending == k.ackPending)
    && (forall i :: |k.tags| <= i < |k'.tags| ==> k'.tags[i].ackno == k.recv.ack)
  }

  lemma OwedThen(k: Sock, k1: Sock, k2: Sock)
    requires StillOwed(k, k1) && StillOwed(k1, k2)
    ensures StillOwed(k, k2)
  {
  }

  lemma SpokenInforms(k: Sock, k': Sock, base: int)
    requires StillOwed(k, k') && Informed(k, base)
    ensures Informed(k', base)
  {
    if Told(k) {
      var i :| 0 <= i < |k.tags| && k.tags[i].ackno == k.recv.ack;
      assert k'.tags[i].ackno == k'.recv.ack;
    } else if k'.tags != k.tags {
      assert |k.tags| < |k'.tags|;
      assert k'.tags[|k.tags|].ackno == k'.recv.ack;
    }
  }

  lemma SendPacketOwed(k: Sock, n: int)
    requires n in k.send.win
    ensures StillOwed(k, SendPacket(k, n))
  {
  }

  lemma {:induction false} FlushScanOwed(k: Sock, left: nat, inPrefix: bool, env: Env)
    ensures StillOwed(k, FlushScan(k, left, inPrefix, env).0)
    decreases left
  {
    if left > 0 {
      var n := k.send.next - left;
      var cursor := if inPrefix then W(n + 1) else k.send.flushScanStart;
      if Settled(k.send.win, n) {
        FlushScanOwed(WithCursor(k, cursor), left - 1, inPrefix, env);
      } else if !IsFull(k, -1, env) {
        if left != 1 || k.send.count == 1 || |k.send.win[n].payload| >= env.packetSize {
          var k1 := WithCursor(SendPacket(k, n), cursor);
          SendPacketOwed(k, n);
          FlushScanOwed(k1, left - 1, inPrefix, env);
          OwedThen(k, k1, FlushScan(k1, left - 1, inPrefix, env).0);
        } else {
          FlushScanOwed(k, left - 1, false, env);
        }
      }
    }
  }

  lemma WriteRoundsOwed(k: Sock, typ: PacketType, data: Bytes, env: Env)
    ensures var k' := WriteRounds(k, typ, data, env);
            k'.tags == k.tags && k'.ackPending == k.ackPending && k'.recv.ack == k.recv.ack
    decreases |data|
  {
  }

  lemma WriteOutgoingPacketOwed(k: Sock, typ: PacketType, data: Bytes, env: Env)
    ensures StillOwed(k, WriteOutgoingPacket(k, typ, data, env))
  {
    var k0 := if k.send.count == 0 then k.(ctl := k.ctl.(retransmitTimeout := env.rto)) else k;
    WriteRoundsOwed(k0, typ, data, env);
    var k1 := WriteRounds(k0, typ, data, env);
    FlushScanOwed(k1, FlushSpan(k1.send), true, env);
  }

  lemma {:induction false} WriteChunksOwed(k: Sock, data: Bytes, env: Env)
    ensures StillOwed(k, WriteChunks(k, data, env).0)
    decreases |data|
  {
    var num := Min(|data|, env.packetSize);
    if !IsFull(k, num, env) {
      var k1 := WriteOutgoingPacket(k, StData, data[..num], env);
      WriteOutgoingPacketOwed(k, StData, data[..num], env);
      if Min(|data| - num, env.packetSize) != 0 {
        WriteChunksOwed(k1, data[num..], env);
        OwedThen(k, k1, WriteChunks(k1, data[num..], env).0);
      }
    }
  }

  lemma AckCumulativeOwed(k: Sock, acks: nat, env: Env)
    ensures var k' := AckCumulative(k, acks, env);
            k'.tags == k.tags && k'.ackPending == k.ackPending && k'.recv == k.recv
    decreases acks
  {
  }

  lemma SkipAckedOwed(k: Sock)
    ensures var k' := SkipAcked(k); k'.tags == k.tags && k'.ackPending == k.ackPending && k'.recv == k.recv
    decreases k.send.count
  {
  }

  lemma SackScanOwed(c: Scan, base: int, mask: Mask, bits: int, env: Env)
    requires -2 <= bits < 8 * |mask|
    ensures var k' := SackScan(c, base, mask, bits, env).sock;
            k'.tags == c.sock.tags && k'.ackPending == c.sock.ackPending && k'.recv == c.sock.recv
    decreases bits + 2
  {
  }

  lemma {:induction false} ResendLastOwed(k: Sock, resends: seq<U16>, budget: nat)
    ensures StillOwed(k, ResendLast(k, resends, budget))
    decreases |resends|
  {
    if resends != [] && budget != 0 {
      var v := resends[|resends| - 1];
      var rest := resends[..|resends| - 1];
      var n := if k.send.ringSize == 0 then v else Ring.Alias(v, Head(k.send), k.send.ringSize);
      if n in k.send.win {
        ResendLastOwed(ResendOne(k, v, n), rest, budget - 1);
        OwedThen(k, ResendOne(k, v, n), ResendLast(ResendOne(k, v, n), rest, budget - 1));
      } else {
        ResendLastOwed(k, rest, budget);
      }
    }
  }

  lemma SelectiveAckOwed(k: Sock, base: int, mask: Mask, env: Env)
    ensures StillOwed(k, SelectiveAck(k, base, mask, env))
  {
    if k.send.count != 0 {
      var c := SackScan(Scan(k, 0, []), base, mask, 8 * |mask| - 1, env);
      SackScanOwed(Scan(k, 0, []), base, mask, 8 * |mask| - 1, env);
      ResendLastOwed(c.sock, SackCandidates(c, base), MAX_RESENDS);
    }
  }

  lemma TailOwed(k: Sock)
    ensures StillOwed(k, FastTimeout(SendLoneUnsent(k)))
  {
    assert StillOwed(k, SendLoneUnsent(k));
    assert StillOwed(SendLoneUnsent(k), FastTimeout(SendLoneUnsent(k)));
  }

  lemma AdvanceOwed(k: Sock, p: Packet, acks: nat, env: Env)
    ensures StillOwed(k, AdvanceSendWindow(k, p, acks, env))
  {
    var k1 := RaiseFastResend(AdvanceState(k, p, acks), p.ackNr);
    var k2 := SkipAcked(AckCumulative(k1, acks, env));
    AckCumulativeOwed(k1, acks, env);
    SkipAckedOwed(AckCumulative(k1, acks, env));
    assert StillOwed(k, k2);
    TailOwed(k2);
    OwedThen(k, k2, FastTimeout(SendLoneUnsent(k2)));
  }

  lemma AcksOwed(k: Sock, p: Packet, env: Env)
    ensures StillOwed(k, ReopenWindow(ProcessAcks(k, p, env), env))
  {
    var acks := AckCount(W(k.send.next), k.send.count, p.ackNr);
    var k1 := AdvanceSendWindow(k, p, acks, env);
    AdvanceOwed(k, p, acks, env);
    if p.sack.Some? {
      SelectiveAckOwed(k1, p.ackNr + 2, p.sack.value, env);
      OwedThen(k, k1, ProcessAcks(k, p, env));
    }
  }

  // ---------------------------------------------------------------- one call

  lemma IncomingInforms(k: Sock, k': Sock, p: Packet, env: Env, base: int)
    requires k.state != SynSent && Informed(k, base) && k' == ProcessIncoming(k, p, env).0
    ensures Informed(k', base)
  {
    if Examined(k, p) {
      var k2 := ReopenWindow(ProcessAcks(k, p, env), env);
      AcksOwed(k, p, env);
      SpokenInforms(k, k2, base);
      if p.typ != StState && Established(k2.state) {
        DeliveryInforms(k2, k', p, IncomingOffset(k, p), env, base);
      }
    }
  }

  lemma DeliveryInforms(k: Sock, k': Sock, p: Packet, seqnr: nat, env: Env, base: int)
    requires Informed(k, base) && k' == DeliverData(k, p, seqnr, env).0
    ensures Informed(k', base)
  {
    if seqnr != 0 {
      BufferedInforms(k, k', p, seqnr, env);
    }
  }

  lemma BufferedInforms(k: Sock, k': Sock, p: Packet, seqnr: nat, env: Env)
    requires seqnr != 0 && k' == DeliverData(k, p, seqnr, env).0
    ensures k'.tags == k.tags && k'.recv.ack == k.recv.ack && (k.ackPending ==> k'.ackPending)
  {
  }

  /** Nothing but a keep-alive leaves in this call of `check_timeouts`. */
  ghost predicate OnlyKeepAlive(k: Sock, c: Call) {
    && c.CallTimeouts? && KeepAliveDue(k, c.timers)
    && Flush(k, c.before).0.tags == k.tags
    && !(c.timers.expired && (k.send.count > 0 || k.ctl.retransmitCount >= Patience(k)))
  }

  /** An acknowledgement is owed, and a keep-alive leaves in its place. */
  ghost predicate Forgets(k: Sock, c: Call, base: int) {
    OnlyKeepAlive(k, c) && k.recv.ack != base && !Told(k)
  }

  lemma KeepAliveTells(k: Sock, k': Sock, env: Env, base: int)
    requires k' == SendKeepAlive(k, env)
    ensures Informed(k', base) <==> k.recv.ack == base || Told(k)
  {
    assert k'.tags == k.tags + [Tag(k.send.next, k.recv.ack - 1)];
    if Told(k) {
      var i :| 0 <= i < |k.tags| && k.tags[i].ackno == k.recv.ack;
      assert k'.tags[i].ackno == k'.recv.ack;
    }
    if Told(k') {
      var i :| 0 <= i < |k'.tags| && k'.tags[i].ackno == k'.recv.ack;
      assert k.tags[i].ackno == k.recv.ack;
    }
  }

  /** The timer before the keep-alive. */
  lemma ExpiryOwed(k: Sock, k1: Sock, alive: bool, timers: Timers)
    requires SenderInv(k) && (k1, alive) == MaybeExpire(LiftZeroWindow(k, timers), timers)
    ensures StillOwed(k, k1) && k1.send.finSent == k.send.finSent
    ensures Established(k.state) ==> alive == !(timers.expired && k.ctl.retransmitCount >= Patience(k))
    ensures if alive then k1.state == k.state else !Established(k1.state)
    ensures alive ==> |k1.tags| == |k.tags| + BoolBit(timers.expired && k.send.count > 0)
    ensures !alive ==> k1.tags == k.tags
  {
    var k0 := LiftZeroWindow(k, timers);
    LiftZeroWindowKeeps(k, timers);
    if alive {
      ExpiryGoesOn(k0, k1, timers);
    }
    ExpiryPending(k0, timers);
  }

  lemma ExpiryPending(k: Sock, timers: Timers)
    ensures var (k1, alive) := MaybeExpire(k, timers);
            && StillOwed(k, k1)
            && (Established(k.state) ==> alive == !(timers.expired && k.ctl.retransmitCount >= Patience(k)))
            && (!alive ==> !Established(k1.state) && k1.tags == k.tags && k1.send == k.send)
  {
  }

  lemma ReopenedOwed(k: Sock, env: Env)
    ensures var k' := ReopenWindow(k, env);
            StillOwed(k, k') && k'.tags == k.tags && Established(k'.state) == Established(k.state) && k'.send == k.send
  {
  }

  /** What the timer does to a socket before its keep-alive, and whether one goes out. */
  lemma TimersAre(k: Sock, k': Sock, timers: Timers, env: Env) returns (k2: Sock)
    requires SenderInv(k) && k' == RunTimers(k, timers, env)
    ensures StillOwed(k, k2)
    ensures k' == if KeepAliveDue(k, timers) && !(timers.expired && k.ctl.retransmitCount >= Patience(k))
                  then SendKeepAlive(k2, env) else k2
    ensures k2.tags == k.tags
       <==> !TimeoutActive(k.state) || !timers.expired || k.send.count == 0
            || !MaybeExpire(LiftZeroWindow(k, timers), timers).1
  {
    k2 := k;
    if TimeoutActive(k.state) {
      var (k1, alive) := MaybeExpire(LiftZeroWindow(k, timers), timers);
      ExpiryOwed(k, k1, alive, timers);
      ReopenedOwed(k1, env);
      k2 := if alive then ReopenWindow(k1, env) else k1;
      OwedThen(k, k1, k2);
    }
  }

  lemma ToldAfter(k: Sock, k2: Sock)
    requires StillOwed(k, k2)
    ensures Told(k2) <==> Told(k) || k2.tags != k.tags
  {
    if k2.tags == k.tags {
    } else {
      assert |k.tags| < |k2.tags|;
      assert k2.tags[|k.tags|].ackno == k2.recv.ack;
    }
  }

  lemma TimeoutsInform(k: Sock, k': Sock, c: Call, base: int)
    requires SenderInv(k) && c.CallTimeouts? && Informed(k, base) && k' == Do(k, c)
    ensures Informed(k', base) <==> !Forgets(k, c, base)
  {
    var k1 := FlushUnlessDestroyed(k, c.before);
    FlushUnlessDestroyedKeeps(k, c.before);
    FlushScanShape(k, FlushSpan(k.send), true, c.before);
    FlushScanOwed(k, FlushSpan(k.send), true, c.before);
    var k2 := TimersAre(k1, k', c.timers, c.after);
    OwedThen(k, k1, k2);
    TimerInforms(k, k1, k2, k', c, base);
  }

  lemma TimerInforms(k: Sock, k1: Sock, k2: Sock, k': Sock, c: Call, base: int)
    requires c.CallTimeouts? && Informed(k, base) && k1 == FlushUnlessDestroyed(k, c.before) && SameShape(k, k1)
    requires StillOwed(k, k1) && StillOwed(k1, k2) && StillOwed(k, k2)
    requires k' == if KeepAliveDue(k1, c.timers) && !(c.timers.expired && k1.ctl.retransmitCount >= Patience(k1))
                   then SendKeepAlive(k2, c.after) else k2
    requires k2.tags == k1.tags
         <==> !TimeoutActive(k1.state) || !c.timers.expired || k1.send.count == 0
              || !MaybeExpire(LiftZeroWindow(k1, c.timers), c.timers).1
    ensures Informed(k', base) <==> !Forgets(k, c, base)
  {
    if KeepAliveDue(k1, c.timers) && !(c.timers.expired && k1.ctl.retransmitCount >= Patience(k1)) {
      KeepAliveTells(k2, k', c.after, base);
      ToldAfter(k, k2);
      Alive(k1, c.timers);
    } else {
      SpokenInforms(k, k2, base);
    }
  }

  lemma Alive(k: Sock, timers: Timers)
    requires Established(k.state) && !(timers.expired && k.ctl.retransmitCount >= Patience(k))
    ensures MaybeExpire(LiftZeroWindow(k, timers), timers).1
  {
  }

  lemma OtherInforms(k: Sock, k': Sock, c: Call, base: int)
    requires !c.CallIncoming? && !c.CallTimeouts? && Informed(k, base) && k' == Do(k, c)
    ensures Informed(k', base)
  {
    match c {
      case CallWritev(data, env) =>
        WriteChunksOwed(k, data, env);
        SpokenInforms(k, WriteChunks(k, data, env).0, base);
      case CallClose(env) =>
        var k1 := MarkReadShutdown(k);
        FinInforms(k, k1.(send := k1.send.(closeRequested := true)), env, base);
      case CallShutdown(how, env) => FinInforms(k, if how != ShutWr then MarkReadShutdown(k) else k, env, base);
      case CallReadDrained(env) => SendAckInforms(k, env);
      case CallDeferredAck(env) => SendAckInforms(k, env);
      case CallReset => SpokenInforms(k, k', base);
      case CallIcmpError => SpokenInforms(k, k', base);
    }
  }

  lemma FinInforms(k: Sock, k1: Sock, env: Env, base: int)
    requires Informed(k, base) && StillOwed(k, k1) && k1.tags == k.tags
    ensures Informed(k1, base) && Informed(k1.(state := Destroy), base) && Informed(SendFin(k1, env), base)
    ensures Informed(k.(state := Destroy), base)
  {
    SpokenInforms(k, k1, base);
    SpokenInforms(k1, k1.(state := Destroy), base);
    SpokenInforms(k, k.(state := Destroy), base);
    var k2 := k1.(send := k1.send.(finSent := true));
    WriteOutgoingPacketOwed(k2, StFin, [], env);
    OwedThen(k, k2, SendFin(k1, env));
    SpokenInforms(k, SendFin(k1, env), base);
  }

  lemma SendAckInforms(k: Sock, env: Env)
    ensures Told(SendAck(k, env))
  {
    var k' := SendAck(k, env);
    assert k'.tags[|k.tags|].ackno == k'.recv.ack;
  }

  /** Each call keeps it so, except exactly the keep-alive that leaves in place of an acknowledgement. */
  lemma DoInforms(k: Sock, k': Sock, c: Call, base: int)
    requires SenderInv(k) && k.state != SynSent && Informed(k, base) && k' == Do(k, c)
    ensures Informed(k', base) <==> !Forgets(k, c, base)
  {
    if c.CallIncoming? {
      IncomingInforms(k, k', c.p, c.env, base);
    } else if c.CallTimeouts? {
      TimeoutsInform(k, k', c, base);
    } else {
      OtherInforms(k, k', c, base);
    }
  }

  // ---------------------------------------------------------------- runs

  ghost predicate NeverForgets(k: Sock, calls: seq<Call>, base: int)
    decreases |calls|
  {
    calls == [] ||
    (NeverForgets(k, calls[..|calls| - 1], base) && !Forgets(DoAll(k, calls[..|calls| - 1]), calls[|calls| - 1], base))
  }

  /** Once the peer's numbers are known, whatever arrives and whatever is called: unless a keep-alive
      has left in place of an acknowledgement, the number received last has been sent to the peer or
      is on the list of acknowledgements to send; and after the list has been worked off it has been
      sent. */
  lemma {:induction false} ReceiptIsTold(k: Sock, k': Sock, calls: seq<Call>, base: int)
    requires SenderInv(k) && k.state != SynSent && k.recv.ack == base && k' == DoAll(k, calls)
    requires NeverForgets(k, calls, base)
    ensures SenderInv(k') && k'.state != SynSent && Informed(k', base)
    ensures forall env :: k'.recv.ack == base || Told(Do(k', CallDeferredAck(env)))
    decreases |calls|
  {
    if calls != [] {
      var init, last := calls[..|calls| - 1], calls[|calls| - 1];
      var k1 := DoAll(k, init);
      ReceiptIsTold(k, k1, init, base);
      DoKeeps(k1, last);
      DoInforms(k1, k', last, base);
      NotConnectingAgain(k1, k', last);
    }
    forall env
      ensures k'.recv.ack == base || Told(Do(k', CallDeferredAck(env)))
    {
      SendAckInforms(k', env);
    }
  }

  lemma NotConnectingAgain(k: Sock, k': Sock, c: Call)
    requires SenderInv(k) && k.state != SynSent && k' == Do(k, c)
    ensures k'.state != SynSent
  {
    match c {
      case CallWritev(data, env) => WriteChunksState(k, data, env);
      case CallIncoming(p, env) => IncomingKeepsRequest(k, k', p, env);
      case CallTimeouts(timers, before, after) => TimeoutsFlags(k, timers, before, after);
      case CallClose(env) => CloseEndsStream(k, k', env);
      case CallShutdown(how, env) => ShutdownEndsStream(k, k', how, env);
      case _ =>
    }
  }

  // ---------------------------------------------------------------- the keep-alive

  const SILENT := Timers(false, false, false, true)

  /** A run in which it happens: a packet arrives at an accepted socket, and before its acknowledgement
      is sent a keep-alive is due. It tells the peer one number less, and the acknowledgement is no
      longer on the list. */
  lemma KeepAliveForgets(peerSeq: U16, seqNr: U16, k1: Sock, k2: Sock)
    requires k1 == Do(AcceptSyn(Fresh(), peerSeq, seqNr), CallIncoming(FirstData(peerSeq, seqNr), ROOMY))
    requires k2 == Do(k1, CallTimeouts(SILENT, ROOMY, ROOMY))
    ensures k1.recv.ack > peerSeq && k1.ackPending && Informed(k1, peerSeq)
    ensures k2.recv.ack == k1.recv.ack && !k2.ackPending && !Informed(k2, peerSeq)
  {
    var k0 := AcceptSyn(Fresh(), peerSeq, seqNr);
    var p := FirstData(peerSeq, seqNr);
    AcceptOpens(k1, peerSeq, seqNr);
    DataIsNext(k0, peerSeq, seqNr);
    InOrderIsTaken(k0, k1, ProcessIncoming(k0, p, ROOMY).1, p, ROOMY);
    KeepAliveOnly(k1, k2);
    DoInforms(k1, k2, CallTimeouts(SILENT, ROOMY, ROOMY), peerSeq);
  }

  lemma KeepAliveOnly(k: Sock, k': Sock)
    requires k.state == Connected && k.send.count == 0 && !k.send.finSent
    requires k' == Do(k, CallTimeouts(SILENT, ROOMY, ROOMY))
    ensures OnlyKeepAlive(k, CallTimeouts(SILENT, ROOMY, ROOMY)) && k'.recv.ack == k.recv.ack && !k'.ackPending
  {
    assert Flush(k, ROOMY).0 == k;
  }

  // ---------------------------------------------------------------- the receive window

  /** When the application has read, a window last given as zero is announced at once, and one last given
      as smaller than it is with the next deferred acknowledgement. */
  lemma OpeningIsTold(k: Sock, k': Sock, env: Env, later: Env)
    requires k' == Do(k, CallReadDrained(env)) && env.rcvWindow > k.recv.lastRcvWin
    ensures k.recv.lastRcvWin == 0 ==> |k'.out| == |k.out| + 1 && k'.out[|k.out|].windowSize == env.rcvWindow
    ensures k.recv.lastRcvWin > 0 ==>
              var k2 := Do(k', CallDeferredAck(later));
              |k2.out| == |k.out| + 1 && k2.out[|k.out|].windowSize == later.rcvWindow
  {
  }

  /** But the window counts as given when a packet is built, not when it leaves. Here both sides' windows
      are closed: a FIN that cannot leave is queued, and when the application has read, nothing is
      announced and nothing is scheduled. */
  lemma OpeningGoesUntold(k: Sock, k1: Sock, k2: Sock, env: Env)
    requires SenderInv(k) && Established(k.state) && !k.send.finSent
    requires k.send.maxWindowUser == 0 && k.recv.lastRcvWin == 0 && env.rcvWindow > 0 && env.packetSize > 0
    requires k1 == Do(k, CallShutdown(ShutWr, env)) && k2 == Do(k1, CallReadDrained(env))
    ensures k2.out == k.out && k2.ackPending == k.ackPending
    ensures Do(k, CallReadDrained(env)).out != k.out
  {
    NothingIntoClosedWindow(k, k1, CallShutdown(ShutWr, env));
    var k0 := k.(send := k.send.(finSent := true));
    var k3 := if k0.send.count == 0 then k0.(ctl := k0.ctl.(retransmitTimeout := env.rto)) else k0;
    var k4 := Append(k3, StFin, [], env);
    assert WriteRounds(k3, StFin, [], env) == k4;
    FlushScanShape(k4, FlushSpan(k4.send), true, env);
    WriteOutgoingPacketOwed(k0, StFin, [], env);
    FlushScanWhenFull(k4, FlushSpan(k4.send), true, env);
  }
}
