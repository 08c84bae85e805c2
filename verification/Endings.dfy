/** How a connection ends: what `close` and `shutdown` do in each state, and which acknowledgement
    finishes the connection. */
module Endings {
  import opened Serial
  import opened Protocol
  import opened Conservation
  import opened FastResending
  import opened GiveUp
  import opened Arrivals

  /** Sending a packet changes only how often it was sent. */
  predicate OnlySent(pkt: OutPkt, pkt': OutPkt) {
    && pkt' == pkt.(transmissions := pkt'.transmissions, needResend := pkt'.needResend)
    && pkt'.transmissions >= pkt.transmissions
  }

  ghost predicate AllOnlySent(k: Sock, k': Sock) {
    k'.send.win.Keys == k.send.win.Keys && forall n :: n in k.send.win ==> OnlySent(k.send.win[n], k'.send.win[n])
  }

  lemma {:induction false} FlushScanOnlySends(k: Sock, left: nat, inPrefix: bool, env: Env)
    ensures AllOnlySent(k, FlushScan(k, left, inPrefix, env).0)
    decreases left
  {
    if left > 0 {
      var n := k.send.next - left;
      var cursor := if inPrefix then W(n + 1) else k.send.flushScanStart;
      if Settled(k.send.win, n) {
        FlushScanOnlySends(WithCursor(k, cursor), left - 1, inPrefix, env);
      } else if !IsFull(k, -1, env) {
        if left != 1 || k.send.count == 1 || |k.send.win[n].payload| >= env.packetSize {
          FlushScanOnlySends(WithCursor(SendPacket(k, n), cursor), left - 1, inPrefix, env);
        } else {
          FlushScanOnlySends(k, left - 1, false, env);
        }
      }
    }
  }

  /** One FIN has been added behind everything in the window, whose packets are what they were. */
  ghost predicate FinQueued(k: Sock, k': Sock) {
    var fin := k.send.next;
    && k'.send.next == fin + 1 && k'.send.count == k.send.count + 1 && k'.send.finSent
    && k'.send.win.Keys == k.send.win.Keys + {fin}
    && k'.send.win[fin].typ == StFin && k'.send.win[fin].payload == [] && k'.send.win[fin].seqNr == W(fin)
    && (forall n :: n in k.send.win ==> n < fin && OnlySent(k.send.win[n], k'.send.win[n]))
    && k'.send.finSentAcked == k.send.finSentAcked && k'.state == k.state
  }

  lemma SendFinQueues(k: Sock, k': Sock, env: Env)
    requires SenderInv(k) && !k.send.finSent && k' == SendFin(k, env)
    ensures FinQueued(k, k') && k'.recv.readShutdown == k.recv.readShutdown
    ensures k'.send.closeRequested == k.send.closeRequested
  {
    var k1 := k.(send := k.send.(finSent := true));
    var k0 := if k1.send.count == 0 then k1.(ctl := k1.ctl.(retransmitTimeout := env.rto)) else k1;
    var k2 := Append(k0, StFin, [], env);
    assert WriteRounds(k0, StFin, [], env) == k2;
    FlushScanOnlySends(k2, FlushSpan(k2.send), true, env);
    FlushScanShape(k2, FlushSpan(k2.send), true, env);
    assert k' == Flush(k2, env).0;
  }

  predicate Established(state: ConnState) {
    state == Connected || state == ConnectedFull
  }

  /** Nothing was written or sent. */
  ghost predicate NothingWritten(k: Sock, k': Sock) {
    k'.send.win == k.send.win && k'.send.next == k.send.next && k'.send.count == k.send.count && k'.out == k.out
  }

  /** `close`: an established connection, whether its window is full or not, stops reading and ends its
      stream with one FIN behind everything written before, unless it has done so already; it is
      destroyed at once only if that FIN has been acknowledged. Any other is destroyed at once. */
  lemma CloseEndsStream(k: Sock, k': Sock, env: Env)
    requires SenderInv(k) && k' == Close(k, env)
    ensures k'.state == (if !Established(k.state) || (k.send.finSent && k.send.finSentAcked) then Destroy else k.state)
    ensures if Established(k.state) && !k.send.finSent then FinQueued(k, k')
            else NothingWritten(k, k') && k'.send.finSent == k.send.finSent
    ensures Established(k.state) ==> k'.recv.readShutdown && k'.send.closeRequested
  {
    if Established(k.state) && !k.send.finSent {
      var k1 := MarkReadShutdown(k);
      var k2 := k1.(send := k1.send.(closeRequested := true));
      SameWindow(k, k2);
      SendFinQueues(k2, k', env);
    }
  }

  /** `shutdown`: closes the reading side unless only writing is named; ends the stream of an
      established connection with one FIN unless only reading is named or it has been ended before;
      and leaves the state alone. */
  lemma ShutdownEndsStream(k: Sock, k': Sock, how: How, env: Env)
    requires SenderInv(k) && k' == Shutdown(k, how, env)
    ensures k'.state == k.state && k'.recv.readShutdown == (k.recv.readShutdown || how != ShutWr)
    ensures k'.send.closeRequested == k.send.closeRequested
    ensures if Established(k.state) && how != ShutRd && !k.send.finSent then FinQueued(k, k')
            else NothingWritten(k, k') && k'.send.finSent == k.send.finSent
  {
    if Established(k.state) && how != ShutRd && !k.send.finSent {
      var k1 := if how != ShutWr then MarkReadShutdown(k) else k;
      SameWindow(k, k1);
      SendFinQueues(k1, k', env);
    }
  }

  // ---------------------------------------------------------------- the last acknowledgement

  /** The packet is examined and acknowledges everything in the window. */
  predicate AcksAll(k: Sock, p: Packet) {
    Examined(k, p) && k.send.count == AckCount(W(k.send.next), k.send.count, p.ackNr)
  }

  /** What a packet leaves of the state and the flags is what the first step of the window's advance makes
      of them, but for the reopening of a full window. */
  ghost predicate EndsAs(k1: Sock, k': Sock) {
    && k'.send.finSent == k1.send.finSent && k'.send.finSentAcked == k1.send.finSentAcked
    && k'.send.closeRequested == k1.send.closeRequested
    && (k'.state == k1.state || (k1.state == ConnectedFull && k'.state == Connected))
  }

  lemma ArrivalEndsAs(k: Sock, k': Sock, p: Packet, env: Env)
    requires Examined(k, p) && k' == ProcessIncoming(k, p, env).0
    ensures var k0 := LearnPeerNumber(k, p);
            EndsAs(AdvanceState(k0, p, AckCount(W(k.send.next), k.send.count, p.ackNr)), k')
  {
    var k0 := LearnPeerNumber(k, p);
    ProcessAcksResent(k0, p, env);
    var k2 := ReopenWindow(ProcessAcks(k0, p, env), env);
    DeliverDataKeepsSender(k2, p, IncomingOffset(k0, p), env);
    assert k'.send == k2.send && k'.state == k2.state;
  }

  /** The FIN of an established connection counts as acknowledged from the first packet on that
      acknowledges the whole window after it was queued; and such a packet destroys the socket
      exactly if `close` was called. */
  lemma FinAckedExactly(k: Sock, k': Sock, p: Packet, env: Env)
    requires Established(k.state) && k' == ProcessIncoming(k, p, env).0
    ensures k'.send.finSentAcked <==> k.send.finSentAcked || (k.send.finSent && AcksAll(k, p))
    ensures k'.state == Destroy <==> k.send.finSent && k.send.closeRequested && AcksAll(k, p)
    ensures k'.state == Destroy || Established(k'.state)
  {
    if Examined(k, p) {
      ArrivalEndsAs(k, k', p, env);
      EstablishedAdvance(k, k', p, AckCount(W(k.send.next), k.send.count, p.ackNr));
    }
  }

  lemma IncomingKeepsRequest(k: Sock, k': Sock, p: Packet, env: Env)
    requires k' == ProcessIncoming(k, p, env).0
    ensures k'.send.closeRequested == k.send.closeRequested && k'.send.finSent == k.send.finSent
    ensures k'.send.finSentAcked ==> k.send.finSentAcked || k.send.finSent
    ensures Established(k'.state) ==> Established(k.state) || k.state == SynSent || k.state == SynRecv
    ensures k'.state == SynSent || k'.state == SynRecv ==> k'.state == k.state
  {
    if Examined(k, p) {
      ArrivalEndsAs(k, k', p, env);
      AnyAdvance(LearnPeerNumber(k, p), k', p, AckCount(W(k.send.next), k.send.count, p.ackNr));
    }
  }

  lemma AnyAdvance(k: Sock, k': Sock, p: Packet, acks: nat)
    requires EndsAs(AdvanceState(k, p, acks), k')
    ensures k'.send.closeRequested == k.send.closeRequested && k'.send.finSent == k.send.finSent
    ensures k'.send.finSentAcked ==> k.send.finSentAcked || k.send.finSent
    ensures Established(k'.state) ==> Established(k.state) || k.state == SynSent || k.state == SynRecv
    ensures k'.state == SynSent || k'.state == SynRecv ==> k'.state == k.state
  {
  }

  lemma EstablishedAdvance(k: Sock, k': Sock, p: Packet, acks: nat)
    requires Established(k.state) && EndsAs(AdvanceState(k, p, acks), k')
    ensures k'.send.finSentAcked <==> k.send.finSentAcked || (k.send.finSent && k.send.count == acks)
    ensures k'.state == Destroy <==> k.send.finSent && k.send.closeRequested && k.send.count == acks
    ensures k'.state == Destroy || Established(k'.state)
  {
  }

  // ---------------------------------------------------------------- over runs

  /** A connection that is not established yet has not ended its stream, and one that is has not both
      been closed and had its FIN acknowledged. */
  ghost predicate NotOver(k: Sock) {
    && (k.send.finSentAcked ==> k.send.finSent)
    && (k.state == SynSent || k.state == SynRecv ==> !k.send.finSent && !k.send.closeRequested && !k.send.finSentAcked)
    && (Established(k.state) && k.send.closeRequested ==> k.send.finSent && !k.send.finSentAcked)
  }

  /** The flags about the end of the stream are as they were, and the connection is no younger. */
  ghost predicate SameFlags(k: Sock, k': Sock) {
    && k'.send.finSent == k.send.finSent && k'.send.finSentAcked == k.send.finSentAcked
    && k'.send.closeRequested == k.send.closeRequested
    && (k'.state == k.state || (Established(k.state) && Established(k'.state))
        || !(Established(k'.state) || k'.state == SynSent || k'.state == SynRecv))
  }

  lemma SameFlagsNotOver(k: Sock, k': Sock)
    requires NotOver(k) && SameFlags(k, k')
    ensures NotOver(k')
  {
  }

  lemma WriteRoundsFlags(k: Sock, typ: PacketType, data: Bytes, env: Env)
    ensures SameFlags(k, WriteRounds(k, typ, data, env)) && WriteRounds(k, typ, data, env).state == k.state
    decreases |data|
  {
  }

  lemma WriteOutgoingPacketFlags(k: Sock, typ: PacketType, data: Bytes, env: Env)
    ensures SameFlags(k, WriteOutgoingPacket(k, typ, data, env))
    ensures WriteOutgoingPacket(k, typ, data, env).state == k.state
  {
    var k0 := if k.send.count == 0 then k.(ctl := k.ctl.(retransmitTimeout := env.rto)) else k;
    WriteRoundsFlags(k0, typ, data, env);
    var k1 := WriteRounds(k0, typ, data, env);
    FlushScanShape(k1, FlushSpan(k1.send), true, env);
  }

  lemma {:induction false} WriteChunksFlags(k: Sock, data: Bytes, env: Env)
    requires k.state == Connected
    ensures SameFlags(k, WriteChunks(k, data, env).0)
    decreases |data|
  {
    var num := Min(|data|, env.packetSize);
    if !IsFull(k, num, env) {
      WriteOutgoingPacketFlags(k, StData, data[..num], env);
      if Min(|data| - num, env.packetSize) != 0 {
        WriteChunksFlags(WriteOutgoingPacket(k, StData, data[..num], env), data[num..], env);
      }
    }
  }

  lemma TimeoutsFlags(k: Sock, timers: Timers, before: Env, after: Env)
    ensures SameFlags(k, CheckTimeouts(k, timers, before, after))
  {
    FlushScanShape(k, FlushSpan(k.send), true, before);
    RunTimersFlags(FlushUnlessDestroyed(k, before), timers, after);
  }

  lemma RunTimersFlags(k: Sock, timers: Timers, env: Env)
    ensures SameFlags(k, RunTimers(k, timers, env))
  {
    if TimeoutActive(k.state) {
      var k1 := MaybeExpire(LiftZeroWindow(k, timers), timers).0;
      RtoExpiredFlags(LiftZeroWindow(k, timers), timers.probeTimedOut);
      assert SameFlags(k, k1);
      TailFlags(k1, timers, env);
    }
  }

  lemma TailFlags(k: Sock, timers: Timers, env: Env)
    ensures SameFlags(k, KeepAlive(ReopenWindow(k, env), timers, env))
  {
  }

  lemma RtoExpiredFlags(k: Sock, probeTimedOut: bool)
    ensures SameFlags(k, RtoExpired(k, probeTimedOut).0)
  {
  }

  lemma IncomingNotOver(k: Sock, k': Sock, p: Packet, env: Env)
    requires NotOver(k) && k' == ProcessIncoming(k, p, env).0
    ensures NotOver(k')
  {
    IncomingKeepsRequest(k, k', p, env);
    if Established(k.state) {
      FinAckedExactly(k, k', p, env);
    } else if k.state == SynSent || k.state == SynRecv {
      YoungStaysOpen(k, k', p, env);
    }
  }

  lemma YoungStaysOpen(k: Sock, k': Sock, p: Packet, env: Env)
    requires NotOver(k) && (k.state == SynSent || k.state == SynRecv) && k' == ProcessIncoming(k, p, env).0
    ensures !k'.send.finSent && !k'.send.closeRequested && !k'.send.finSentAcked
  {
    if Examined(k, p) {
      ArrivalEndsAs(k, k', p, env);
    }
  }

  lemma DoNotOver(k: Sock, k': Sock, c: Call)
    requires SenderInv(k) && NotOver(k) && k' == Do(k, c)
    ensures NotOver(k')
  {
    match c {
      case CallWritev(data, env) =>
        if k.state == Connected && !k.send.finSent {
          WriteChunksFlags(k, data, env);
        }
      case CallIncoming(p, env) => IncomingNotOver(k, k', p, env);
      case CallTimeouts(timers, before, after) => TimeoutsFlags(k, timers, before, after);
      case CallClose(env) => CloseEndsStream(k, k', env);
      case CallShutdown(how, env) => ShutdownEndsStream(k, k', how, env);
      case _ => assert SameFlags(k, k');
    }
  }

  /** Closing and being acknowledged come to the same in either order: in every run, whatever arrives,
      a connection that is still established has not both been closed and had its FIN
      acknowledged, and one that has been closed has sent its FIN. */
  lemma {:induction false} NoneLingers(openEnv: Env, seqNr: U16, peerSeq: U16, calls: seq<Call>)
    ensures NotOver(DoAll(Connect(Fresh(), seqNr, openEnv), calls))
    ensures NotOver(DoAll(AcceptSyn(Fresh(), peerSeq, seqNr), calls))
    decreases |calls|
  {
    if calls != [] {
      var init, last := calls[..|calls| - 1], calls[|calls| - 1];
      NoneLingers(openEnv, seqNr, peerSeq, init);
      ConservationOverRuns(openEnv, seqNr, peerSeq, init);
      var a, b := Connect(Fresh(), seqNr, openEnv), AcceptSyn(Fresh(), peerSeq, seqNr);
      DoNotOver(DoAll(a, init), DoAll(a, calls), last);
      DoNotOver(DoAll(b, init), DoAll(b, calls), last);
    }
  }
}
