/** What every operation keeps of the sender, whatever packets arrive: the bytes charged to the
    congestion window are exactly the payload of the window packets that are sent and not marked
    for resending, the head of a non-empty window is present, and the window never exceeds
    1,024 packets or its ring. */
module Conservation {
  import opened Serial
  import opened Protocol
  import Ring

  ghost predicate WindowInv(k: Sock) {
    var s := k.send;
    && s.count <= s.ringSize <= OUTGOING_BUFFER_MAX_SIZE
    && s.ringSize > 1
    && Ring.RingSize(s.ringSize)
    && (forall n :: n in s.win ==> Head(s) <= n < s.next && s.win[n].seqNr == W(n))
    && (forall n :: n in s.win && s.win[n].needResend ==> s.win[n].transmissions > 0)
    && k.ctl.curWindow == BytesInFlight(s.win, Head(s), s.next)
  }

  ghost predicate SenderInv(k: Sock) {
    && WindowInv(k)
    && (k.send.count > 0 ==> Head(k.send) in k.send.win)
    && k.send.count <= if k.send.finSent then OUTGOING_BUFFER_MAX_SIZE else OUTGOING_BUFFER_MAX_SIZE - 1
  }

  function Weight(win: map<int, OutPkt>, n: int): nat {
    if n in win && InFlight(win[n]) then |win[n].payload| else 0
  }

  /** Two windows that differ at most at `n` differ in flight by what `n` weighs. */
  lemma {:induction false} BytesDiffer(win: map<int, OutPkt>, win': map<int, OutPkt>, lo: int, hi: int, n: int)
    requires lo <= n < hi
    requires forall i :: lo <= i < hi && i != n ==> Ring.Lookup(win, i) == Ring.Lookup(win', i)
    ensures BytesInFlight(win', lo, hi) - Weight(win', n) == BytesInFlight(win, lo, hi) - Weight(win, n)
    decreases hi - lo
  {
    assert Ring.Lookup(win, hi - 1) == Ring.Lookup(win', hi - 1) || n == hi - 1;
    if n == hi - 1 {
      BytesSame(win, win', lo, hi - 1);
    } else {
      BytesDiffer(win, win', lo, hi - 1, n);
    }
  }

  lemma {:induction false} BytesSame(win: map<int, OutPkt>, win': map<int, OutPkt>, lo: int, hi: int)
    requires forall i :: lo <= i < hi ==> Ring.Lookup(win, i) == Ring.Lookup(win', i)
    ensures BytesInFlight(win', lo, hi) == BytesInFlight(win, lo, hi)
    decreases hi - lo
  {
    if lo < hi {
      assert Ring.Lookup(win, hi - 1) == Ring.Lookup(win', hi - 1);
      BytesSame(win, win', lo, hi - 1);
    }
  }

  lemma {:induction false} BytesWithoutHead(win: map<int, OutPkt>, lo: int, hi: int)
    requires lo < hi
    ensures BytesInFlight(win, lo, hi) == Weight(win, lo) + BytesInFlight(win, lo + 1, hi)
    decreases hi - lo
  {
    if lo < hi - 1 {
      BytesWithoutHead(win, lo, hi - 1);
    }
  }

  // ---------------------------------------------------------------- sending

  lemma SendPacketKeeps(k: Sock, n: int)
    requires WindowInv(k) && n in k.send.win
    ensures WindowInv(SendPacket(k, n))
  {
    BytesDiffer(k.send.win, SendPacket(k, n).send.win, Head(k.send), k.send.next, n);
  }

  /** The invariant speaks of the window, its bounds and the charge only. */
  lemma SameWindow(k: Sock, k': Sock)
    requires WindowInv(k)
    requires k'.send.win == k.send.win && k'.send.next == k.send.next && k'.send.count == k.send.count
    requires k'.send.ringSize == k.send.ringSize && k'.ctl.curWindow == k.ctl.curWindow
    ensures WindowInv(k')
  {
  }

  lemma SendAndMoveKeeps(k: Sock, n: int, cursor: U16)
    requires WindowInv(k) && n in k.send.win
    ensures WindowInv(WithCursor(SendPacket(k, n), cursor))
  {
    SendPacketKeeps(k, n);
    SameWindow(SendPacket(k, n), WithCursor(SendPacket(k, n), cursor));
  }

  lemma {:induction false} FlushScanKeeps(k: Sock, k': Sock, left: nat, inPrefix: bool, env: Env)
    requires WindowInv(k) && k' == FlushScan(k, left, inPrefix, env).0
    ensures WindowInv(k')
    decreases left
  {
    if left > 0 {
      var n := k.send.next - left;
      var cursor := if inPrefix then W(n + 1) else k.send.flushScanStart;
      if Settled(k.send.win, n) {
        SameWindow(k, WithCursor(k, cursor));
        FlushScanKeeps(WithCursor(k, cursor), k', left - 1, inPrefix, env);
      } else if !IsFull(k, -1, env) {
        if left != 1 || k.send.count == 1 || |k.send.win[n].payload| >= env.packetSize {
          SendAndMoveKeeps(k, n, cursor);
          FlushScanKeeps(WithCursor(SendPacket(k, n), cursor), k', left - 1, inPrefix, env);
        } else {
          FlushScanKeeps(k, k', left - 1, false, env);
        }
      }
    }
  }

  /** Sending changes no number, no flag and no set of packets. */
  ghost predicate SameShape(k: Sock, k': Sock) {
    && k'.send == k.send.(win := k'.send.win, flushScanStart := k'.send.flushScanStart)
    && k'.send.win.Keys == k.send.win.Keys
    && k'.state == k.state && k'.recv == k.recv
    && k'.ctl.retransmitCount == k.ctl.retransmitCount
    && k'.ctl.retransmitTimeout == k.ctl.retransmitTimeout
    && k'.ctl.fastResend == k.ctl.fastResend
    && k'.events == k.events
  }

  lemma SendPacketShape(k: Sock, n: int)
    requires n in k.send.win
    ensures SameShape(k, SendPacket(k, n))
  {
  }

  lemma {:induction false} FlushScanShape(k: Sock, left: nat, inPrefix: bool, env: Env)
    ensures SameShape(k, FlushScan(k, left, inPrefix, env).0)
    decreases left
  {
    if left > 0 {
      var n := k.send.next - left;
      var cursor := if inPrefix then W(n + 1) else k.send.flushScanStart;
      if Settled(k.send.win, n) {
        FlushScanShape(WithCursor(k, cursor), left - 1, inPrefix, env);
      } else if !IsFull(k, -1, env) {
        if left != 1 || k.send.count == 1 || |k.send.win[n].payload| >= env.packetSize {
          SendPacketShape(k, n);
          FlushScanShape(WithCursor(SendPacket(k, n), cursor), left - 1, inPrefix, env);
        } else {
          FlushScanShape(k, left - 1, false, env);
        }
      }
    }
  }

  lemma FlushKeeps(k: Sock, env: Env)
    requires SenderInv(k)
    ensures SenderInv(Flush(k, env).0) && SameShape(k, Flush(k, env).0)
  {
    FlushScanKeeps(k, Flush(k, env).0, FlushSpan(k.send), true, env);
    FlushScanShape(k, FlushSpan(k.send), true, env);
  }

  // ---------------------------------------------------------------- writing

  lemma TopUpKeeps(k: Sock, typ: PacketType, data: Bytes, env: Env)
    requires WindowInv(k) && CanTopUp(k.send, env.packetSize)
    ensures WindowInv(TopUp(k, typ, data, env))
  {
    BytesDiffer(k.send.win, TopUp(k, typ, data, env).send.win, Head(k.send), k.send.next, k.send.next - 1);
  }

  lemma AppendKeeps(k: Sock, typ: PacketType, data: Bytes, env: Env)
    requires WindowInv(k) && k.send.count < OUTGOING_BUFFER_MAX_SIZE
    ensures WindowInv(Append(k, typ, data, env))
  {
    Ring.GrownSizeProperties(k.send.ringSize, k.send.count);
    BytesSame(k.send.win, Append(k, typ, data, env).send.win, Head(k.send), k.send.next);
  }

  /** One call adds at most one packet to the window. */
  lemma WriteRoundsKeeps(k: Sock, typ: PacketType, data: Bytes, env: Env)
    requires SenderInv(k) && k.send.count < OUTGOING_BUFFER_MAX_SIZE
    ensures var k' := WriteRounds(k, typ, data, env);
            && WindowInv(k')
            && k.send.count <= k'.send.count <= k.send.count + 1
            && k'.send.finSent == k.send.finSent
            && k'.send.count > 0 && Head(k'.send) in k'.send.win
  {
    var added := Added(k.send, data, env.packetSize);
    if data != [] && CanTopUp(k.send, env.packetSize) {
      TopUpKeeps(k, typ, data[..added], env);
      var k1 := TopUp(k, typ, data[..added], env);
      if added < |data| {
        assert !CanTopUp(k1.send, env.packetSize);
        AppendKeeps(k1, typ, data[added..], env);
      }
    } else {
      AppendKeeps(k, typ, data, env);
    }
  }

  lemma WriteOutgoingPacketKeeps(k: Sock, typ: PacketType, data: Bytes, env: Env)
    requires SenderInv(k)
    requires k.send.count < if k.send.finSent then OUTGOING_BUFFER_MAX_SIZE else OUTGOING_BUFFER_MAX_SIZE - 1
    ensures SenderInv(WriteOutgoingPacket(k, typ, data, env))
    ensures WriteOutgoingPacket(k, typ, data, env).send.finSent == k.send.finSent
  {
    var k0 := if k.send.count == 0 then k.(ctl := k.ctl.(retransmitTimeout := env.rto)) else k;
    WriteRoundsKeeps(k0, typ, data, env);
    FlushKeeps(WriteRounds(k0, typ, data, env), env);
  }

  lemma {:induction false} WriteChunksKeeps(k: Sock, data: Bytes, env: Env)
    requires SenderInv(k) && !k.send.finSent
    ensures SenderInv(WriteChunks(k, data, env).0)
    decreases |data|
  {
    var num := Min(|data|, env.packetSize);
    if !IsFull(k, num, env) {
      WriteOutgoingPacketKeeps(k, StData, data[..num], env);
      if Min(|data| - num, env.packetSize) != 0 {
        WriteChunksKeeps(WriteOutgoingPacket(k, StData, data[..num], env), data[num..], env);
      }
    }
  }

  lemma SendFinKeeps(k: Sock, env: Env)
    requires SenderInv(k) && !k.send.finSent
    ensures SenderInv(SendFin(k, env))
  {
    WriteOutgoingPacketKeeps(k.(send := k.send.(finSent := true)), StFin, [], env);
  }

  // ---------------------------------------------------------------- acknowledgements

  lemma AckPacketKeeps(k: Sock, n: int, env: Env)
    requires WindowInv(k)
    ensures WindowInv(AckPacket(k, n, env).0)
    ensures AckPacket(k, n, env).0.ctl.curWindow >= 0
  {
    if n in k.send.win {
      BytesDiffer(k.send.win, k.send.win - {n}, Head(k.send), k.send.next, n);
    }
  }

  /** The charge of a packet is covered by the charge of the window: taking it off never
      underflows. */
  lemma RemoveInFlightNeverUnderflows(k: Sock, n: int)
    requires WindowInv(k) && n in k.send.win && InFlight(k.send.win[n])
    ensures k.ctl.curWindow >= |k.send.win[n].payload|
  {
    BytesDiffer(k.send.win, k.send.win - {n}, Head(k.send), k.send.next, n);
  }

  lemma DropHeadKeeps(k: Sock)
    requires WindowInv(k) && k.send.count > 0 && Head(k.send) !in k.send.win
    ensures WindowInv(k.(send := k.send.(count := k.send.count - 1)))
  {
    BytesWithoutHead(k.send.win, Head(k.send), k.send.next);
  }

  lemma {:induction false} AckCumulativeKeeps(k: Sock, acks: nat, env: Env)
    requires WindowInv(k)
    ensures WindowInv(AckCumulative(k, acks, env))
    ensures AckCumulative(k, acks, env).send.count <= k.send.count
    ensures AckCumulative(k, acks, env).send.finSent == k.send.finSent
    decreases acks
  {
    if acks != 0 && k.send.count != 0 {
      AckPacketKeeps(k, Head(k.send), env);
      var (k1, status) := AckPacket(k, Head(k.send), env);
      if status != NeverSent {
        DropHeadKeeps(k1);
        AckCumulativeKeeps(k1.(send := k1.send.(count := k1.send.count - 1)), acks - 1, env);
      }
    }
  }

  lemma {:induction false} SkipAckedKeeps(k: Sock)
    requires WindowInv(k)
    ensures var k' := SkipAcked(k);
            && WindowInv(k')
            && (k'.send.count > 0 ==> Head(k'.send) in k'.send.win)
            && k'.send.count <= k.send.count && k'.send.finSent == k.send.finSent
    decreases k.send.count
  {
    if k.send.count > 0 && Head(k.send) !in k.send.win {
      DropHeadKeeps(k);
      SkipAckedKeeps(k.(send := k.send.(count := k.send.count - 1)));
    }
  }

  lemma SendLoneUnsentKeeps(k: Sock)
    requires SenderInv(k)
    ensures SenderInv(SendLoneUnsent(k))
  {
    if k.send.next - 1 in k.send.win {
      SendPacketKeeps(k, k.send.next - 1);
    }
  }

  lemma FastTimeoutKeeps(k: Sock)
    requires SenderInv(k)
    ensures SenderInv(FastTimeout(k))
  {
    var n := Head(k.send);
    var k1 := Report(k.(ctl := k.ctl.(fastResend := W(k.ctl.fastResend + 1))), FastResend(W(n), |k.out|));
    SameWindow(k, k1);
    SameWindow(k, k.(ctl := k.ctl.(fastTimeout := false)));
    if n in k.send.win {
      SendPacketKeeps(k1, n);
    }
  }

  lemma AdvanceStateKeeps(k: Sock, p: Packet, acks: nat)
    requires SenderInv(k)
    ensures SenderInv(RaiseFastResend(AdvanceState(k, p, acks), p.ackNr))
  {
    SameWindow(k, RaiseFastResend(AdvanceState(k, p, acks), p.ackNr));
  }

  lemma AckAndSkipKeeps(k: Sock, acks: nat, env: Env)
    requires SenderInv(k)
    ensures SenderInv(SkipAcked(AckCumulative(k, acks, env)))
  {
    AckCumulativeKeeps(k, acks, env);
    SkipAckedKeeps(AckCumulative(k, acks, env));
  }

  lemma AdvanceSendWindowKeeps(k: Sock, p: Packet, acks: nat, env: Env)
    requires SenderInv(k)
    ensures SenderInv(AdvanceSendWindow(k, p, acks, env))
  {
    AdvanceStateKeeps(k, p, acks);
    var k1 := RaiseFastResend(AdvanceState(k, p, acks), p.ackNr);
    AckAndSkipKeeps(k1, acks, env);
    var k2 := SkipAcked(AckCumulative(k1, acks, env));
    SendLoneUnsentKeeps(k2);
    FastTimeoutKeeps(SendLoneUnsent(k2));
  }

  /** A mask never touches the head of the window. */
  lemma SackVisitKeeps(c: Scan, base: int, mask: Mask, bits: int, env: Env)
    requires SenderInv(c.sock) && -1 <= bits < 8 * |mask|
    ensures SenderInv(SackVisit(c, base, mask, bits, env).sock)
  {
    var k := c.sock;
    match SackNumber(k.send, base, bits) {
      case None =>
      case Some(n) => AckPacketKeeps(k, n, env);
    }
  }

  lemma {:induction false} SackScanKeeps(c: Scan, base: int, mask: Mask, bits: int, env: Env)
    requires SenderInv(c.sock) && -2 <= bits < 8 * |mask|
    ensures SenderInv(SackScan(c, base, mask, bits, env).sock)
    decreases bits + 2
  {
    if bits != -2 {
      SackVisitKeeps(c, base, mask, bits, env);
      SackScanKeeps(SackVisit(c, base, mask, bits, env), base, mask, bits - 1, env);
    }
  }

  /** One resend out of the list: `v` is only a name for a slot, the packet of the window in
      that slot is sent. */
  function ResendOne(k: Sock, v: U16, n: int): Sock
    requires n in k.send.win
  {
    var k' := SendPacket(Report(k, FastResend(v, |k.out|)), n);
    k'.(ctl := k'.ctl.(fastResend := W(v + 1)))
  }

  lemma ResendStep(k: Sock, rest: seq<U16>, v: U16, budget: nat, k1: Sock, resent: bool)
    requires budget > 0 && k.send.ringSize > 0
    requires var n := Ring.Alias(v, Head(k.send), k.send.ringSize);
             resent == (n in k.send.win) && k1 == if resent then ResendOne(k, v, n) else k
    ensures ResendLast(k, rest + [v], budget) == ResendLast(k1, rest, if resent then budget - 1 else budget)
  {
    assert (rest + [v])[..|rest + [v]| - 1] == rest;
  }

  lemma ResendOneKeeps(k: Sock, v: U16, n: int)
    requires SenderInv(k) && n in k.send.win
    ensures SenderInv(ResendOne(k, v, n))
  {
    SendPacketKeeps(Report(k, FastResend(v, |k.out|)), n);
    SameWindow(SendPacket(Report(k, FastResend(v, |k.out|)), n), ResendOne(k, v, n));
  }

  lemma {:induction false} ResendLastKeeps(k: Sock, resends: seq<U16>, budget: nat)
    requires SenderInv(k)
    ensures SenderInv(ResendLast(k, resends, budget))
    decreases |resends|
  {
    if resends != [] && budget != 0 {
      var v := resends[|resends| - 1];
      var rest := resends[..|resends| - 1];
      var n := Ring.Alias(v, Head(k.send), k.send.ringSize);
      if n in k.send.win {
        ResendOneKeeps(k, v, n);
        ResendLastKeeps(ResendOne(k, v, n), rest, budget - 1);
      } else {
        ResendLastKeeps(k, rest, budget);
      }
    }
  }

  lemma SelectiveAckKeeps(k: Sock, base: int, mask: Mask, env: Env)
    requires SenderInv(k)
    ensures SenderInv(SelectiveAck(k, base, mask, env))
  {
    if k.send.count != 0 {
      SackScanKeeps(Scan(k, 0, []), base, mask, 8 * |mask| - 1, env);
      var c := SackScan(Scan(k, 0, []), base, mask, 8 * |mask| - 1, env);
      ResendLastKeeps(c.sock, SackCandidates(c, base), MAX_RESENDS);
    }
  }

  lemma ProcessAcksKeeps(k: Sock, p: Packet, env: Env)
    requires SenderInv(k)
    ensures SenderInv(ProcessAcks(k, p, env))
  {
    var acks := AckCount(W(k.send.next), k.send.count, p.ackNr);
    AdvanceSendWindowKeeps(k, p, acks, env);
    if p.sack.Some? {
      SelectiveAckKeeps(AdvanceSendWindow(k, p, acks, env), p.ackNr + 2, p.sack.value, env);
    }
  }

  // ---------------------------------------------------------------- receiving

  /** Operations of the receiver leave the sender alone. */
  ghost predicate SameSender(k: Sock, k': Sock) {
    k'.send == k.send && k'.ctl == k.ctl && k'.state == k.state
  }

  lemma {:induction false} DrainKeepsSender(k: Sock, env: Env)
    ensures SameSender(k, Drain(k, env))
    decreases k.recv.reorderCount
  {
    var k1 := PostEof(k, env);
    if k1.recv.reorderCount != 0 && Ring.Get(k1.recv.inbuf, k1.recv.ack + 1).Some? {
      DrainKeepsSender(Drained(k1, Ring.Get(k1.recv.inbuf, k1.recv.ack + 1).value), env);
    }
  }

  lemma DeliverDataKeepsSender(k: Sock, p: Packet, seqnr: nat, env: Env)
    ensures SameSender(k, DeliverData(k, p, seqnr, env).0)
  {
    var k1 := Read(NoteFin(k, p), p.payload);
    DrainKeepsSender(k1.(recv := k1.recv.(ack := k1.recv.ack + 1)), env);
  }

  // ---------------------------------------------------------------- timeouts

  lemma {:induction false} NothingInFlight(win: map<int, OutPkt>, lo: int, hi: int)
    requires forall n :: lo <= n < hi && n in win ==> !InFlight(win[n])
    ensures BytesInFlight(win, lo, hi) == 0
    decreases hi - lo
  {
    if lo < hi {
      NothingInFlight(win, lo, hi - 1);
    }
  }

  lemma ResendAfterTimeoutKeeps(k: Sock)
    requires SenderInv(k)
    ensures SenderInv(ResendAfterTimeout(k))
  {
    var k1 := MarkForResend(k);
    NothingInFlight(k1.send.win, Head(k1.send), k1.send.next);
    if k1.send.count != 0 {
      var k2 := k1.(ctl := k1.ctl.(retransmitCount := k1.ctl.retransmitCount + 1, fastTimeout := true));
      SendPacketKeeps(k2, Head(k2.send));
    }
  }

  lemma RtoExpiredKeeps(k: Sock, probeTimedOut: bool)
    requires SenderInv(k)
    ensures SenderInv(RtoExpired(k, probeTimedOut).0)
  {
    var newTimeout := if probeTimedOut then k.ctl.retransmitTimeout else k.ctl.retransmitTimeout * 2;
    var k1 := k.(ctl := k.ctl.(retransmitTimeout := newTimeout));
    SameWindow(k, k1);
    ResendAfterTimeoutKeeps(k1);
  }

  lemma ReopenWindowKeeps(k: Sock, env: Env)
    requires SenderInv(k)
    ensures SenderInv(ReopenWindow(k, env))
  {
  }

  lemma KeepAliveKeeps(k: Sock, timers: Timers, env: Env)
    requires SenderInv(k)
    ensures SenderInv(KeepAlive(k, timers, env))
  {
    SameWindow(k, KeepAlive(k, timers, env));
  }

  lemma LiftZeroWindowKeeps(k: Sock, timers: Timers)
    requires SenderInv(k)
    ensures SenderInv(LiftZeroWindow(k, timers))
  {
    SameWindow(k, LiftZeroWindow(k, timers));
  }

  lemma MaybeExpireKeeps(k: Sock, timers: Timers)
    requires SenderInv(k)
    ensures SenderInv(MaybeExpire(k, timers).0)
  {
    RtoExpiredKeeps(k, timers.probeTimedOut);
  }

  lemma FlushUnlessDestroyedKeeps(k: Sock, env: Env)
    requires SenderInv(k)
    ensures SenderInv(FlushUnlessDestroyed(k, env))
  {
    FlushKeeps(k, env);
  }

  lemma CheckTimeoutsKeeps(k: Sock, timers: Timers, before: Env, after: Env)
    requires SenderInv(k)
    ensures SenderInv(CheckTimeouts(k, timers, before, after))
  {
    FlushUnlessDestroyedKeeps(k, before);
    var k0 := FlushUnlessDestroyed(k, before);
    LiftZeroWindowKeeps(k0, timers);
    MaybeExpireKeeps(LiftZeroWindow(k0, timers), timers);
    var (k1, alive) := MaybeExpire(LiftZeroWindow(k0, timers), timers);
    ReopenWindowKeeps(k1, after);
    KeepAliveKeeps(ReopenWindow(k1, after), timers, after);
  }

  // ---------------------------------------------------------------- every operation

  /** The calls the outside world makes on a socket. */
  datatype Call =
    | CallWritev(data: Bytes, env: Env)
    | CallIncoming(p: Packet, env: Env)
    | CallTimeouts(timers: Timers, before: Env, after: Env)
    | CallClose(env: Env)
    | CallShutdown(how: How, env: Env)
    | CallReadDrained(env: Env)
    | CallDeferredAck(env: Env)
    | CallReset
    | CallIcmpError

  function Do(k: Sock, c: Call): Sock {
    match c
    case CallWritev(data, env) => Writev(k, data, env).0
    case CallIncoming(p, env) => ProcessIncoming(k, p, env).0
    case CallTimeouts(timers, before, after) => CheckTimeouts(k, timers, before, after)
    case CallClose(env) => Close(k, env)
    case CallShutdown(how, env) => Shutdown(k, how, env)
    case CallReadDrained(env) => ReadDrained(k, env)
    case CallDeferredAck(env) => if k.ackPending then SendAck(k, env) else k
    case CallReset => Abort(k)
    case CallIcmpError => IcmpError(k)
  }

  function DoAll(k: Sock, calls: seq<Call>): Sock
    decreases |calls|
  {
    if calls == [] then k else Do(DoAll(k, calls[..|calls| - 1]), calls[|calls| - 1])
  }

  lemma DoKeeps(k: Sock, c: Call)
    requires SenderInv(k)
    ensures SenderInv(Do(k, c))
  {
    match c {
      case CallWritev(data, env) =>
        if k.state == Connected && !k.send.finSent {
          WriteChunksKeeps(k, data, env);
        }
      case CallIncoming(p, env) => IncomingKeeps(k, p, env);
      case CallTimeouts(timers, before, after) => CheckTimeoutsKeeps(k, timers, before, after);
      case CallClose(env) => CloseKeeps(k, env);
      case CallShutdown(how, env) => ShutdownKeeps(k, how, env);
      case _ => SameWindow(k, Do(k, c));
    }
  }

  lemma CloseKeeps(k: Sock, env: Env)
    requires SenderInv(k)
    ensures SenderInv(Close(k, env))
  {
    var k1 := MarkReadShutdown(k);
    var k2 := k1.(send := k1.send.(closeRequested := true));
    SameWindow(k, k2);
    if !k2.send.finSent {
      SendFinKeeps(k2, env);
    }
  }

  lemma ShutdownKeeps(k: Sock, how: How, env: Env)
    requires SenderInv(k)
    ensures SenderInv(Shutdown(k, how, env))
  {
    var k1 := if how != ShutWr then MarkReadShutdown(k) else k;
    SameWindow(k, k1);
    if !k1.send.finSent {
      SendFinKeeps(k1, env);
    }
  }

  lemma SameSenderKeeps(k: Sock, k': Sock)
    requires SenderInv(k) && SameSender(k, k')
    ensures SenderInv(k')
  {
  }

  lemma ProcessInWindowKeeps(k: Sock, p: Packet, seqnr: nat, env: Env)
    requires SenderInv(k)
    ensures SenderInv(ProcessInWindow(k, p, seqnr, env).0)
  {
    ProcessAcksKeeps(k, p, env);
    ReopenWindowKeeps(ProcessAcks(k, p, env), env);
    var k1 := ReopenWindow(ProcessAcks(k, p, env), env);
    DeliverDataKeepsSender(k1, p, seqnr, env);
    SameSenderKeeps(k1, DeliverData(k1, p, seqnr, env).0);
  }

  lemma IncomingKeeps(k: Sock, p: Packet, env: Env)
    requires SenderInv(k)
    ensures SenderInv(ProcessIncoming(k, p, env).0)
  {
    var k0 := LearnPeerNumber(k, p);
    SameSenderKeeps(k, k0);
    SameSenderKeeps(k, k0.(ackPending := true));
    ProcessInWindowKeeps(k0, p, IncomingOffset(k0, p), env);
  }

  /** In-flight conservation over every run, from either way of opening a connection. */
  lemma {:induction false} ConservationOverRuns(env: Env, seqNr: U16, peerSeq: U16, calls: seq<Call>)
    ensures SenderInv(DoAll(Connect(Fresh(), seqNr, env), calls))
    ensures SenderInv(DoAll(AcceptSyn(Fresh(), peerSeq, seqNr), calls))
    decreases |calls|
  {
    if calls == [] {
      var k := Fresh();
      assert Ring.RingSize(16) by { assert Ring.Pow2(4) == 16; }
      var k1 := k.(state := SynSent, send := k.send.(next := seqNr), ctl := k.ctl.(retransmitTimeout := 3000));
      AppendKeeps(k1, StSyn, [], env);
      SendPacketKeeps(Append(k1, StSyn, [], env), seqNr);
    } else {
      var init := calls[..|calls| - 1];
      ConservationOverRuns(env, seqNr, peerSeq, init);
      DoKeeps(DoAll(Connect(Fresh(), seqNr, env), init), calls[|calls| - 1]);
      DoKeeps(DoAll(AcceptSyn(Fresh(), peerSeq, seqNr), init), calls[|calls| - 1]);
    }
  }
}
