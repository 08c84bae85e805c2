/** How long a socket keeps trying when nothing is acknowledged, and how its timeout grows. */
module GiveUp {
  import opened Serial
  import opened Protocol
  import opened Conservation
  import Ring

  /** `k'` comes from `k` by taking packets off the window and sending others again. When no
      packet was taken off, the retransmission counters are untouched. */
  ghost predicate Resent(k: Sock, k': Sock) {
    && k'.state == k.state
    && k'.send.finSent == k.send.finSent && k'.send.finSentAcked == k.send.finSentAcked
    && k'.send.closeRequested == k.send.closeRequested
    && k'.send.win.Keys <= k.send.win.Keys
    && (k'.send.win.Keys == k.send.win.Keys ==>
          && k'.ctl.retransmitCount == k.ctl.retransmitCount
          && k'.ctl.retransmitTimeout == k.ctl.retransmitTimeout)
  }

  lemma ResentTransitive(k: Sock, k1: Sock, k2: Sock)
    requires Resent(k, k1) && Resent(k1, k2)
    ensures Resent(k, k2)
  {
  }

  lemma AckPacketResent(k: Sock, n: int, env: Env)
    ensures Resent(k, AckPacket(k, n, env).0)
  {
    var k' := AckPacket(k, n, env).0;
    if k' != k {
      assert n in k.send.win.Keys && n !in k'.send.win.Keys;
    }
  }

  lemma {:induction false} AckCumulativeResent(k: Sock, acks: nat, env: Env)
    ensures Resent(k, AckCumulative(k, acks, env))
    decreases acks
  {
    if acks != 0 && k.send.count != 0 {
      AckPacketResent(k, Head(k.send), env);
      var (k1, status) := AckPacket(k, Head(k.send), env);
      if status != NeverSent {
        var k2 := k1.(send := k1.send.(count := k1.send.count - 1));
        AckCumulativeResent(k2, acks - 1, env);
        ResentTransitive(k, k2, AckCumulative(k2, acks - 1, env));
      }
    }
  }

  lemma {:induction false} SkipAckedResent(k: Sock)
    ensures Resent(k, SkipAcked(k))
    decreases k.send.count
  {
    if k.send.count > 0 && Head(k.send) !in k.send.win {
      SkipAckedResent(k.(send := k.send.(count := k.send.count - 1)));
    }
  }

  lemma {:induction false} SackScanResent(c: Scan, base: int, mask: Mask, bits: int, env: Env)
    requires -2 <= bits < 8 * |mask|
    ensures Resent(c.sock, SackScan(c, base, mask, bits, env).sock)
    decreases bits + 2
  {
    if bits != -2 {
      var c1 := SackVisit(c, base, mask, bits, env);
      match SackNumber(c.sock.send, base, bits) {
        case None =>
        case Some(n) => AckPacketResent(c.sock, n, env);
      }
      SackScanResent(c1, base, mask, bits - 1, env);
      ResentTransitive(c.sock, c1.sock, SackScan(c1, base, mask, bits - 1, env).sock);
    }
  }

  lemma {:induction false} ResendLastResent(k: Sock, resends: seq<U16>, budget: nat)
    ensures Resent(k, ResendLast(k, resends, budget))
    decreases |resends|
  {
    if resends != [] && budget != 0 {
      var v := resends[|resends| - 1];
      var rest := resends[..|resends| - 1];
      var n := if k.send.ringSize == 0 then v else Ring.Alias(v, Head(k.send), k.send.ringSize);
      if n in k.send.win {
        ResendLastResent(ResendOne(k, v, n), rest, budget - 1);
        ResentTransitive(k, ResendOne(k, v, n), ResendLast(ResendOne(k, v, n), rest, budget - 1));
      } else {
        ResendLastResent(k, rest, budget);
      }
    }
  }

  lemma SelectiveAckResent(k: Sock, base: int, mask: Mask, env: Env)
    ensures Resent(k, SelectiveAck(k, base, mask, env))
  {
    if k.send.count != 0 {
      SackScanResent(Scan(k, 0, []), base, mask, 8 * |mask| - 1, env);
      var c := SackScan(Scan(k, 0, []), base, mask, 8 * |mask| - 1, env);
      ResendLastResent(c.sock, SackCandidates(c, base), MAX_RESENDS);
      ResentTransitive(k, c.sock, ResendLast(c.sock, SackCandidates(c, base), MAX_RESENDS));
    }
  }

  lemma AdvanceRestResent(k: Sock, acks: nat, env: Env)
    ensures Resent(k, FastTimeout(SendLoneUnsent(SkipAcked(AckCumulative(k, acks, env)))))
  {
    var k1 := AckCumulative(k, acks, env);
    AckCumulativeResent(k, acks, env);
    SkipAckedResent(k1);
    var k2 := SkipAcked(k1);
    ResentTransitive(k, k1, k2);
    var k3 := SendLoneUnsent(k2);
    TailResent(k2);
    ResentTransitive(k, k2, FastTimeout(k3));
  }

  lemma TailResent(k: Sock)
    ensures Resent(k, FastTimeout(SendLoneUnsent(k)))
  {
    var k1 := SendLoneUnsent(k);
    assert Resent(k, k1);
    ResentTransitive(k, k1, FastTimeout(k1));
  }

  /** Only the first step of the window's advance touches the connection state. */
  lemma ProcessAcksResent(k: Sock, p: Packet, env: Env)
    ensures var acks := AckCount(W(k.send.next), k.send.count, p.ackNr);
            Resent(AdvanceState(k, p, acks), ProcessAcks(k, p, env))
  {
    var acks := AckCount(W(k.send.next), k.send.count, p.ackNr);
    var k0 := AdvanceState(k, p, acks);
    var k1 := RaiseFastResend(k0, p.ackNr);
    var k2 := AdvanceSendWindow(k, p, acks, env);
    AdvanceRestResent(k1, acks, env);
    ResentTransitive(k0, k1, k2);
    if p.sack.Some? {
      SelectiveAckResent(k2, p.ackNr + 2, p.sack.value, env);
      ResentTransitive(k0, k2, ProcessAcks(k, p, env));
    }
  }

  // ---------------------------------------------------------------- one call

  predicate Expiry(c: Call) {
    c.CallTimeouts? && c.timers.expired
  }

  /** An expiry that is not put down to a lone probe of the path MTU. */
  predicate Doubling(c: Call) {
    Expiry(c) && !c.timers.probeTimedOut
  }

  /** How many expiries a socket counts before it gives up at the next. */
  function Patience(k: Sock): nat {
    if k.state == SynSent then 2 else 4
  }

  /** What a call during which no packet was acknowledged leaves of the retransmission state of
      a socket that is still active. */
  ghost predicate Tried(k: Sock, k': Sock, expiry: bool, doubling: bool) {
    TimeoutActive(k'.state) ==>
      && TimeoutActive(k.state)
      && (k'.state == SynSent ==> k.state == SynSent)
      && k'.ctl.retransmitCount == k.ctl.retransmitCount + BoolBit(expiry)
      && (expiry ==> k.ctl.retransmitCount < Patience(k) && (k'.state == SynSent <==> k.state == SynSent))
      && k'.ctl.retransmitTimeout == k.ctl.retransmitTimeout * if doubling then 2 else 1
  }

  lemma AdvanceStateTried(k: Sock, k0: Sock, p: Packet, acks: nat)
    requires k0 == AdvanceState(k, p, acks)
    ensures k0.send.win == k.send.win && k0.ctl == k.ctl
    ensures TimeoutActive(k0.state) ==>
              && TimeoutActive(k.state)
              && (k0.state == SynSent ==> k.state == SynSent) && (k0.state == SynRecv ==> k.state == SynRecv)
  {
  }

  lemma AcksTried(k: Sock, k2: Sock, p: Packet, env: Env)
    requires k2 == ReopenWindow(ProcessAcks(k, p, env), env) && k.send.win.Keys <= k2.send.win.Keys
    ensures Tried(k, k2, false, false)
  {
    var acks := AckCount(W(k.send.next), k.send.count, p.ackNr);
    AdvanceStateTried(k, AdvanceState(k, p, acks), p, acks);
    ProcessAcksResent(k, p, env);
    var k1 := ProcessAcks(k, p, env);
    assert k1.send.win == k2.send.win && k1.ctl == k2.ctl;
    assert k2.state == k1.state || (k1.state == ConnectedFull && k2.state == Connected);
  }

  lemma SameSenderTried(k: Sock, k1: Sock, k2: Sock)
    requires Tried(k, k1, false, false) && SameSender(k1, k2)
    ensures Tried(k, k2, false, false)
  {
  }

  lemma IncomingTried(k: Sock, p: Packet, env: Env)
    requires k.send.win.Keys <= ProcessIncoming(k, p, env).0.send.win.Keys
    ensures Tried(k, ProcessIncoming(k, p, env).0, false, false)
  {
    var k0 := LearnPeerNumber(k, p);
    var k' := ProcessIncoming(k, p, env).0;
    var k2 := ReopenWindow(ProcessAcks(k0, p, env), env);
    DeliverDataKeepsSender(k2, p, IncomingOffset(k0, p), env);
    if !SameSender(k, k') {
      assert SameSender(k2, k');
      AcksTried(k0, k2, p, env);
      SameSenderTried(k0, k2, k');
    }
  }

  lemma {:induction false} WriteRoundsTried(k: Sock, typ: PacketType, data: Bytes, env: Env)
    ensures var k' := WriteRounds(k, typ, data, env);
            k'.ctl == k.ctl && k'.state == k.state && k'.send.count >= k.send.count
    decreases |data|
  {
    var added := Added(k.send, data, env.packetSize);
    if added < |data| {
      WriteRoundsTried(WriteRound(k, typ, data, env), typ, data[added..], env);
    }
  }

  lemma WriteOutgoingPacketTried(k: Sock, typ: PacketType, data: Bytes, env: Env)
    requires k.send.count > 0
    ensures var k' := WriteOutgoingPacket(k, typ, data, env);
            && k'.ctl.retransmitCount == k.ctl.retransmitCount && k'.ctl.retransmitTimeout == k.ctl.retransmitTimeout
            && k'.state == k.state && k'.send.count > 0
  {
    WriteRoundsTried(k, typ, data, env);
    var k1 := WriteRounds(k, typ, data, env);
    FlushScanShape(k1, FlushSpan(k1.send), true, env);
  }

  lemma {:induction false} WriteChunksTried(k: Sock, data: Bytes, env: Env)
    requires k.send.count > 0
    ensures var k' := WriteChunks(k, data, env).0;
            && k'.ctl.retransmitCount == k.ctl.retransmitCount && k'.ctl.retransmitTimeout == k.ctl.retransmitTimeout
            && (k'.state == k.state || k'.state == ConnectedFull)
    decreases |data|
  {
    var num := Min(|data|, env.packetSize);
    if !IsFull(k, num, env) {
      WriteOutgoingPacketTried(k, StData, data[..num], env);
      if Min(|data| - num, env.packetSize) != 0 {
        WriteChunksTried(WriteOutgoingPacket(k, StData, data[..num], env), data[num..], env);
      }
    }
  }

  lemma SendFinTried(k: Sock, env: Env)
    requires k.send.count > 0
    ensures Tried(k, SendFin(k, env), false, false)
  {
    WriteOutgoingPacketTried(k.(send := k.send.(finSent := true)), StFin, [], env);
  }

  lemma TimeoutsTried(k: Sock, timers: Timers, before: Env, after: Env)
    requires k.send.count > 0
    ensures Tried(k, CheckTimeouts(k, timers, before, after), timers.expired, timers.expired && !timers.probeTimedOut)
  {
    FlushScanShape(k, FlushSpan(k.send), true, before);
    var k0 := FlushUnlessDestroyed(k, before);
    TimersTried(k0, RunTimers(k0, timers, after), timers, after);
  }

  lemma TimersTried(k: Sock, k': Sock, timers: Timers, env: Env)
    requires k.send.count > 0 && k' == RunTimers(k, timers, env)
    ensures Tried(k, k', timers.expired, timers.expired && !timers.probeTimedOut)
  {
    if TimeoutActive(k.state) {
      var k1 := LiftZeroWindow(k, timers);
      RtoExpiredTried(k1, timers.probeTimedOut);
    }
  }

  lemma RtoExpiredTried(k: Sock, probeTimedOut: bool)
    requires k.send.count > 0
    ensures var (k', alive) := RtoExpired(k, probeTimedOut);
            && (alive ==> Tried(k, k', true, !probeTimedOut) && k'.state == k.state)
            && (!alive ==> !TimeoutActive(k'.state))
  {
  }

  lemma DoTried(k: Sock, k': Sock, c: Call)
    requires k' == Do(k, c) && k.send.count > 0 && k.send.win.Keys <= k'.send.win.Keys
    ensures Tried(k, k', Expiry(c), Doubling(c))
  {
    match c {
      case CallWritev(data, env) => WriteChunksTried(k, data, env);
      case CallIncoming(p, env) => IncomingTried(k, p, env);
      case CallTimeouts(timers, before, after) => TimeoutsTried(k, timers, before, after);
      case CallClose(env) =>
        var k1 := MarkReadShutdown(k);
        SendFinTried(k1.(send := k1.send.(closeRequested := true)), env);
      case CallShutdown(how, env) =>
        SendFinTried(if how != ShutWr then MarkReadShutdown(k) else k, env);
      case _ =>
    }
  }

  // ---------------------------------------------------------------- runs

  function CountExpiries(calls: seq<Call>): nat {
    if calls == [] then 0 else CountExpiries(calls[..|calls| - 1]) + BoolBit(Expiry(calls[|calls| - 1]))
  }

  function CountDoublings(calls: seq<Call>): nat {
    if calls == [] then 0 else CountDoublings(calls[..|calls| - 1]) + BoolBit(Doubling(calls[|calls| - 1]))
  }

  /** Nothing is acknowledged: the window is never empty and no packet leaves it. */
  ghost predicate Unanswered(k: Sock, calls: seq<Call>)
    decreases |calls|
  {
    calls == [] ||
    var k1 := DoAll(k, calls[..|calls| - 1]);
    && Unanswered(k, calls[..|calls| - 1])
    && NothingAcked(k1, DoAll(k, calls))
  }

  ghost predicate NothingAcked(k: Sock, k': Sock) {
    k.send.count > 0 && k.send.win.Keys <= k'.send.win.Keys
  }

  function DoubledTimes(timeout: nat, n: nat): nat {
    if n == 0 then timeout else 2 * DoubledTimes(timeout, n - 1)
  }

  /** The state of a socket that has tried through so many expiries: if it is still active it
      has counted each of them, four at most, two while connecting, and has doubled its timeout
      so many times. */
  ghost predicate Held(k: Sock, k': Sock, expiries: nat, doublings: nat) {
    TimeoutActive(k'.state) ==>
      && k'.ctl.retransmitCount == k.ctl.retransmitCount + expiries
      && (expiries > 0 ==> k'.ctl.retransmitCount <= Patience(k'))
      && (k'.state == SynSent ==> k.state == SynSent)
      && k'.ctl.retransmitTimeout == DoubledTimes(k.ctl.retransmitTimeout, doublings)
  }

  lemma HeldOn(k: Sock, k1: Sock, k2: Sock, expiries: nat, doublings: nat, expiry: bool, doubling: bool)
    requires Held(k, k1, expiries, doublings) && Tried(k1, k2, expiry, doubling)
    ensures Held(k, k2, expiries + BoolBit(expiry), doublings + BoolBit(doubling))
  {
  }

  lemma TriedInCall(k: Sock, k': Sock, c: Call, expiry: bool, doubling: bool)
    requires k' == Do(k, c) && NothingAcked(k, k') && expiry == Expiry(c) && doubling == Doubling(c)
    ensures Tried(k, k', expiry, doubling)
  {
    DoTried(k, k', c);
  }

  lemma HeldThroughCall(k: Sock, k1: Sock, k2: Sock, expiries: nat, doublings: nat, c: Call)
    requires Held(k, k1, expiries, doublings) && k2 == Do(k1, c)
    requires NothingAcked(k1, k2)
    ensures Held(k, k2, expiries + BoolBit(Expiry(c)), doublings + BoolBit(Doubling(c)))
  {
    var expiry, doubling := Expiry(c), Doubling(c);
    TriedInCall(k1, k2, c, expiry, doubling);
    HeldOn(k, k1, k2, expiries, doublings, expiry, doubling);
  }

  /** In every run in which nothing is acknowledged, a socket that is still active has seen at
      most four expiries of the timer since its counter was last zero, at most two while still
      connecting; and each expiry has doubled the timeout, unless it was put down to a lone
      probe. */
  lemma {:induction false} BoundedGiveUp(k: Sock, k': Sock, calls: seq<Call>, expiries: nat, doublings: nat)
    requires Unanswered(k, calls) && k' == DoAll(k, calls)
    requires expiries == CountExpiries(calls) && doublings == CountDoublings(calls)
    ensures Held(k, k', expiries, doublings)
    decreases |calls|
  {
    if calls != [] {
      var init, last := calls[..|calls| - 1], calls[|calls| - 1];
      var k1 := UnansweredStep(k, k', calls, init, last);
      var expiries1, doublings1 := CountExpiries(init), CountDoublings(init);
      BoundedGiveUp(k, k1, init, expiries1, doublings1);
      HeldThroughCall(k, k1, k', expiries1, doublings1, last);
      assert expiries == expiries1 + BoolBit(Expiry(last)) && doublings == doublings1 + BoolBit(Doubling(last));
    } else {
      HeldAtStart(k);
    }
  }

  lemma HeldAtStart(k: Sock)
    ensures Held(k, k, 0, 0)
  {
  }

  lemma UnansweredStep(k: Sock, k': Sock, calls: seq<Call>, init: seq<Call>, last: Call) returns (k1: Sock)
    requires calls != [] && Unanswered(k, calls) && k' == DoAll(k, calls)
    requires init == calls[..|calls| - 1] && last == calls[|calls| - 1]
    ensures k1 == DoAll(k, init) && Unanswered(k, init) && k' == Do(k1, last) && NothingAcked(k1, k')
  {
    k1 := DoAll(k, init);
  }

  /** What one expiry does to a socket: it goes on exactly when it is active, has been accepted, and
      has patience left. */
  lemma ExpiryExactly(k: Sock, k': Sock, c: Call)
    requires Expiry(c) && k' == Do(k, c)
    ensures TimeoutActive(k'.state)
       <==> TimeoutActive(k.state) && k.state != SynRecv && k.ctl.retransmitCount < Patience(k)
    ensures TimeoutActive(k.state) && !TimeoutActive(k'.state) ==> OnError in k'.events
  {
    FlushScanShape(k, FlushSpan(k.send), true, c.before);
    var k0 := FlushUnlessDestroyed(k, c.before);
    assert k0.ctl.retransmitCount == k.ctl.retransmitCount && k0.state == k.state;
    if TimeoutActive(k.state) {
      RtoExpiredExactly(LiftZeroWindow(k0, c.timers), c.timers.probeTimedOut);
    }
  }

  lemma RtoExpiredExactly(k: Sock, probeTimedOut: bool)
    requires TimeoutActive(k.state)
    ensures var (k', alive) := RtoExpired(k, probeTimedOut);
            && (alive <==> k.state != SynRecv && k.ctl.retransmitCount < Patience(k))
            && (alive ==> k'.state == k.state)
            && (!alive ==> !TimeoutActive(k'.state) && OnError in k'.events)
  {
  }

  /** So when nothing is acknowledged, a connecting socket gives up exactly at its third expiry and
      a connected one exactly at its fifth, counted from when its counter was last zero: at an
      expiry after `calls` it goes on if it is active and has seen fewer before, and stops
      otherwise. */
  lemma FifthExpiryGivesUp(k: Sock, k1: Sock, calls: seq<Call>, last: Call)
    requires Unanswered(k, calls) && k.ctl.retransmitCount == 0 && k1 == DoAll(k, calls) && Expiry(last)
    ensures TimeoutActive(Do(k1, last).state)
       <==> TimeoutActive(k1.state) && k1.state != SynRecv && CountExpiries(calls) < Patience(k1)
  {
    BoundedGiveUp(k, k1, calls, CountExpiries(calls), CountDoublings(calls));
    ExpiryExactly(k1, Do(k1, last), last);
  }

  // ---------------------------------------------------------------- before being accepted

  lemma SynRecvCall(k: Sock, k': Sock, c: Call)
    requires k' == Do(k, c) && k'.state == SynRecv
    ensures k.state == SynRecv && !Expiry(c)
  {
    match c {
      case CallWritev(data, env) => WriteChunksState(k, data, env);
      case CallIncoming(p, env) => IncomingState(k, k', p, env);
      case CallTimeouts(timers, before, after) =>
        FlushScanShape(k, FlushSpan(k.send), true, before);
        RunTimersState(FlushUnlessDestroyed(k, before), timers, after);
      case CallClose(env) =>
        var k1 := MarkReadShutdown(k);
        SendFinState(k1.(send := k1.send.(closeRequested := true)), env);
      case CallShutdown(how, env) => SendFinState(if how != ShutWr then MarkReadShutdown(k) else k, env);
      case _ =>
    }
  }

  lemma RunTimersState(k: Sock, timers: Timers, env: Env)
    ensures RunTimers(k, timers, env).state == SynRecv ==> k.state == SynRecv && !timers.expired
  {
    if TimeoutActive(k.state) {
      RtoExpiredExactly(LiftZeroWindow(k, timers), timers.probeTimedOut);
    }
  }

  lemma SendFinState(k: Sock, env: Env)
    ensures SendFin(k, env).state == k.state
  {
    var k1 := k.(send := k.send.(finSent := true));
    WriteOutgoingPacketState(k1, StFin, [], env);
  }

  lemma WriteOutgoingPacketState(k: Sock, typ: PacketType, data: Bytes, env: Env)
    ensures WriteOutgoingPacket(k, typ, data, env).state == k.state
  {
    var k0 := if k.send.count == 0 then k.(ctl := k.ctl.(retransmitTimeout := env.rto)) else k;
    WriteRoundsTried(k0, typ, data, env);
    var k1 := WriteRounds(k0, typ, data, env);
    FlushScanShape(k1, FlushSpan(k1.send), true, env);
  }

  lemma {:induction false} WriteChunksState(k: Sock, data: Bytes, env: Env)
    ensures var k' := WriteChunks(k, data, env).0; k'.state == k.state || k'.state == ConnectedFull
    decreases |data|
  {
    var num := Min(|data|, env.packetSize);
    if !IsFull(k, num, env) {
      WriteOutgoingPacketState(k, StData, data[..num], env);
      if Min(|data| - num, env.packetSize) != 0 {
        WriteChunksState(WriteOutgoingPacket(k, StData, data[..num], env), data[num..], env);
      }
    }
  }

  lemma IncomingState(k: Sock, k': Sock, p: Packet, env: Env)
    requires k' == ProcessIncoming(k, p, env).0
    ensures k'.state == SynRecv ==> k.state == SynRecv
  {
    var k0 := LearnPeerNumber(k, p);
    ProcessAcksResent(k0, p, env);
    var k2 := ReopenWindow(ProcessAcks(k0, p, env), env);
    DeliverDataKeepsSender(k2, p, IncomingOffset(k0, p), env);
  }

  /** A socket that has not been accepted yet has seen no expiry: the first ends the attempt,
      whatever else happens and whatever arrives. */
  lemma {:induction false} SynRecvSawNoExpiry(k: Sock, calls: seq<Call>)
    requires DoAll(k, calls).state == SynRecv
    ensures k.state == SynRecv && CountExpiries(calls) == 0
    ensures forall last :: Expiry(last) ==> !TimeoutActive(Do(DoAll(k, calls), last).state)
    decreases |calls|
  {
    if calls != [] {
      SynRecvCall(DoAll(k, calls[..|calls| - 1]), DoAll(k, calls), calls[|calls| - 1]);
      SynRecvSawNoExpiry(k, calls[..|calls| - 1]);
    }
    forall last | Expiry(last)
      ensures !TimeoutActive(Do(DoAll(k, calls), last).state)
    {
      ExpiryExactly(DoAll(k, calls), Do(DoAll(k, calls), last), last);
    }
  }

  // ---------------------------------------------------------------- when something is acknowledged

  /** If any packet has left the window the count starts again and the timeout is the estimate's;
      otherwise both are as they were. */
  ghost predicate Restarted(k: Sock, k': Sock, env: Env) {
    && k'.send.win.Keys <= k.send.win.Keys
    && k'.ctl.retransmitCount == (if k'.send.win.Keys == k.send.win.Keys then k.ctl.retransmitCount else 0)
    && k'.ctl.retransmitTimeout == if k'.send.win.Keys == k.send.win.Keys then k.ctl.retransmitTimeout else env.rto
  }

  lemma RestartedThen(k: Sock, k1: Sock, k2: Sock, env: Env)
    requires Restarted(k, k1, env) && Restarted(k1, k2, env)
    ensures Restarted(k, k2, env)
  {
  }

  lemma AckPacketRestarts(k: Sock, n: int, env: Env)
    ensures Restarted(k, AckPacket(k, n, env).0, env)
  {
    var k' := AckPacket(k, n, env).0;
    if k' != k {
      assert n in k.send.win.Keys && n !in k'.send.win.Keys;
    }
  }

  lemma {:induction false} AckCumulativeRestarts(k: Sock, acks: nat, env: Env)
    ensures Restarted(k, AckCumulative(k, acks, env), env)
    decreases acks
  {
    if acks != 0 && k.send.count != 0 {
      AckPacketRestarts(k, Head(k.send), env);
      var (k1, status) := AckPacket(k, Head(k.send), env);
      if status != NeverSent {
        var k2 := k1.(send := k1.send.(count := k1.send.count - 1));
        AckCumulativeRestarts(k2, acks - 1, env);
        RestartedThen(k, k2, AckCumulative(k2, acks - 1, env), env);
      }
    }
  }

  lemma {:induction false} SackScanRestarts(c: Scan, base: int, mask: Mask, bits: int, env: Env)
    requires -2 <= bits < 8 * |mask|
    ensures Restarted(c.sock, SackScan(c, base, mask, bits, env).sock, env)
    decreases bits + 2
  {
    if bits != -2 {
      var c1 := SackVisit(c, base, mask, bits, env);
      match SackNumber(c.sock.send, base, bits) {
        case None =>
        case Some(n) => AckPacketRestarts(c.sock, n, env);
      }
      SackScanRestarts(c1, base, mask, bits - 1, env);
      RestartedThen(c.sock, c1.sock, SackScan(c1, base, mask, bits - 1, env).sock, env);
    }
  }

  /** Sending takes no packet off. */
  lemma SkipAckedRestarts(k: Sock, env: Env)
    ensures Restarted(k, SkipAcked(k), env)
    decreases k.send.count
  {
  }

  lemma {:induction false} ResendLastRestarts(k: Sock, resends: seq<U16>, budget: nat, env: Env)
    ensures Restarted(k, ResendLast(k, resends, budget), env)
    decreases |resends|
  {
    if resends != [] && budget != 0 {
      var v := resends[|resends| - 1];
      var rest := resends[..|resends| - 1];
      var n := if k.send.ringSize == 0 then v else Ring.Alias(v, Head(k.send), k.send.ringSize);
      if n in k.send.win {
        ResendLastRestarts(ResendOne(k, v, n), rest, budget - 1, env);
        RestartedThen(k, ResendOne(k, v, n), ResendLast(ResendOne(k, v, n), rest, budget - 1), env);
      } else {
        ResendLastRestarts(k, rest, budget, env);
      }
    }
  }

  lemma SelectiveAckRestarts(k: Sock, base: int, mask: Mask, env: Env)
    ensures Restarted(k, SelectiveAck(k, base, mask, env), env)
  {
    if k.send.count != 0 {
      SackScanRestarts(Scan(k, 0, []), base, mask, 8 * |mask| - 1, env);
      var c := SackScan(Scan(k, 0, []), base, mask, 8 * |mask| - 1, env);
      ResendLastRestarts(c.sock, SackCandidates(c, base), MAX_RESENDS, env);
      RestartedThen(k, c.sock, ResendLast(c.sock, SackCandidates(c, base), MAX_RESENDS), env);
    }
  }

  lemma TailRestarts(k: Sock, env: Env)
    ensures Restarted(k, FastTimeout(SendLoneUnsent(k)), env)
  {
  }

  lemma AdvanceRestarts(k: Sock, p: Packet, acks: nat, env: Env)
    ensures Restarted(k, AdvanceSendWindow(k, p, acks, env), env)
  {
    var k1 := RaiseFastResend(AdvanceState(k, p, acks), p.ackNr);
    assert Restarted(k, k1, env);
    var k2 := AckCumulative(k1, acks, env);
    AckCumulativeRestarts(k1, acks, env);
    SkipAckedRestarts(k2, env);
    TailRestarts(SkipAcked(k2), env);
    RestartedThen(k, k1, k2, env);
    RestartedThen(k, k2, SkipAcked(k2), env);
    RestartedThen(k, SkipAcked(k2), FastTimeout(SendLoneUnsent(SkipAcked(k2))), env);
  }

  lemma ProcessAcksRestarts(k: Sock, p: Packet, env: Env)
    ensures Restarted(k, ProcessAcks(k, p, env), env)
  {
    var acks := AckCount(W(k.send.next), k.send.count, p.ackNr);
    var k1 := AdvanceSendWindow(k, p, acks, env);
    AdvanceRestarts(k, p, acks, env);
    if p.sack.Some? {
      SelectiveAckRestarts(k1, p.ackNr + 2, p.sack.value, env);
      RestartedThen(k, k1, ProcessAcks(k, p, env), env);
    }
  }

  /** Progress ends the back-off: a packet that arrives and takes anything off the window sets the
      count of retransmissions to zero and the timeout to the estimate; one that takes nothing off
      leaves both alone. */
  lemma ProgressRestartsCount(k: Sock, k': Sock, p: Packet, env: Env)
    requires k' == ProcessIncoming(k, p, env).0
    ensures Restarted(k, k', env)
  {
    var k0 := LearnPeerNumber(k, p);
    ProcessAcksRestarts(k0, p, env);
    DeliverDataKeepsSender(ReopenWindow(ProcessAcks(k0, p, env), env), p, IncomingOffset(k0, p), env);
  }

  /** The first packet written into an empty window starts from the estimate; later ones leave the
      timeout alone. */
  lemma WritingRestartsTimeout(k: Sock, typ: PacketType, data: Bytes, env: Env)
    ensures WriteOutgoingPacket(k, typ, data, env).ctl.retransmitTimeout
         == if k.send.count == 0 then env.rto else k.ctl.retransmitTimeout
  {
    var k0 := if k.send.count == 0 then k.(ctl := k.ctl.(retransmitTimeout := env.rto)) else k;
    WriteRoundsTried(k0, typ, data, env);
    var k1 := WriteRounds(k0, typ, data, env);
    FlushScanShape(k1, FlushSpan(k1.send), true, env);
  }
}
