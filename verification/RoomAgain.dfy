/** An application whose `writev` was cut short is told once when there is room again. */
module RoomAgain {
  import opened Serial
  import opened Protocol
  import opened Conservation
  import opened FastResending
  import opened GiveUp
  import opened Endings
  import opened SendWindow
  import Ring

  /** How often the application has been told that it can write again. */
  function Notices(events: seq<Event>): nat {
    if events == [] then 0
    else Notices(events[..|events| - 1]) + if events[|events| - 1].OnWritable? then 1 else 0
  }

  /** Neither told nor left waiting. */
  ghost predicate Silent(k: Sock, k': Sock) {
    Notices(k'.events) == Notices(k.events)
  }

  lemma NoticeOne(k: Sock, e: Event)
    ensures Notices(Report(k, e).events) == Notices(k.events) + if e.OnWritable? then 1 else 0
  {
    assert (k.events + [e])[..|k.events|] == k.events;
  }

  lemma WriteRoundsEvents(k: Sock, typ: PacketType, data: Bytes, env: Env)
    ensures WriteRounds(k, typ, data, env).events == k.events
    decreases |data|
  {
  }

  lemma WriteOutgoingPacketEvents(k: Sock, typ: PacketType, data: Bytes, env: Env)
    ensures WriteOutgoingPacket(k, typ, data, env).events == k.events
  {
    var k0 := if k.send.count == 0 then k.(ctl := k.ctl.(retransmitTimeout := env.rto)) else k;
    WriteRoundsEvents(k0, typ, data, env);
    var k1 := WriteRounds(k0, typ, data, env);
    FlushScanShape(k1, FlushSpan(k1.send), true, env);
  }

  lemma {:induction false} WriteChunksEvents(k: Sock, data: Bytes, env: Env)
    ensures WriteChunks(k, data, env).0.events == k.events
    decreases |data|
  {
    var num := Min(|data|, env.packetSize);
    if !IsFull(k, num, env) {
      WriteOutgoingPacketEvents(k, StData, data[..num], env);
      if Min(|data| - num, env.packetSize) != 0 {
        WriteChunksEvents(WriteOutgoingPacket(k, StData, data[..num], env), data[num..], env);
      }
    }
  }

  lemma AckCumulativeEvents(k: Sock, acks: nat, env: Env)
    ensures AckCumulative(k, acks, env).events == k.events
    decreases acks
  {
  }

  lemma SkipAckedEvents(k: Sock)
    ensures SkipAcked(k).events == k.events
    decreases k.send.count
  {
  }

  lemma SackScanEvents(c: Scan, base: int, mask: Mask, bits: int, env: Env)
    requires -2 <= bits < 8 * |mask|
    ensures SackScan(c, base, mask, bits, env).sock.events == c.sock.events
    decreases bits + 2
  {
  }

  lemma {:induction false} ResendLastSilent(k: Sock, resends: seq<U16>, budget: nat)
    ensures Silent(k, ResendLast(k, resends, budget))
    decreases |resends|
  {
    if resends != [] && budget != 0 {
      var v := resends[|resends| - 1];
      var rest := resends[..|resends| - 1];
      var n := if k.send.ringSize == 0 then v else Ring.Alias(v, Head(k.send), k.send.ringSize);
      if n in k.send.win {
        NoticeOne(k, FastResend(v, |k.out|));
        ResendLastSilent(ResendOne(k, v, n), rest, budget - 1);
      } else {
        ResendLastSilent(k, rest, budget);
      }
    }
  }

  lemma SelectiveAckSilent(k: Sock, base: int, mask: Mask, env: Env)
    ensures Silent(k, SelectiveAck(k, base, mask, env))
  {
    if k.send.count != 0 {
      var c := SackScan(Scan(k, 0, []), base, mask, 8 * |mask| - 1, env);
      SackScanEvents(Scan(k, 0, []), base, mask, 8 * |mask| - 1, env);
      ResendLastSilent(c.sock, SackCandidates(c, base), MAX_RESENDS);
    }
  }

  lemma TailSilent(k: Sock)
    ensures Silent(k, FastTimeout(SendLoneUnsent(k)))
  {
    var k1 := SendLoneUnsent(k);
    NoticeOne(k1.(ctl := k1.ctl.(fastResend := W(k1.ctl.fastResend + 1))), FastResend(W(Head(k1.send)), |k1.out|));
  }

  lemma AdvanceStateSilent(k: Sock, p: Packet, acks: nat)
    ensures Silent(k, RaiseFastResend(AdvanceState(k, p, acks), p.ackNr))
  {
    NoticeOne(k, OnConnect);
  }

  lemma AdvanceSilent(k: Sock, p: Packet, acks: nat, env: Env)
    ensures Silent(k, AdvanceSendWindow(k, p, acks, env))
  {
    var k1 := RaiseFastResend(AdvanceState(k, p, acks), p.ackNr);
    AdvanceStateSilent(k, p, acks);
    AckCumulativeEvents(k1, acks, env);
    SkipAckedEvents(AckCumulative(k1, acks, env));
    TailSilent(SkipAcked(AckCumulative(k1, acks, env)));
  }

  lemma ProcessAcksSilent(k: Sock, p: Packet, env: Env)
    ensures Silent(k, ProcessAcks(k, p, env))
  {
    var acks := AckCount(W(k.send.next), k.send.count, p.ackNr);
    AdvanceSilent(k, p, acks, env);
    if p.sack.Some? {
      SelectiveAckSilent(AdvanceSendWindow(k, p, acks, env), p.ackNr + 2, p.sack.value, env);
    }
  }

  lemma {:induction false} DrainSilent(k: Sock, env: Env)
    ensures Silent(k, Drain(k, env))
    decreases k.recv.reorderCount
  {
    var k1 := PostEof(k, env);
    NoticeOne(k, OnEof);
    if k1.recv.reorderCount != 0 && Ring.Get(k1.recv.inbuf, k1.recv.ack + 1).Some? {
      var data := Ring.Get(k1.recv.inbuf, k1.recv.ack + 1).value;
      ReadSilent(k1, data);
      DrainSilent(Drained(k1, data), env);
    }
  }

  lemma DeliverDataSilent(k: Sock, p: Packet, seqnr: nat, env: Env)
    ensures Silent(k, DeliverData(k, p, seqnr, env).0)
  {
    if seqnr == 0 {
      InOrderSilent(NoteFin(k, p), p.payload, env);
    }
  }

  lemma InOrderSilent(k: Sock, payload: Bytes, env: Env)
    ensures Silent(k, DeliverInOrder(k, payload, env))
  {
    var k1 := Read(k, payload);
    ReadSilent(k, payload);
    DrainSilent(k1.(recv := k1.recv.(ack := k1.recv.ack + 1)), env);
  }

  lemma ReadSilent(k: Sock, data: Bytes)
    ensures Silent(k, Read(k, data))
  {
    NoticeOne(k, OnRead(data));
  }

  // ---------------------------------------------------------------- each call

  /** The application is told exactly if it was waiting for room and no longer is. */
  ghost predicate ToldExactly(k: Sock, k': Sock) {
    Notices(k'.events) == Notices(k.events) + BoolBit(k.state == ConnectedFull && k'.state == Connected)
  }

  lemma ReopenTells(k: Sock, env: Env)
    ensures ToldExactly(k, ReopenWindow(k, env))
    ensures ReopenWindow(k, env).state == ConnectedFull ==> NoRoom(ReopenWindow(k, env), env.packetSize, env)
    ensures k.state == ConnectedFull ==> Established(ReopenWindow(k, env).state)
    ensures k.state != ConnectedFull ==> ReopenWindow(k, env) == k
    ensures ReopenWindow(k, env).send == k.send && ReopenWindow(k, env).ctl == k.ctl
  {
    NoticeOne(k.(state := Connected), OnWritable);
  }

  lemma AcksTell(k: Sock, k2: Sock, p: Packet, env: Env)
    requires k2 == ReopenWindow(ProcessAcks(k, p, env), env)
    ensures ToldExactly(k, k2)
    ensures k2.state == ConnectedFull ==> k.state == ConnectedFull && NoRoom(k2, env.packetSize, env)
  {
    var k1 := ProcessAcks(k, p, env);
    ProcessAcksResent(k, p, env);
    ProcessAcksSilent(k, p, env);
    ReopenTells(k1, env);
  }

  lemma IncomingTells(k: Sock, k': Sock, p: Packet, env: Env)
    requires k' == ProcessIncoming(k, p, env).0
    ensures ToldExactly(k, k')
    ensures k'.state == ConnectedFull ==> k.state == ConnectedFull
    ensures k'.state == ConnectedFull && Examined(k, p) ==> NoRoom(k', env.packetSize, env)
  {
    if Examined(k, p) {
      var k0 := LearnPeerNumber(k, p);
      var k2 := ReopenWindow(ProcessAcks(k0, p, env), env);
      AcksTell(k0, k2, p, env);
      DeliverDataKeepsSender(k2, p, IncomingOffset(k0, p), env);
      DeliverDataSilent(k2, p, IncomingOffset(k0, p), env);
      assert SameSender(k2, k') && Silent(k2, k');
    }
  }

  lemma ExpiryTells(k: Sock, k1: Sock, alive: bool, timers: Timers)
    requires (k1, alive) == MaybeExpire(k, timers)
    ensures Silent(k, k1) && (alive ==> k1.state == k.state) && (!alive ==> !Established(k1.state))
  {
    NoticeOne(k, OnError);
    ExpiryEvents(k, timers);
  }

  lemma ExpiryEvents(k: Sock, timers: Timers)
    ensures var (k1, alive) := MaybeExpire(k, timers);
            && k1.events == (if alive then k.events else k.events + [OnError])
            && (if alive then k1.state == k.state else !Established(k1.state))
  {
  }

  lemma TimersTell(k: Sock, k': Sock, timers: Timers, env: Env)
    requires k' == RunTimers(k, timers, env)
    ensures ToldExactly(k, k')
    ensures k'.state == ConnectedFull ==> k.state == ConnectedFull && NoRoom(k', env.packetSize, env)
  {
    if TimeoutActive(k.state) {
      var k0 := LiftZeroWindow(k, timers);
      var (k1, alive) := MaybeExpire(k0, timers);
      ExpiryTells(k0, k1, alive, timers);
      ReopenTells(k1, env);
    }
  }

  lemma TimeoutsTell(k: Sock, k': Sock, c: Call)
    requires c.CallTimeouts? && k' == Do(k, c)
    ensures ToldExactly(k, k')
    ensures k'.state == ConnectedFull ==> k.state == ConnectedFull && NoRoom(k', c.after.packetSize, c.after)
  {
    FlushScanShape(k, FlushSpan(k.send), true, c.before);
    TimersTell(FlushUnlessDestroyed(k, c.before), k', c.timers, c.after);
  }

  lemma FinTells(k: Sock, env: Env)
    ensures SendFin(k, env).events == k.events && SendFin(k, env).state == k.state
  {
    WriteOutgoingPacketEvents(k.(send := k.send.(finSent := true)), StFin, [], env);
    SendFinState(k, env);
  }

  lemma AbortTells(k: Sock)
    ensures Notices(Abort(k).events) == Notices(k.events)
  {
    NoticeOne(k.(state := if k.send.closeRequested then Destroy else Reset), OnError);
  }

  /** The environment in which a call last asks whether the window is full. */
  function Asked(c: Call): Env
    requires c.CallIncoming? || c.CallTimeouts?
  {
    if c.CallIncoming? then c.env else c.after
  }

  /** Only a `writev` that was cut short leaves the application waiting for room. A packet that is
      examined, and every run of the timer, ends that as soon as there is room for a whole packet;
      and each time it ends the application is told, exactly once, and never otherwise. */
  lemma WaitingIsTold(k: Sock, k': Sock, c: Call)
    requires k' == Do(k, c)
    ensures Notices(k'.events) == Notices(k.events) + BoolBit(k.state == ConnectedFull && k'.state == Connected)
    ensures k'.state == ConnectedFull ==> k.state == ConnectedFull || c.CallWritev?
    ensures k'.state == ConnectedFull && (c.CallTimeouts? || (c.CallIncoming? && Examined(k, c.p))) ==>
              NoRoom(k', Asked(c).packetSize, Asked(c))
  {
    match c {
      case CallWritev(data, env) =>
        WriteChunksEvents(k, data, env);
        WriteChunksState(k, data, env);
      case CallIncoming(p, env) => IncomingTells(k, k', p, env);
      case CallTimeouts(timers, before, after) => TimeoutsTell(k, k', c);
      case CallClose(env) =>
        var k1 := MarkReadShutdown(k);
        FinTells(k1.(send := k1.send.(closeRequested := true)), env);
      case CallShutdown(how, env) => FinTells(if how != ShutWr then MarkReadShutdown(k) else k, env);
      case CallReset => AbortTells(k);
      case CallIcmpError => AbortTells(k);
      case _ =>
    }
  }
}
