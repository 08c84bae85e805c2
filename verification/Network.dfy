/** Runs of a client and a server over the network, and what holds at the end of each. */
module Network {
  import opened Serial
  import opened Protocol
  import opened Conservation
  import opened Channel
  import opened ChannelReceiver
  import opened EndToEnd
  import opened GiveUp
  import opened FastResending
  import Reorder
  import Ring

  /** The two sockets, and what `writev` has accepted at each of them. */
  datatype System = System(a: Sock, b: Sock, writtenA: Bytes, writtenB: Bytes)

  datatype Step =
    | AtA(call: Call)          // the application or the timer calls socket `a`
    | AtB(call: Call)
    | ToB(i: nat, env: Env)    // the `i`th packet ever sent by `a` arrives at `b`
    | ToA(i: nat, env: Env)

  /** A call other than the arrival of a packet, and the bytes it accepted. */
  function Local(k: Sock, call: Call): (Sock, Bytes) {
    match call
    case CallWritev(data, env) =>
      var (k', sent) := Writev(k, data, env);
      (k', if sent <= |data| then data[..sent] else [])
    case CallIncoming(_, _) => (k, [])
    case _ => (Do(k, call), [])
  }

  /** A SYN goes to the listening side, which drops it when the connection exists. */
  function Arrive(k: Sock, p: Packet, env: Env): Sock {
    if p.typ == StSyn then k else ProcessIncoming(k, p, env).0
  }

  function Next(s: System, step: Step): System {
    match step
    case AtA(call) =>
      var (a', accepted) := Local(s.a, call);
      s.(a := a', writtenA := s.writtenA + accepted)
    case AtB(call) =>
      var (b', accepted) := Local(s.b, call);
      s.(b := b', writtenB := s.writtenB + accepted)
    case ToB(i, env) => if i < |s.a.out| then s.(b := Arrive(s.b, s.a.out[i], env)) else s
    case ToA(i, env) => if i < |s.b.out| then s.(a := Arrive(s.a, s.b.out[i], env)) else s
  }

  /** What the client sends of its stream, and what the server acknowledges of it, arrives less than
      64,512 numbers late. A SYN may arrive at any time. */
  predicate Timely(s: System, step: Step) {
    match step
    case ToB(i, _) => i < |s.a.out| && i < |s.a.tags| ==> FrameRecent(s.b, s.a.out[i], s.a.tags[i])
    case ToA(i, _) => i < |s.b.out| && i < |s.b.tags| ==> AckRecent(s.a, s.b.out[i], s.b.tags[i])
    case _ => true
  }

  function Run(s: System, steps: seq<Step>): System
    decreases |steps|
  {
    if steps == [] then s else Next(Run(s, steps[..|steps| - 1]), steps[|steps| - 1])
  }

  predicate TimelyRun(s: System, steps: seq<Step>)
    decreases |steps|
  {
    steps == [] ||
    (TimelyRun(s, steps[..|steps| - 1]) && Timely(Run(s, steps[..|steps| - 1]), steps[|steps| - 1]))
  }

  // ---------------------------------------------------------------- one step, one channel

  /** Any call at the sender keeps the channel and adds to the record what it accepted. */
  lemma LocalAtSender(x: Sock, y: Sock, c: Record, call: Call) returns (c': Record)
    requires ChannelInv(x, y, c)
    ensures ChannelInv(Local(x, call).0, y, c') && c'.first == c.first
    ensures c'.written == c.written + Local(x, call).1
  {
    if call.CallWritev? {
      c' := WritevKeeps(x, y, c, call.data, call.env);
    } else {
      c' := DoAtSender(x, y, c, call);
      assert c.written + [] == c.written;
    }
  }

  lemma DoAtSender(x: Sock, y: Sock, c: Record, call: Call) returns (c': Record)
    requires ChannelInv(x, y, c) && !call.CallWritev?
    ensures ChannelInv(Local(x, call).0, y, c') && c'.first == c.first && c'.written == c.written
  {
    c' := c;
    if call.CallClose? {
      c' := CloseStep(x, y, c, call.env);
    } else if call.CallShutdown? {
      c' := ShutdownStep(x, y, c, call.how, call.env);
    } else if !call.CallIncoming? {
      OtherAtSender(x, Local(x, call).0, y, c, call);
    }
  }

  lemma OtherAtSender(x: Sock, x': Sock, y: Sock, c: Record, call: Call)
    requires ChannelInv(x, y, c) && x' == Do(x, call)
    requires !call.CallWritev? && !call.CallIncoming? && !call.CallClose? && !call.CallShutdown?
    ensures ChannelInv(x', y, c)
  {
    match call {
      case CallTimeouts(timers, before, after) => TimeoutsStep(x, y, c, timers, before, after);
      case CallReadDrained(env) => ReadDrainedAtSender(x, y, c, env);
      case CallDeferredAck(env) => SendAckStep(x, y, c, env);
      case CallReset => SameForChannel(x, Abort(x), y, c);
      case CallIcmpError => SameForChannel(x, IcmpError(x), y, c);
    }
  }

  lemma ReadDrainedAtSender(x: Sock, y: Sock, c: Record, env: Env)
    requires ChannelInv(x, y, c)
    ensures ChannelInv(ReadDrained(x, env), y, c)
  {
    SendAckStep(x, y, c, env);
    SameForChannel(x, x.(ackPending := true), y, c);
  }

  /** So does any call at the receiver, without changing the record. */
  lemma LocalAtReceiver(x: Sock, y: Sock, c: Record, call: Call)
    requires ChannelInv(x, y, c)
    ensures ChannelInv(x, Local(y, call).0, c)
  {
    if call.CallWritev? {
      WritevAtReceiver(x, y, c, call.data, call.env);
    } else if !call.CallIncoming? {
      DoAtReceiver(x, y, Do(y, call), c, call);
    }
  }

  lemma DoAtReceiver(x: Sock, y: Sock, y': Sock, c: Record, call: Call)
    requires ChannelInv(x, y, c) && !call.CallWritev? && !call.CallIncoming? && y' == Do(y, call)
    ensures ChannelInv(x, y', c)
  {
    if call.CallTimeouts? {
      TimeoutsAtReceiver(x, y, c, call.timers, call.before, call.after);
    } else if call.CallClose? {
      CloseAtReceiver(x, y, c, call.env);
    } else if call.CallShutdown? {
      ShutdownAtReceiver(x, y, c, call.how, call.env);
    } else {
      OtherAtReceiver(x, y, y', c, call);
    }
  }

  lemma OtherAtReceiver(x: Sock, y: Sock, y': Sock, c: Record, call: Call)
    requires ChannelInv(x, y, c) && y' == Do(y, call)
    requires call.CallReadDrained? || call.CallDeferredAck? || call.CallReset? || call.CallIcmpError?
    ensures ChannelInv(x, y', c)
  {
    match call {
      case CallReadDrained(env) => ReadDrainedAtReceiver(x, y, c, env);
      case CallDeferredAck(env) => ReceiverAcks(x, y, SendAck(y, env), c, 0, env);
      case CallReset => AbortAtReceiver(x, y, c);
      case CallIcmpError => AbortAtReceiver(x, y, c);
    }
  }

  lemma WritevAtReceiver(x: Sock, y: Sock, c: Record, data: Bytes, env: Env)
    requires ChannelInv(x, y, c)
    ensures ChannelInv(x, Writev(y, data, env).0, c)
  {
    WriteChunksSpoke(y, data, env);
    ReceiverSpeaks(x, y, Writev(y, data, env).0, c);
  }

  lemma CloseAtReceiver(x: Sock, y: Sock, c: Record, env: Env)
    requires ChannelInv(x, y, c)
    ensures ChannelInv(x, Close(y, env), c)
  {
    CloseSpoke(y, env);
    ReceiverSpeaks(x, y, Close(y, env), c);
  }

  lemma ShutdownAtReceiver(x: Sock, y: Sock, c: Record, how: How, env: Env)
    requires ChannelInv(x, y, c)
    ensures ChannelInv(x, Shutdown(y, how, env), c)
  {
    ShutdownSpoke(y, how, env);
    ReceiverSpeaks(x, y, Shutdown(y, how, env), c);
  }

  lemma ReadDrainedAtReceiver(x: Sock, y: Sock, c: Record, env: Env)
    requires ChannelInv(x, y, c)
    ensures ChannelInv(x, ReadDrained(y, env), c)
  {
    ReceiverAcks(x, y, SendAck(y, env), c, 0, env);
    ReceiverSpeaks(x, y, y.(ackPending := true), c);
  }

  lemma AbortAtReceiver(x: Sock, y: Sock, c: Record)
    requires ChannelInv(x, y, c)
    ensures ChannelInv(x, Abort(y), c)
  {
    ReportSpoke(y.(state := if y.send.closeRequested then Destroy else Reset), OnError);
    ReceiverSpeaks(x, y, Abort(y), c);
  }

  lemma ArriveAtSender(x: Sock, y: Sock, c: Record, i: nat, env: Env)
    requires ChannelInv(x, y, c) && i < |y.out| && (i < |y.tags| ==> AckRecent(x, y.out[i], y.tags[i]))
    ensures ChannelInv(Arrive(x, y.out[i], env), y, c)
  {
    assert AckTruthful(y.out[i], y.tags[i], y.recv.ack, G(y, c));
    if y.out[i].typ != StSyn {
      ArrivesAtSender(x, y, c, y.out[i], y.tags[i], env);
    }
  }

  lemma ArriveAtReceiver(x: Sock, y: Sock, c: Record, i: nat, env: Env) returns (c': Record)
    requires ChannelInv(x, y, c) && i < |x.out| && (i < |x.tags| ==> FrameRecent(y, x.out[i], x.tags[i]))
    ensures ChannelInv(x, Arrive(y, x.out[i], env), c') && c'.written == c.written && c'.first == c.first
  {
    c' := c;
    assert FrameOk(x.out[i], x.tags[i], x.send.win, c.h);
    if x.out[i].typ != StSyn {
      c' := ArrivesAtReceiver(x, y, Arrive(y, x.out[i], env), c, x.out[i], x.tags[i], env);
    }
  }

  // ---------------------------------------------------------------- runs

  ghost predicate AToB(s: System, c: Record) {
    ChannelInv(s.a, s.b, c) && c.written == s.writtenA
  }

  lemma StepAToB(s: System, step: Step, c: Record) returns (c': Record)
    requires AToB(s, c) && Timely(s, step)
    ensures AToB(Next(s, step), c') && c'.first == c.first
  {
    c' := c;
    match step {
      case AtA(call) => c' := LocalAtSender(s.a, s.b, c, call);
      case AtB(call) => LocalAtReceiver(s.a, s.b, c, call);
      case ToB(i, env) => if i < |s.a.out| { c' := ArriveAtReceiver(s.a, s.b, c, i, env); }
      case ToA(i, env) => if i < |s.b.out| { ArriveAtSender(s.a, s.b, c, i, env); }
    }
  }

  lemma {:induction false} RunAToB(s: System, steps: seq<Step>, c: Record) returns (c': Record)
    requires AToB(s, c) && TimelyRun(s, steps)
    ensures AToB(Run(s, steps), c')
    decreases |steps|
  {
    if steps == [] {
      c' := c;
    } else {
      var c1 := RunAToB(s, steps[..|steps| - 1], c);
      c' := StepAToB(Run(s, steps[..|steps| - 1]), steps[|steps| - 1], c1);
    }
  }

  // ---------------------------------------------------------------- the starts

  /** The client has sent its SYN with number `clientSeq`; the server has accepted it, chosen
      `serverSeq` and answered. */
  function Accepted(clientSeq: U16, serverSeq: U16, env: Env): System {
    System(Connect(Fresh(), clientSeq, env),
           SendAck(AcceptSyn(Fresh(), clientSeq, serverSeq), env),
           [], [])
  }

  function StartRecord(first: int): Record {
    Record(map[first := Seg(StSyn, [])], first, map[], first, [])
  }

  lemma FreshRing(env: Env, r: RecvState)
    requires r == Fresh().recv.(ack := r.ack, lastRcvWin := r.lastRcvWin)
    ensures Reorder.Stores(r, map[])
  {
    assert Ring.RingSize(16) by { assert Ring.Pow2(4) == 16; }
    forall n | r.ack <= n < r.ack + 16
      ensures Ring.Get(r.inbuf, n) == None
    {
    }
    Ring.AgreesIsMatches<Bytes>(r.inbuf, r.ack, map[]);
  }

  lemma AcceptedSender(clientSeq: U16, serverSeq: U16, env: Env)
    ensures var a := Accepted(clientSeq, serverSeq, env).a;
            SenderInv(a) && SenderSide(a, map[clientSeq as int := Seg(StSyn, [])], clientSeq, {clientSeq as int})
  {
    ConservationOverRuns(env, clientSeq, clientSeq, []);
  }

  lemma AcceptedReceiver(clientSeq: U16, serverSeq: U16, env: Env)
    ensures var b := Accepted(clientSeq, serverSeq, env).b;
            ReceiverSide(b, map[clientSeq as int := Seg(StSyn, [])], clientSeq, clientSeq + 1, map[], clientSeq)
  {
    var b := Accepted(clientSeq, serverSeq, env).b;
    var h: History := map[clientSeq as int := Seg(StSyn, [])];
    FreshRing(env, b.recv);
    assert Stream(h, clientSeq + 1, clientSeq + 1) == [];
    assert AckTruthful(b.out[0], b.tags[0], b.recv.ack, Received(h, b.recv.ack, map[]));
  }

  lemma AcceptedStarts(clientSeq: U16, serverSeq: U16, env: Env)
    ensures AToB(Accepted(clientSeq, serverSeq, env), StartRecord(clientSeq))
  {
    AcceptedSender(clientSeq, serverSeq, env);
    AcceptedReceiver(clientSeq, serverSeq, env);
    var s := Accepted(clientSeq, serverSeq, env);
    var c := StartRecord(clientSeq);
    assert G(s.b, c) == {clientSeq as int};
    assert Stream(c.h, clientSeq + 1, clientSeq + 1) == [];
  }

  // ---------------------------------------------------------------- the theorems

  /** End-to-end safety. Whatever the network loses, repeats and reorders, and whatever either
      application does, the bytes the server's application has read are a prefix of the bytes
      the client's `writev` has accepted, as long as no packet arrives 64,512 or more numbers
      late. */
  lemma EndToEndSafety(clientSeq: U16, serverSeq: U16, env: Env, steps: seq<Step>)
    requires TimelyRun(Accepted(clientSeq, serverSeq, env), steps)
    ensures var s := Run(Accepted(clientSeq, serverSeq, env), steps);
            Delivered(s.b.events) <= s.writtenA
  {
    AcceptedStarts(clientSeq, serverSeq, env);
    var c := RunAToB(Accepted(clientSeq, serverSeq, env), steps, StartRecord(clientSeq));
    var s := Run(Accepted(clientSeq, serverSeq, env), steps);
    DeliveredIsPrefix(s.a, s.b, c);
  }

  /** When the client's end of stream has been acknowledged, the server has reported the end of
      the stream, and if it still reads it has delivered every byte that was accepted. */
  lemma FinAckedIsDelivered(clientSeq: U16, serverSeq: U16, env: Env, steps: seq<Step>)
    requires TimelyRun(Accepted(clientSeq, serverSeq, env), steps)
    ensures var s := Run(Accepted(clientSeq, serverSeq, env), steps);
            s.a.send.finSentAcked ==>
              && s.b.recv.gotFinReached && OnEof in s.b.events
              && (!s.b.recv.readShutdown ==> Delivered(s.b.events) == s.writtenA)
  {
    AcceptedStarts(clientSeq, serverSeq, env);
    var c := RunAToB(Accepted(clientSeq, serverSeq, env), steps, StartRecord(clientSeq));
    var s := Run(Accepted(clientSeq, serverSeq, env), steps);
    if s.a.send.finSentAcked {
      FinAckedIsReached(s.a, s.b, c);
      if !s.b.recv.readShutdown {
        EofIsComplete(s.a, s.b, c);
      }
    }
  }

  /** A packet that destroys a socket has acknowledged its end of stream. */
  lemma DestroyedByFinAck(k: Sock, p: Packet, env: Env)
    requires k.state != Destroy && ProcessIncoming(k, p, env).0.state == Destroy
    ensures ProcessIncoming(k, p, env).0.send.finSentAcked
  {
    var k0 := LearnPeerNumber(k, p);
    var acks := AckCount(W(k0.send.next), k0.send.count, p.ackNr);
    ProcessAcksResent(k0, p, env);
    var k1 := ReopenWindow(ProcessAcks(k0, p, env), env);
    DeliverDataKeepsSender(k1, p, IncomingOffset(k0, p), env);
  }

  /** How a closing client is destroyed once its end of stream has been acknowledged: by the
      packet that acknowledges it, or by `close` after that packet. */
  predicate ClosesGracefully(s: System, step: Step) {
    && s.a.state != Destroy && Next(s, step).a.state == Destroy
    && (step.ToA? || (step.AtA? && step.call.CallClose? && s.a.send.finSentAcked))
  }

  lemma ClosedByFinAck(s: System, step: Step)
    requires ClosesGracefully(s, step)
    ensures Next(s, step).a.send.finSentAcked
  {
    if step.ToA? {
      DestroyedByFinAck(s.a, s.b.out[step.i], step.env);
    } else {
      var env := step.call.env;
      var k1 := MarkReadShutdown(s.a);
      SendFinTail(k1.(send := k1.send.(closeRequested := true)), env);
    }
  }

  lemma SendFinTail(k: Sock, env: Env)
    ensures SendFin(k, env).send.finSentAcked == k.send.finSentAcked
  {
    var k1 := k.(send := k.send.(finSent := true));
    var k2 := if k1.send.count == 0 then k1.(ctl := k1.ctl.(retransmitTimeout := env.rto)) else k1;
    var k3 := WriteRounds(k2, StFin, [], env);
    FlushScanShape(k3, FlushSpan(k3.send), true, env);
  }

  /** Graceful close: when a closing client is destroyed because its end of stream was
      acknowledged, the server has posted the end of the stream, and if its reading side is
      open it has delivered exactly what the client's `writev` accepted. */
  lemma GracefulClose(clientSeq: U16, serverSeq: U16, env: Env, steps: seq<Step>, step: Step)
    requires TimelyRun(Accepted(clientSeq, serverSeq, env), steps + [step])
    requires ClosesGracefully(Run(Accepted(clientSeq, serverSeq, env), steps), step)
    ensures var s := Run(Accepted(clientSeq, serverSeq, env), steps + [step]);
            && OnEof in s.b.events
            && (!s.b.recv.readShutdown ==> Delivered(s.b.events) == s.writtenA)
  {
    assert (steps + [step])[..|steps + [step]| - 1] == steps;
    ClosedByFinAck(Run(Accepted(clientSeq, serverSeq, env), steps), step);
    FinAckedIsDelivered(clientSeq, serverSeq, env, steps + [step]);
  }

  // ---------------------------------------------------------------- the first answer

  /** A socket that has sent its SYN, with number `n`, and nothing else. */
  ghost predicate OnlySynSent(k: Sock, n: int) {
    && k.state == SynSent && k.send.next == n + 1 && k.send.count == 1
    && k.send.win.Keys == {n} && k.send.win[n].transmissions > 0
  }

  lemma SynIsAcked(k: Sock, k': Sock, p: Packet, n: int, env: Env)
    requires OnlySynSent(k, n) && p.typ == StState && k' == AdvanceSendWindow(k, p, 1, env)
    ensures k'.state == Connected && k'.recv == k.recv && k'.out == k.out && k'.tags == k.tags
    ensures k'.events == k.events + [OnConnect]
    ensures k'.send == k.send.(count := 0, win := map[], maxWindowUser := p.windowSize)
    ensures k'.ctl.fastResend == RaiseFastResend(k, p.ackNr).ctl.fastResend
    ensures (k'.ctl.fastTimeout ==> k.ctl.fastTimeout)
  {
    var k1 := RaiseFastResend(AdvanceState(k, p, 1), p.ackNr);
    SynConnects(k, k1, p);
    var k2 := AckPacket(k1, n, env).0;
    var k3 := k2.(send := k2.send.(count := 0));
    assert Head(k1.send) == n;
    assert AckCumulative(k1, 1, env) == AckCumulative(k3, 0, env) == k3;
    assert SkipAcked(k3) == k3;
    assert SendLoneUnsent(k3) == k3;
  }

  lemma SynConnects(k: Sock, k1: Sock, p: Packet)
    requires k.state == SynSent && p.typ == StState && k1 == RaiseFastResend(AdvanceState(k, p, 1), p.ackNr)
    ensures k1.state == Connected && k1.events == k.events + [OnConnect]
    ensures k1.recv == k.recv && k1.out == k.out && k1.tags == k.tags && k1.ctl.fastTimeout == k.ctl.fastTimeout
    ensures k1.send == k.send.(maxWindowUser := p.windowSize)
    ensures k1.ctl.fastResend == RaiseFastResend(k, p.ackNr).ctl.fastResend
  {
  }

  /** The first answer connects the client and tells it where the server's numbers start. */
  lemma FirstAnswer(k: Sock, k': Sock, p: Packet, n: int, env: Env)
    requires OnlySynSent(k, n) && p.typ == StState && p.sack == None && p.ackNr == W(n)
    requires k' == ProcessIncoming(k, p, env).0
    ensures k'.state == Connected && k'.recv == k.recv.(ack := p.seqNr - 1)
    ensures k'.out == k.out && k'.tags == k.tags && k'.events == k.events + [OnConnect]
    ensures k'.send == k.send.(count := 0, win := map[], maxWindowUser := p.windowSize)
    ensures k'.ctl.fastResend == RaiseFastResend(k, p.ackNr).ctl.fastResend
    ensures (k'.ctl.fastTimeout ==> k.ctl.fastTimeout)
  {
    AckOfSyn(n);
    var k0 := LearnPeerNumber(k, p);
    WSmall(0);
    assert IncomingOffset(k0, p) == 0;
    var k1 := AdvanceSendWindow(k0, p, 1, env);
    SynIsAcked(k0, k1, p, n, env);
    assert ProcessAcks(k0, p, env) == k1;
  }

  lemma AckOfSyn(n: int)
    ensures AckAcceptable(W(n + 1), 1, W(n)) && AckCount(W(n + 1), 1, W(n)) == 1
  {
    AckWindowExact(W(n + 1), 1, W(n));
    WDistance(n + 1, W(n) + 1);
    WDistance(n, n);
    assert W(W(n + 1) - 1 - W(n)) == 0 by { WDistance(n, W(n)); WSmall(0); }
    WDistance(W(n) + 2, n + 1);
    assert W(W(n) - (W(n + 1) - 2)) == W(1) by { WDistance(n + 2, n + 1); WDistance(n, W(n + 1) - 2); }
    WSmall(1);
  }

  // ---------------------------------------------------------------- fast resends over the network

  /** A peer that runs this receiver acknowledges honestly. */
  lemma PeerIsHonest(x: Sock, y: Sock, c: Record, p: Packet, t: Tag)
    requires ChannelInv(x, y, c) && AckRecent(x, p, t) && p.typ != StSyn && AckTruthful(p, t, y.recv.ack, G(y, c))
    requires AckAcceptable(W(x.send.next), x.send.count, p.ackNr)
    ensures CoversOnlySent(x.send, p.ackNr)
  {
    AcksAreReceived(x, y, c, p, t);
    ReceivedWasSent(x, y, c);
  }

  lemma ReceivedWasSent(x: Sock, y: Sock, c: Record)
    requires ChannelInv(x, y, c)
    ensures forall n :: n in G(y, c) && n in x.send.win ==> x.send.win[n].transmissions > 0
  {
    assert forall n :: n in G(y, c) ==> Frozen(x.send.win, n);
  }

  lemma ArrivalIsHonest(x: Sock, y: Sock, c: Record, i: nat, env: Env)
    requires ChannelInv(x, y, c) && i < |y.out| && y.out[i].typ != StSyn
    requires i < |y.tags| ==> AckRecent(x, y.out[i], y.tags[i])
    ensures Honest(x, CallIncoming(y.out[i], env)) && MaskFits(y.out[i])
  {
    assert AckTruthful(y.out[i], y.tags[i], y.recv.ack, G(y, c));
    if AckAcceptable(W(x.send.next), x.send.count, y.out[i].ackNr) {
      PeerIsHonest(x, y, c, y.out[i], y.tags[i]);
    }
  }

  /** Does the client process a mask that misfires? */
  predicate StepMisfires(s: System, step: Step) {
    && step.ToA? && step.i < |s.b.out| && s.b.out[step.i].typ != StSyn
    && MisfiresOn(s.a, CallIncoming(s.b.out[step.i], step.env))
  }

  predicate NoStepMisfires(s: System, steps: seq<Step>)
    decreases |steps|
  {
    steps == [] ||
    (NoStepMisfires(s, steps[..|steps| - 1]) && !StepMisfires(Run(s, steps[..|steps| - 1]), steps[|steps| - 1]))
  }

  lemma StepResends(s: System, s': System, step: Step, c: Record)
    requires AToB(s, c) && Aligned(s.a) && Timely(s, step) && s' == Next(s, step)
    ensures Later(s.a, s'.a) && Placed(ResentBy(s.a, s'.a), s'.a.tags)
    ensures OwnIn(ResentBy(s.a, s'.a), s'.a.tags) <==> !StepMisfires(s, step)
    ensures !StepMisfires(s, step) ==> Climbs(s.a, s'.a)
  {
    if step.ToA? && step.i < |s.b.out| && s.b.out[step.i].typ != StSyn {
      ArrivalIsHonest(s.a, s.b, c, step.i, step.env);
      ArrivalResends(s.a, s'.a, s.b.out[step.i], step.env);
    } else if step.AtA? && !step.call.CallIncoming? {
      OtherCallQuiet(s.a, s'.a, step.call);
      QuietClimbs(s.a, s'.a);
    } else {
      assert s'.a == s.a;
      QuietClimbs(s.a, s.a);
    }
  }

  lemma ArrivalResends(k: Sock, k': Sock, p: Packet, env: Env)
    requires SenderInv(k) && Aligned(k) && k' == ProcessIncoming(k, p, env).0
    requires MaskFits(p) && Honest(k, CallIncoming(p, env))
    ensures Later(k, k') && Placed(ResentBy(k, k'), k'.tags)
    ensures OwnIn(ResentBy(k, k'), k'.tags) <==> !MisfiresOn(k, CallIncoming(p, env))
    ensures !MisfiresOn(k, CallIncoming(p, env)) ==> Climbs(k, k')
  {
    IncomingOwn(k, k', p, env);
    if !MisfiresOn(k, CallIncoming(p, env)) {
      IncomingClimbs(k, k', p, env);
    }
  }

  /** What the client has resent fast between `k` and `k'`. */
  ghost predicate ResentWell(k: Sock, k': Sock, noMisfire: bool) {
    && Aligned(k') && Later(k, k') && Placed(Reports(k'.events), k'.tags)
    && (Own(k') <==> noMisfire)
    && (noMisfire ==> Climbs(k, k'))
  }

  lemma ResentWellThen(k: Sock, k1: Sock, k2: Sock, noMisfire: bool, misfire: bool)
    requires ResentWell(k, k1, noMisfire) && Later(k1, k2) && Placed(ResentBy(k1, k2), k2.tags)
    requires (OwnIn(ResentBy(k1, k2), k2.tags) <==> !misfire) && (!misfire ==> Climbs(k1, k2))
    ensures ResentWell(k, k2, noMisfire && !misfire)
  {
    assert Reports(k2.events) == Reports(k1.events) + ResentBy(k1, k2);
    OwnThen(Reports(k1.events), ResentBy(k1, k2), k1.tags, k2.tags);
    ResentThen(k, k1, k2);
    if noMisfire && !misfire {
      ClimbsThen(k, k1, k2);
    }
  }

  lemma {:induction false} RunResends(clientSeq: U16, serverSeq: U16, env: Env, steps: seq<Step>) returns (c: Record)
    requires TimelyRun(Accepted(clientSeq, serverSeq, env), steps)
    ensures var s0 := Accepted(clientSeq, serverSeq, env);
            AToB(Run(s0, steps), c) && ResentWell(s0.a, Run(s0, steps).a, NoStepMisfires(s0, steps))
    decreases |steps|
  {
    var s0 := Accepted(clientSeq, serverSeq, env);
    if steps == [] {
      AcceptedStarts(clientSeq, serverSeq, env);
      c := StartRecord(clientSeq);
      QuietClimbs(s0.a, s0.a);
    } else {
      var init, last := steps[..|steps| - 1], steps[|steps| - 1];
      var c1 := RunResends(clientSeq, serverSeq, env, init);
      var s1, s2 := Run(s0, init), Run(s0, steps);
      c := StepAToB(s1, last, c1);
      StepResends(s1, s2, last, c1);
      ResentWellThen(s0.a, s1.a, s2.a, NoStepMisfires(s0, init), StepMisfires(s1, last));
    }
  }

  /** Against a peer that runs this receiver, over a network that loses, repeats and reorders: the
      client sends every fast resend under the number that was looked up exactly in the runs in
      which no mask misfires, and in those runs the packets it resends fast strictly ascend, so
      that none is resent fast twice. */
  lemma ClientResendsAscend(clientSeq: U16, serverSeq: U16, env: Env, steps: seq<Step>)
    requires TimelyRun(Accepted(clientSeq, serverSeq, env), steps)
    ensures var s0 := Accepted(clientSeq, serverSeq, env);
            && (Own(Run(s0, steps).a) <==> NoStepMisfires(s0, steps))
            && (NoStepMisfires(s0, steps) ==> NoneTwice(Run(s0, steps).a) && Mark(s0.a) <= Mark(Run(s0, steps).a))
  {
    var s0 := Accepted(clientSeq, serverSeq, env);
    var _ := RunResends(clientSeq, serverSeq, env, steps);
    if NoStepMisfires(s0, steps) {
      ClimbsFromNothing(s0.a, Run(s0, steps).a);
    }
  }
}
