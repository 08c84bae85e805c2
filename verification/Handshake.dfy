/** From the SYN to a connection in both directions: whatever happens before the first answer reaches
    the client, its own stream and the server's are safe from then on. */
module Handshake {
  import opened Serial
  import opened Protocol
  import opened Conservation
  import opened Channel
  import opened ChannelReceiver
  import opened EndToEnd
  import opened EarlyAcks
  import opened GiveUp
  import opened Network
  import FlushCursor
  import Reorder
  import Ring

  // ---------------------------------------------------------------- waiting for the first answer

  /** What a client sends while it is connecting: its SYN, or, if its application reports something
      read, an acknowledgement of number 0. */
  predicate Opening(p: Packet, t: Tag) {
    p.typ == StSyn || (p.typ == StState && p.ackNr == 0 && p.sack == None && t.ackno == UNKNOWN)
  }

  /** A client that has sent its SYN, once or more often, and nothing else that counts. */
  ghost predicate Connecting(a: Sock, clientSeq: U16) {
    && SenderInv(a) && OnlySynSent(a, clientSeq) && a.send.win[clientSeq as int].typ == StSyn
    && a.recv == Fresh().recv.(ack := UNKNOWN, lastRcvWin := a.recv.lastRcvWin, readShutdown := a.recv.readShutdown)
    && a.events == [] && !a.send.finSent && 0 < |a.out| == |a.tags| && a.out[0].typ == StSyn
    && (forall i :: 0 <= i < |a.out| ==> Opening(a.out[i], a.tags[i]))
  }

  /** A server that has only acknowledged the SYN, and has perhaps given up. */
  ghost predicate Answering(b: Sock, clientSeq: U16, serverSeq: U16) {
    && SenderInv(b) && (b.state == SynRecv || b.state == Reset || b.state == Destroy)
    && b.send.next == serverSeq && b.send.count == 0 && !b.send.finSent && !b.send.finSentAcked
    && b.recv.ack == clientSeq && b.recv.reorderCount == 0
    && 0 < |b.out| == |b.tags| && forall i :: 0 <= i < |b.out| ==> Answer(b.out[i], b.tags[i], clientSeq, serverSeq)
  }

  predicate Answer(p: Packet, t: Tag, clientSeq: U16, serverSeq: U16) {
    && p.typ == StState && p.seqNr == serverSeq && p.ackNr == clientSeq && p.sack == None
    && t == Tag(serverSeq, clientSeq)
  }

  lemma StartsConnecting(clientSeq: U16, serverSeq: U16, env: Env)
    ensures Connecting(Accepted(clientSeq, serverSeq, env).a, clientSeq)
    ensures Answering(Accepted(clientSeq, serverSeq, env).b, clientSeq, serverSeq)
  {
    ConservationOverRuns(env, clientSeq, clientSeq, []);
    ConservationOverRuns(env, serverSeq, clientSeq, []);
    WSmall(clientSeq);
    WSmall(serverSeq);
  }

  // ---------------------------------------------------------------- calls meanwhile

  lemma AnswersOnly(b: Sock, b': Sock, clientSeq: U16, serverSeq: U16, env: Env)
    requires Answering(b, clientSeq, serverSeq) && b' == SendAck(b, env)
    ensures Answering(b', clientSeq, serverSeq)
  {
    SameWindow(b, b');
    WSmall(clientSeq);
    WSmall(serverSeq);
  }

  lemma NothingToFlush(b: Sock, env: Env)
    requires b.send.count == 0
    ensures Flush(b, env) == (b, false)
  {
  }

  lemma CallWhileAnswering(b: Sock, b': Sock, call: Call, clientSeq: U16, serverSeq: U16)
    requires Answering(b, clientSeq, serverSeq) && b' == Local(b, call).0
    ensures Answering(b', clientSeq, serverSeq) && Local(b, call).1 == []
  {
    match call {
      case CallWritev(_, _) =>
      case CallIncoming(_, _) =>
      case CallTimeouts(timers, before, after) =>
        NothingToFlush(b, before);
        TimeoutsWhileAnswering(b, b', timers, after, clientSeq, serverSeq);
      case CallClose(_) => SameWindow(b, b');
      case CallShutdown(_, _) => SameWindow(b, b');
      case CallReadDrained(env) =>
        SameWindow(b, b.(ackPending := true));
        AnswersOnly(b, SendAck(b, env), clientSeq, serverSeq, env);
      case CallDeferredAck(env) => AnswersOnly(b, SendAck(b, env), clientSeq, serverSeq, env);
      case CallReset => SameWindow(b, b');
      case CallIcmpError => SameWindow(b, b');
    }
  }

  lemma TimeoutsWhileAnswering(b: Sock, b': Sock, timers: Timers, env: Env, clientSeq: U16, serverSeq: U16)
    requires Answering(b, clientSeq, serverSeq) && b' == RunTimers(b, timers, env)
    ensures Answering(b', clientSeq, serverSeq)
  {
    var b1 := LiftZeroWindow(b, timers);
    SameWindow(b, b1);
    RtoExpiredKeeps(b1, timers.probeTimedOut);
  }

  /** A client that gave up before it was connected. */
  ghost predicate Gone(a: Sock, clientSeq: U16) {
    && (a.state == Reset || a.state == Destroy) && a.send.next == clientSeq + 1 && Delivered(a.events) == []
    && |a.out| > 0 && a.out[0].typ == StSyn
  }

  lemma SendsSynAgain(a: Sock, a': Sock, clientSeq: U16, cursor: U16)
    requires Connecting(a, clientSeq) && a' == WithCursor(SendPacket(a, clientSeq), cursor)
    ensures Connecting(a', clientSeq)
  {
    SendAndMoveKeeps(a, clientSeq, cursor);
  }

  lemma FlushWhileConnecting(a: Sock, a': Sock, clientSeq: U16, env: Env)
    requires Connecting(a, clientSeq) && a' == Flush(a, env).0
    ensures Connecting(a', clientSeq)
  {
    var n: int := clientSeq;
    var cursor := W(n + 1);
    FlushKeeps(a, env);
    SendsSynAgain(a, WithCursor(SendPacket(a, n), cursor), clientSeq, cursor);
    assert a' == a || a' == WithCursor(a, cursor) || a' == WithCursor(SendPacket(a, n), cursor) by {
      if FlushSpan(a.send) == 1 {
        assert a' == FlushScan(a, 1, true, env).0;
        if !Settled(a.send.win, n) && !IsFull(a, -1, env) {
          assert a' == FlushScan(WithCursor(SendPacket(a, n), cursor), 0, true, env).0;
        } else if Settled(a.send.win, n) {
          assert a' == FlushScan(WithCursor(a, cursor), 0, true, env).0;
        }
      } else {
        assert FlushSpan(a.send) == 0;
      }
    }
  }

  lemma ExpiresWhileConnecting(a: Sock, a': Sock, clientSeq: U16, probeTimedOut: bool)
    requires Connecting(a, clientSeq) && a' == RtoExpired(a, probeTimedOut).0
    ensures Connecting(a', clientSeq) || Gone(a', clientSeq)
  {
    RtoExpiredKeeps(a, probeTimedOut);
    if Protocol.GiveUp(a) {
      GoneByAbort(a, clientSeq);
      assert a' == Abort(a);
    } else {
      assert Head(a.send) == clientSeq;
    }
  }

  lemma TimeoutsWhileConnecting(a: Sock, a': Sock, timers: Timers, before: Env, after: Env, clientSeq: U16)
    requires Connecting(a, clientSeq) && a' == CheckTimeouts(a, timers, before, after)
    ensures Connecting(a', clientSeq) || Gone(a', clientSeq)
  {
    var a0 := Flush(a, before).0;
    FlushWhileConnecting(a, a0, clientSeq, before);
    var a1 := LiftZeroWindow(a0, timers);
    LiftWhileConnecting(a0, a1, timers, clientSeq);
    var (a2, alive) := MaybeExpire(a1, timers);
    ExpiresWhileConnecting(a1, RtoExpired(a1, timers.probeTimedOut).0, clientSeq, timers.probeTimedOut);
    assert a' == if alive then KeepAlive(ReopenWindow(a2, after), timers, after) else a2;
    assert Connecting(a2, clientSeq) ==> KeepAlive(ReopenWindow(a2, after), timers, after) == a2;
    RtoAlive(a1, timers.probeTimedOut);
  }

  lemma RtoAlive(a: Sock, probeTimedOut: bool)
    ensures var (a', alive) := RtoExpired(a, probeTimedOut); alive ==> a'.state == a.state
  {
  }

  lemma LiftWhileConnecting(a: Sock, a': Sock, timers: Timers, clientSeq: U16)
    requires Connecting(a, clientSeq) && a' == LiftZeroWindow(a, timers)
    ensures Connecting(a', clientSeq)
  {
    SameWindow(a, a');
  }

  /** Before the first answer `ack_nr` is still 0. */
  lemma AcksEarly(a: Sock, a': Sock, env: Env, clientSeq: U16)
    requires Connecting(a, clientSeq) && a' == SendAck(a, env)
    ensures Connecting(a', clientSeq)
  {
    SameWindow(a, a');
    WSmall(0);
  }

  lemma CallWhileConnecting(a: Sock, a': Sock, call: Call, clientSeq: U16)
    requires Connecting(a, clientSeq) && a' == Local(a, call).0
    ensures Connecting(a', clientSeq) || Gone(a', clientSeq)
  {
    match call {
      case CallWritev(_, _) =>
      case CallIncoming(_, _) =>
      case CallTimeouts(timers, before, after) =>
        TimeoutsWhileConnecting(a, a', timers, before, after, clientSeq);
      case CallClose(_) =>
      case CallShutdown(_, _) => SameWindow(a, a');
      case CallReadDrained(env) =>
        SameWindow(a, a.(ackPending := true));
        AcksEarly(a, SendAck(a, env), env, clientSeq);
      case CallDeferredAck(env) => AcksEarly(a, SendAck(a, env), env, clientSeq);
      case CallReset => GoneByAbort(a, clientSeq);
      case CallIcmpError => GoneByAbort(a, clientSeq);
    }
  }

  lemma GoneByAbort(a: Sock, clientSeq: U16)
    requires Connecting(a, clientSeq)
    ensures Gone(Abort(a), clientSeq)
  {
    ReportSpoke(a.(state := if a.send.closeRequested then Destroy else Reset), OnError);
  }

  /** An acknowledgement, of whatever number, leaves the server as it is. */
  lemma ArrivalWhileAnswering(b: Sock, b': Sock, p: Packet, env: Env, clientSeq: U16, serverSeq: U16)
    requires Answering(b, clientSeq, serverSeq) && (p.typ == StSyn || (p.typ == StState && p.sack == None))
    requires b' == Arrive(b, p, env)
    ensures Answering(b', clientSeq, serverSeq)
  {
    if p.typ != StSyn {
      AckWhileAnswering(b, ReopenWindow(ProcessAcks(b, p, env), env), p, env, clientSeq, serverSeq);
    }
  }

  lemma AckWhileAnswering(b: Sock, b': Sock, p: Packet, env: Env, clientSeq: U16, serverSeq: U16)
    requires Answering(b, clientSeq, serverSeq) && p.typ == StState && p.sack == None
    requires b' == ReopenWindow(ProcessAcks(b, p, env), env)
    ensures Answering(b', clientSeq, serverSeq)
  {
    ProcessAcksKeeps(b, p, env);
    ReopenWindowKeeps(ProcessAcks(b, p, env), env);
    var acks := AckCount(W(b.send.next), b.send.count, p.ackNr);
    var b1 := RaiseFastResend(AdvanceState(b, p, acks), p.ackNr);
    assert b1.send == b.send.(maxWindowUser := p.windowSize) && b1.state == b.state;
    assert forall n :: n !in b1.send.win;
    assert SkipAcked(AckCumulative(b1, acks, env)) == b1;
  }

  // ---------------------------------------------------------------- the first answer

  /** The server's stream starts after a virtual number, one below its first. */
  lemma BackwardSender(b: Sock, clientSeq: U16, serverSeq: U16)
    requires Answering(b, clientSeq, serverSeq)
    ensures SenderSide(b, map[serverSeq - 1 := Seg(StSyn, [])], serverSeq - 1, {serverSeq - 1})
  {
    WSmall(serverSeq);
    assert forall n :: n !in b.send.win;
    forall i | 0 <= i < |b.out|
      ensures FrameOk(b.out[i], b.tags[i], b.send.win, map[serverSeq - 1 := Seg(StSyn, [])])
    {
      assert Answer(b.out[i], b.tags[i], clientSeq, serverSeq);
    }
  }

  lemma BackwardReceiver(a: Sock, serverSeq: U16)
    requires a.state == Connected && a.events == [OnConnect] && 0 < |a.out| == |a.tags|
    requires a.recv == Fresh().recv.(ack := serverSeq - 1, lastRcvWin := a.recv.lastRcvWin,
                                           readShutdown := a.recv.readShutdown)
    requires forall i :: 0 <= i < |a.out| ==> Opening(a.out[i], a.tags[i])
    ensures ReceiverSide(a, map[serverSeq - 1 := Seg(StSyn, [])], serverSeq - 1, serverSeq, map[], serverSeq - 1)
  {
    FreshStores(a.recv);
    assert a.events[..0] == [];
    assert Delivered(a.events) == [];
    var h: History := map[serverSeq - 1 := Seg(StSyn, [])];
    assert Stream(h, serverSeq, serverSeq) == [];
    forall i | 0 <= i < |a.out|
      ensures AckTruthful(a.out[i], a.tags[i], serverSeq - 1, Received(h, serverSeq - 1, map[]))
    {
      assert Opening(a.out[i], a.tags[i]);
      WSmall(0);
    }
  }

  lemma FreshStores(r: RecvState)
    requires r == Fresh().recv.(ack := r.ack, lastRcvWin := r.lastRcvWin, readShutdown := r.readShutdown)
    ensures Reorder.Stores(r, map[])
  {
    FreshRing(CALM, r.(readShutdown := false));
  }

  const CALM := Env(0, 0, 0, 0)

  /** What the first answer makes of the client. */
  lemma ClientOpens(a: Sock, a': Sock, p: Packet, t: Tag, env: Env, clientSeq: U16, serverSeq: U16)
    requires Connecting(a, clientSeq) && Answer(p, t, clientSeq, serverSeq) && a' == Arrive(a, p, env)
    ensures a'.state == Connected && a'.events == [OnConnect] && 0 < |a'.out| == |a'.tags|
    ensures a'.recv == Fresh().recv.(ack := serverSeq - 1, lastRcvWin := a'.recv.lastRcvWin,
                                            readShutdown := a'.recv.readShutdown)
    ensures forall i :: 0 <= i < |a'.out| ==>
              Opening(a'.out[i], a'.tags[i])
  {
    WSmall(clientSeq);
    FirstAnswer(a, a', p, clientSeq, env);
  }

  lemma Opens(a: Sock, a': Sock, b: Sock, p: Packet, t: Tag, env: Env, clientSeq: U16, serverSeq: U16)
    requires Connecting(a, clientSeq) && Answering(b, clientSeq, serverSeq)
    requires Answer(p, t, clientSeq, serverSeq)
    requires a' == Arrive(a, p, env)
    ensures ChannelInv(b, a', StartRecord(serverSeq - 1))
  {
    ClientOpens(a, a', p, t, env, clientSeq, serverSeq);
    BackwardReceiver(a', serverSeq);
    BackwardSender(b, clientSeq, serverSeq);
    BackwardChannel(b, a', StartRecord(serverSeq - 1), serverSeq);
  }

  lemma BackwardChannel(b: Sock, a: Sock, c: Record, serverSeq: U16)
    requires c == StartRecord(serverSeq - 1) && SenderInv(b) && b.send.count == 0 && b.send.next == serverSeq
    requires SenderSide(b, c.h, c.first, {serverSeq - 1}) && a.recv.ack == serverSeq - 1
    requires ReceiverSide(a, c.h, c.first, serverSeq, c.m, c.upTo)
    ensures ChannelInv(b, a, c)
  {
    assert G(a, c) == {serverSeq - 1};
    assert Stream(c.h, serverSeq, serverSeq) == [];
    assert forall n :: n !in b.send.win;
  }

  // ---------------------------------------------------------------- when the client has given up

  lemma StaysGone(a: Sock, a': Sock, clientSeq: U16)
    requires Gone(a, clientSeq) && Spoke(a, a') && (a'.state == Reset || a'.state == Destroy)
    requires a'.send.next == a.send.next
    ensures Gone(a', clientSeq)
  {
  }

  lemma AbortWhenGone(a: Sock, a': Sock, clientSeq: U16)
    requires Gone(a, clientSeq) && a' == Abort(a)
    ensures Gone(a', clientSeq)
  {
    var a1 := a.(state := if a.send.closeRequested then Destroy else Reset);
    ReportSpoke(a1, OnError);
  }

  lemma TimeoutsWhenGone(a: Sock, a': Sock, timers: Timers, before: Env, after: Env, clientSeq: U16)
    requires Gone(a, clientSeq) && a' == CheckTimeouts(a, timers, before, after)
    ensures Gone(a', clientSeq)
  {
    CheckTimeoutsSpoke(a, timers, before, after);
    FlushScanShape(a, FlushSpan(a.send), true, before);
    assert a' == FlushUnlessDestroyed(a, before);
    StaysGone(a, a', clientSeq);
  }

  lemma CallWhenGone(a: Sock, a': Sock, call: Call, clientSeq: U16)
    requires Gone(a, clientSeq) && a' == Local(a, call).0
    ensures Gone(a', clientSeq)
  {
    match call {
      case CallTimeouts(timers, before, after) => TimeoutsWhenGone(a, a', timers, before, after, clientSeq);
      case CallReset => AbortWhenGone(a, a', clientSeq);
      case CallIcmpError => AbortWhenGone(a, a', clientSeq);
      case _ =>
    }
  }

  lemma ArrivalWhenGone(a: Sock, a': Sock, p: Packet, env: Env, clientSeq: U16)
    requires Gone(a, clientSeq) && a' == Arrive(a, p, env)
    ensures Gone(a', clientSeq)
  {
    ProcessAcksSpoke(a, p, env);
    ProcessAcksResent(a, p, env);
    ProcessAcksNext(a, p, env);
    var a1 := ReopenWindow(ProcessAcks(a, p, env), env);
    StaysGone(a, a1, clientSeq);
  }

  lemma ProcessAcksNext(k: Sock, p: Packet, env: Env)
    ensures ProcessAcks(k, p, env).send.next == k.send.next
  {
    FlushCursor.ProcessAcksSettled(k, p, env);
  }

  /** A server that was never connected: it has ended nothing. */
  ghost predicate Unconnected(b: Sock) {
    (b.state == SynRecv || b.state == Reset || b.state == Destroy) && !b.send.finSent && !b.send.finSentAcked
  }

  lemma CallWhenUnconnected(b: Sock, b': Sock, call: Call)
    requires Unconnected(b) && b' == Local(b, call).0
    ensures Unconnected(b') && Local(b, call).1 == []
  {
    match call {
      case CallTimeouts(timers, before, after) =>
        FlushScanShape(b, FlushSpan(b.send), true, before);
        var b0 := FlushUnlessDestroyed(b, before);
        assert Unconnected(b0);
        UnconnectedTimers(b0, timers, after);
      case _ =>
    }
  }

  lemma UnconnectedTimers(b: Sock, timers: Timers, env: Env)
    requires Unconnected(b)
    ensures Unconnected(RunTimers(b, timers, env))
  {
  }

  lemma ArrivalWhenUnconnected(b: Sock, b': Sock, p: Packet, env: Env)
    requires Unconnected(b) && (p.typ == StState || p.typ == StSyn) && b' == Arrive(b, p, env)
    ensures Unconnected(b')
  {
    ProcessAcksResent(b, p, env);
  }

  /** The client's frames are its SYN and acknowledgements. */
  lemma OnlySynWasSent(s: System, c: Record, clientSeq: U16, i: nat)
    requires AToB(s, c) && c.first == clientSeq && s.a.send.next == clientSeq + 1
    requires |s.a.out| > 0 && s.a.out[0].typ == StSyn && i < |s.a.out|
    ensures s.a.out[i].typ == StState || s.a.out[i].typ == StSyn
  {
    assert FrameOk(s.a.out[0], s.a.tags[0], s.a.send.win, c.h);
    assert FrameOk(s.a.out[i], s.a.tags[i], s.a.send.win, c.h);
  }

  // ---------------------------------------------------------------- runs

  datatype Phase = Waiting | Lost | Open

  /** Where the handshake stands. */
  ghost predicate InPhase(s: System, phase: Phase, c1: Record, c2: Record, clientSeq: U16, serverSeq: U16) {
    && AToB(s, c1) && c1.first == clientSeq
    && match phase {
         case Waiting =>
           Connecting(s.a, clientSeq) && Answering(s.b, clientSeq, serverSeq) && s.writtenB == []
         case Lost => Gone(s.a, clientSeq) && Unconnected(s.b)
         case Open => BToA(s, c2) && c2.first >= -1
       }
  }

  ghost predicate BToA(s: System, c: Record) {
    ChannelInv(s.b, s.a, c) && c.written == s.writtenB
  }

  /** The same for the other direction, with the server's stream and the client's acknowledgements;
      and one that the client sent before it knew any number of the server's does not arrive while
      a packet of the server's window has a number that wraps to 0. */
  ghost predicate TimelyBack(s: System, step: Step) {
    match step
    case ToB(i, _) =>
      i < |s.a.out| && i < |s.a.tags| ==>
        if Early(s.a.out[i], s.a.tags[i]) then !ZeroInWindow(s.b.send) else AckRecent(s.b, s.a.out[i], s.a.tags[i])
    case ToA(i, _) => i < |s.b.out| && i < |s.b.tags| ==> FrameRecent(s.a, s.b.out[i], s.b.tags[i])
    case _ => true
  }

  ghost predicate TimelyBackRun(s: System, steps: seq<Step>)
    decreases |steps|
  {
    steps == [] ||
    (TimelyBackRun(s, steps[..|steps| - 1]) && TimelyBack(Run(s, steps[..|steps| - 1]), steps[|steps| - 1]))
  }

  lemma AckArrivesBack(s: System, c: Record, i: nat, env: Env)
    requires BToA(s, c) && i < |s.a.out| && TimelyBack(s, ToB(i, env)) && c.first >= -1
    ensures ChannelInv(Arrive(s.b, s.a.out[i], env), s.a, c)
  {
    assert AckTruthful(s.a.out[i], s.a.tags[i], s.a.recv.ack, G(s.a, c));
    if Early(s.a.out[i], s.a.tags[i]) {
      EarlyArrives(s.b, s.a, c, s.a.out[i], s.a.tags[i], env);
    } else {
      ArriveAtSender(s.b, s.a, c, i, env);
    }
  }

  lemma StepBToA(s: System, step: Step, c: Record) returns (c': Record)
    requires BToA(s, c) && TimelyBack(s, step) && c.first >= -1
    ensures BToA(Next(s, step), c') && c'.first == c.first
  {
    c' := c;
    match step {
      case AtA(call) => LocalAtReceiver(s.b, s.a, c, call);
      case AtB(call) => c' := LocalAtSender(s.b, s.a, c, call);
      case ToB(i, env) => if i < |s.a.out| { AckArrivesBack(s, c, i, env); }
      case ToA(i, env) => if i < |s.b.out| { c' := ArriveAtReceiver(s.b, s.a, c, i, env); }
    }
  }

  lemma StepWaiting(s: System, s': System, step: Step, c1: Record, clientSeq: U16, serverSeq: U16)
    returns (phase: Phase)
    requires InPhase(s, Waiting, c1, c1, clientSeq, serverSeq) && s' == Next(s, step)
    ensures phase == Waiting ==>
              Connecting(s'.a, clientSeq) && Answering(s'.b, clientSeq, serverSeq) && s'.writtenB == []
    ensures phase == Lost ==> Gone(s'.a, clientSeq) && Unconnected(s'.b)
    ensures phase == Open ==> BToA(s', StartRecord(serverSeq - 1))
  {
    phase := Waiting;
    match step {
      case AtA(call) =>
        CallWhileConnecting(s.a, s'.a, call, clientSeq);
        phase := if s'.a.state == SynSent then Waiting else Lost;
      case AtB(call) => CallWhileAnswering(s.b, s'.b, call, clientSeq, serverSeq);
      case ToB(i, env) =>
        if i < |s.a.out| {
          assert Opening(s.a.out[i], s.a.tags[i]);
          ArrivalWhileAnswering(s.b, s'.b, s.a.out[i], env, clientSeq, serverSeq);
        }
      case ToA(i, env) =>
        if i < |s.b.out| {
          assert Answer(s.b.out[i], s.b.tags[i], clientSeq, serverSeq);
          Opens(s.a, s'.a, s.b, s.b.out[i], s.b.tags[i], env, clientSeq, serverSeq);
          phase := Open;
        }
    }
  }

  lemma StepLost(s: System, s': System, step: Step, c1: Record, clientSeq: U16, serverSeq: U16)
    requires InPhase(s, Lost, c1, c1, clientSeq, serverSeq) && s' == Next(s, step)
    ensures Gone(s'.a, clientSeq) && Unconnected(s'.b)
  {
    match step {
      case AtA(call) => CallWhenGone(s.a, s'.a, call, clientSeq);
      case AtB(call) => CallWhenUnconnected(s.b, s'.b, call);
      case ToB(i, env) =>
        if i < |s.a.out| {
          OnlySynWasSent(s, c1, clientSeq, i);
          ArrivalWhenUnconnected(s.b, s'.b, s.a.out[i], env);
        }
      case ToA(i, env) =>
        if i < |s.b.out| {
          ArrivalWhenGone(s.a, s'.a, s.b.out[i], env, clientSeq);
        }
    }
  }

  lemma StepPhase(s: System, s': System, step: Step, phase: Phase, c1: Record, c2: Record, clientSeq: U16,
                  serverSeq: U16)
    returns (phase': Phase, c1': Record, c2': Record)
    requires InPhase(s, phase, c1, c2, clientSeq, serverSeq)
    requires Timely(s, step) && TimelyBack(s, step)
    requires s' == Next(s, step)
    ensures InPhase(s', phase', c1', c2', clientSeq, serverSeq)
  {
    c1' := StepAToB(s, step, c1);
    phase', c2' := phase, c2;
    match phase {
      case Waiting =>
        phase' := StepWaiting(s, s', step, c1, clientSeq, serverSeq);
        c2' := StartRecord(serverSeq - 1);
      case Lost => StepLost(s, s', step, c1, clientSeq, serverSeq);
      case Open => c2' := StepBToA(s, step, c2);
    }
  }

  lemma {:induction false} RunPhases(clientSeq: U16, serverSeq: U16, env: Env, steps: seq<Step>)
    returns (phase: Phase, c1: Record, c2: Record)
    requires TimelyRun(Accepted(clientSeq, serverSeq, env), steps)
    requires TimelyBackRun(Accepted(clientSeq, serverSeq, env), steps)
    ensures InPhase(Run(Accepted(clientSeq, serverSeq, env), steps), phase, c1, c2, clientSeq, serverSeq)
    decreases |steps|
  {
    var s0 := Accepted(clientSeq, serverSeq, env);
    if steps == [] {
      AcceptedStarts(clientSeq, serverSeq, env);
      StartsConnecting(clientSeq, serverSeq, env);
      phase, c1, c2 := Waiting, StartRecord(clientSeq), StartRecord(clientSeq);
    } else {
      var init, last := steps[..|steps| - 1], steps[|steps| - 1];
      phase, c1, c2 := RunPhases(clientSeq, serverSeq, env, init);
      phase, c1, c2 := StepPhase(Run(s0, init), Run(s0, steps), last, phase, c1, c2, clientSeq, serverSeq);
    }
  }

  /** What holds in both directions. */
  ghost predicate SafeBothWays(s: System) {
    && Delivered(s.b.events) <= s.writtenA && Delivered(s.a.events) <= s.writtenB
    && (s.a.send.finSentAcked ==>
          OnEof in s.b.events && (!s.b.recv.readShutdown ==> Delivered(s.b.events) == s.writtenA))
    && (s.b.send.finSentAcked ==>
          OnEof in s.a.events && (!s.a.recv.readShutdown ==> Delivered(s.a.events) == s.writtenB))
  }

  lemma OneWay(x: Sock, y: Sock, c: Record)
    requires ChannelInv(x, y, c)
    ensures Delivered(y.events) <= c.written
    ensures x.send.finSentAcked ==> OnEof in y.events && (!y.recv.readShutdown ==> Delivered(y.events) == c.written)
  {
    DeliveredIsPrefix(x, y, c);
    if x.send.finSentAcked {
      FinAckedIsReached(x, y, c);
      if !y.recv.readShutdown {
        EofIsComplete(x, y, c);
      }
    }
  }

  /** Safety in both directions at once, from the SYN on. SYNs may be resent and arrive at any time,
      any of the server's answers may be the first to arrive, either side may give up: in every
      timely run, what each side's application has read is a prefix of what the other side's
      `writev` has accepted, and whoever's end of stream has been acknowledged has been read to the
      end, if the other side still reads. */
  lemma BothDirections(clientSeq: U16, serverSeq: U16, env: Env, steps: seq<Step>)
    requires TimelyRun(Accepted(clientSeq, serverSeq, env), steps)
    requires TimelyBackRun(Accepted(clientSeq, serverSeq, env), steps)
    ensures SafeBothWays(Run(Accepted(clientSeq, serverSeq, env), steps))
  {
    var phase, c1, c2 := RunPhases(clientSeq, serverSeq, env, steps);
    var s := Run(Accepted(clientSeq, serverSeq, env), steps);
    OneWay(s.a, s.b, c1);
    if phase == Open {
      OneWay(s.b, s.a, c2);
    }
  }
}
