/** What the timer brings about: lost packets are sent again, a closed window is tried again, and a
    silent connection is kept alive. */
module Timeouts {
  import opened Serial
  import opened Protocol
  import opened Conservation
  import opened FlushCursor
  import opened GiveUp
  import opened SendWindow

  // ---------------------------------------------------------------- the retransmission timer

  /** From `k` to `k'` the head of the window is sent once more, and every other packet of it is no
      longer in flight. Nothing else has changed about the packets. */
  ghost predicate HeadResent(k: Sock, k': Sock) {
    var h := Head(k.send);
    && k'.send.next == k.send.next && k'.send.count == k.send.count && k'.send.win.Keys == k.send.win.Keys
    && h in k.send.win && SentOnce(k.send.win[h], k'.send.win[h])
    && (forall n :: n in k.send.win && n != h ==>
          !InFlight(k'.send.win[n])
          && k'.send.win[n] == k.send.win[n].(needResend := k.send.win[n].transmissions > 0))
    && k'.ctl.curWindow == |k.send.win[h].payload|
    && k'.send.flushScanStart == W(h)
  }

  /** What leaves the socket between `k` and `k'`. */
  ghost predicate Leaves(k: Sock, k': Sock, frames: seq<Packet>, tags: seq<Tag>) {
    k'.out == k.out + frames && k'.tags == k.tags + tags
  }

  lemma MarkedIsFree(k: Sock)
    requires SenderInv(k)
    ensures var k' := MarkForResend(k);
            && k'.ctl.curWindow == 0
            && forall n :: n in k.send.win ==>
                 k'.send.win[n] == k.send.win[n].(needResend := k.send.win[n].transmissions > 0)
  {
  }

  lemma ResendsHead(k: Sock)
    requires SenderInv(k) && k.send.count > 0
    ensures var k', pkt := ResendAfterTimeout(k), k.send.win[Head(k.send)];
            && HeadResent(k, k') && k'.state == k.state && k'.recv == k.recv && k'.ctl.fastTimeout
            && k'.ctl.retransmitCount == k.ctl.retransmitCount + 1
            && Leaves(k, k', [OnWire(pkt, W(k.recv.ack))], [Tag(Head(k.send), k.recv.ack)])
  {
    MarkedIsFree(k);
  }

  /** A keep-alive is due. */
  predicate KeepAliveDue(k: Sock, timers: Timers) {
    (k.state == Connected || k.state == ConnectedFull) && !k.send.finSent && timers.keepAliveDue
  }

  /** It acknowledges one number less than has been received. */
  function KeepAliveFrame(k: Sock, env: Env): Packet {
    Packet(StState, W(k.send.next), W(k.recv.ack - 1), env.rcvWindow, SackOf(k.recv.(ack := k.recv.ack - 1)), [])
  }

  /** What follows the expiry, if any: the socket may have room again, and a keep-alive goes out if one
      is due. */
  ghost predicate Finished(k: Sock, k': Sock, timers: Timers, env: Env) {
    && k'.send == k.send && k'.ctl == k.ctl && k'.recv.ack == k.recv.ack
    && (k'.state == k.state || (k.state == ConnectedFull && k'.state == Connected))
    && if KeepAliveDue(k, timers) then Leaves(k, k', [KeepAliveFrame(k, env)], [Tag(k.send.next, k.recv.ack - 1)])
       else Leaves(k, k', [], [])
  }

  lemma FinishTimers(k: Sock, k': Sock, timers: Timers, env: Env)
    requires k' == KeepAlive(ReopenWindow(k, env), timers, env)
    ensures Finished(k, k', timers, env)
  {
    assert k.out + [] == k.out && k.tags + [] == k.tags;
  }

  /** The frame at `at` carries the head of the window. */
  ghost predicate HeadLeft(k: Sock, k': Sock) {
    && |k.out| < |k'.out| && |k.tags| < |k'.tags| && Head(k.send) in k.send.win
    && Carries(k'.out[|k.out|], k'.tags[|k.tags|], k.send.win[Head(k.send)], Head(k.send), k.recv.ack)
  }

  /** How many frames a timer that goes on sends after its flush. */
  function FramesAfterFlush(k: Sock, timers: Timers): nat {
    BoolBit(timers.expired && k.send.count > 0) + BoolBit(KeepAliveDue(k, timers))
  }

  ghost predicate TimerRan(k: Sock, k': Sock, timers: Timers, env: Env) {
    && k.out <= k'.out && |k'.out| == |k.out| + FramesAfterFlush(k, timers)
    && k.tags <= k'.tags && |k'.tags| == |k.tags| + FramesAfterFlush(k, timers)
    && (if timers.expired && k.send.count > 0 then HeadResent(k, k') && HeadLeft(k, k')
        else k'.send.win == k.send.win && k'.ctl.curWindow == k.ctl.curWindow)
    && (KeepAliveDue(k, timers) ==> k'.out[|k'.out| - 1] == KeepAliveFrame(k, env))
  }

  lemma ResentThenFinished(k: Sock, k1: Sock, k': Sock, timers: Timers, env: Env)
    requires SenderInv(k) && k.send.count > 0 && timers.expired
    requires HeadResent(k, k1) && k1.state == k.state && k1.recv == k.recv && Finished(k1, k', timers, env)
    requires k1.send.finSent == k.send.finSent
    requires Leaves(k, k1, [OnWire(k.send.win[Head(k.send)], W(k.recv.ack))], [Tag(Head(k.send), k.recv.ack)])
    ensures TimerRan(k, k', timers, env)
  {
  }

  lemma ExpiryGoesOn(k: Sock, k1: Sock, timers: Timers)
    requires SenderInv(k) && (k1, true) == MaybeExpire(k, timers)
    ensures k1.state == k.state && k1.recv == k.recv
    ensures k1.send.finSent == k.send.finSent && k1.send.next == k.send.next
    ensures if timers.expired && k.send.count > 0
            then HeadResent(k, k1)
                 && Leaves(k, k1, [OnWire(k.send.win[Head(k.send)], W(k.recv.ack))], [Tag(Head(k.send), k.recv.ack)])
            else k1.send.win == k.send.win && k1.ctl.curWindow == k.ctl.curWindow && Leaves(k, k1, [], [])
  {
    assert k.out + [] == k.out && k.tags + [] == k.tags;
    if timers.expired {
      var newTimeout := if timers.probeTimedOut then k.ctl.retransmitTimeout else k.ctl.retransmitTimeout * 2;
      var k0 := k.(ctl := k.ctl.(retransmitTimeout := newTimeout));
      SameWindow(k, k0);
      if k.send.count > 0 {
        ResendsHead(k0);
      } else {
        EmptyUnmarked(k0);
      }
    }
  }

  lemma EmptyUnmarked(k: Sock)
    requires SenderInv(k) && k.send.count == 0
    ensures ResendAfterTimeout(k).send.win == k.send.win && ResendAfterTimeout(k).ctl.curWindow == k.ctl.curWindow
  {
    assert forall n :: n !in k.send.win;
  }

  lemma UnsentThenFinished(k: Sock, k1: Sock, k': Sock, timers: Timers, env: Env)
    requires !(timers.expired && k.send.count > 0) && Finished(k1, k', timers, env) && Leaves(k, k1, [], [])
    requires k1.send.win == k.send.win && k1.ctl.curWindow == k.ctl.curWindow
    requires k1.state == k.state && k1.recv == k.recv
    requires k1.send.finSent == k.send.finSent && k1.send.next == k.send.next
    ensures TimerRan(k, k', timers, env)
  {
    assert k.out + [] == k.out && k.tags + [] == k.tags;
  }

  lemma SoonerLifted(k: Sock, k0: Sock, k': Sock, timers: Timers, env: Env)
    requires k0 == LiftZeroWindow(k, timers) && TimerRan(k0, k', timers, env)
    ensures TimerRan(k, k', timers, env)
  {
  }

  lemma TimersRun(k: Sock, k': Sock, timers: Timers, env: Env)
    requires SenderInv(k) && TimeoutActive(k.state) && k' == RunTimers(k, timers, env) && TimeoutActive(k'.state)
    ensures TimerRan(k, k', timers, env)
  {
    var k0 := LiftZeroWindow(k, timers);
    LiftZeroWindowKeeps(k, timers);
    RtoExpiredTriedAgain(k0, timers);
    var k1 := MaybeExpire(k0, timers).0;
    ExpiryGoesOn(k0, k1, timers);
    FinishTimers(k1, k', timers, env);
    Together(k0, k1, k', timers, env);
    SoonerLifted(k, k0, k', timers, env);
  }

  lemma Together(k: Sock, k1: Sock, k': Sock, timers: Timers, env: Env)
    requires SenderInv(k) && Finished(k1, k', timers, env)
    requires k1.state == k.state && k1.recv == k.recv
    requires k1.send.finSent == k.send.finSent && k1.send.next == k.send.next
    requires if timers.expired && k.send.count > 0
             then HeadResent(k, k1)
                  && Leaves(k, k1, [OnWire(k.send.win[Head(k.send)], W(k.recv.ack))], [Tag(Head(k.send), k.recv.ack)])
             else k1.send.win == k.send.win && k1.ctl.curWindow == k.ctl.curWindow && Leaves(k, k1, [], [])
    ensures TimerRan(k, k', timers, env)
  {
    if timers.expired && k.send.count > 0 {
      ResentThenFinished(k, k1, k', timers, env);
    } else {
      UnsentThenFinished(k, k1, k', timers, env);
    }
  }

  lemma RtoExpiredTriedAgain(k: Sock, timers: Timers)
    requires TimeoutActive(k.state)
    ensures !MaybeExpire(k, timers).1 ==> !TimeoutActive(MaybeExpire(k, timers).0.state)
  {
    RtoExpiredExactly(k, timers.probeTimedOut);
  }

  /** What `check_timeouts` sends after its flush, as long as it does not give up: when the timer has
      expired, the oldest packet of the window, and every other packet of it is taken out of flight;
      then a keep-alive if one is due; nothing else. */
  lemma TimerSends(k: Sock, k': Sock, c: Call)
    requires SenderInv(k) && c.CallTimeouts? && k' == Do(k, c) && TimeoutActive(k.state) && TimeoutActive(k'.state)
    ensures TimerRan(Flush(k, c.before).0, k', c.timers, c.after)
  {
    FlushKeeps(k, c.before);
    TimersRun(Flush(k, c.before).0, k', c.timers, c.after);
  }

  lemma TimersSendNothing(k: Sock, k': Sock, timers: Timers, env: Env)
    requires k' == RunTimers(k, timers, env) && !(TimeoutActive(k.state) && TimeoutActive(k'.state))
    ensures Leaves(k, k', [], []) && k'.send.win == k.send.win
  {
    assert k.out + [] == k.out && k.tags + [] == k.tags;
    if TimeoutActive(k.state) {
      RtoExpiredTriedAgain(LiftZeroWindow(k, timers), timers);
      GivingUpIsSilent(LiftZeroWindow(k, timers), timers);
    }
  }

  lemma GivingUpIsSilent(k: Sock, timers: Timers)
    ensures !MaybeExpire(k, timers).1 ==>
              MaybeExpire(k, timers).0 == k.(state := MaybeExpire(k, timers).0.state, events := k.events + [OnError])
    ensures MaybeExpire(k, timers).1 ==> MaybeExpire(k, timers).0.state == k.state
  {
  }

  /** A timer that gives up, or of a connection that is over, sends nothing after its flush. */
  lemma TimerSendsNothing(k: Sock, k': Sock, c: Call)
    requires c.CallTimeouts? && k' == Do(k, c) && !(TimeoutActive(k.state) && TimeoutActive(k'.state))
    ensures var k1 := FlushUnlessDestroyed(k, c.before);
            Leaves(k1, k', [], []) && k'.send.win == k1.send.win
  {
    FlushScanShape(k, FlushSpan(k.send), true, c.before);
    TimersSendNothing(FlushUnlessDestroyed(k, c.before), k', c.timers, c.after);
  }

  // ---------------------------------------------------------------- and the flush after it

  lemma MarkedAreDue(k: Sock, k': Sock)
    requires SenderInv(k) && k.send.count > 0 && HeadResent(k, k')
    ensures CursorInv(k'.send)
    ensures forall n :: n in Due(k'.send.win, Head(k'.send), k'.send.next) <==> n in k.send.win && n != Head(k.send)
  {
    DueIsWaiting(k'.send.win, Head(k'.send), k'.send.next);
    WDistance(k'.send.next, Head(k'.send));
    WSmall(k'.send.count);
  }

  /** No lost packet is forgotten: the flush that follows an expiry sends the packets that have been
      taken out of flight, oldest first and each once, until the window is full; if it is not, it
      has sent all of them but a last one that is held back. */
  lemma FlushAfterExpiry(k: Sock, k': Sock, env: Env) returns (due: seq<int>)
    requires SenderInv(k) && k.send.count > 0 && HeadResent(k, k')
    ensures SentInTurn(k', Flush(k', env).0, due)
    ensures forall i, j :: 0 <= i < j < |due| ==> due[i] < due[j]
    ensures forall n :: n in due ==> n in k.send.win && n != Head(k.send)
    ensures Flush(k', env).1 ==> IsFull(Flush(k', env).0, -1, env)
    ensures !Flush(k', env).1 ==>
              forall n :: n in k.send.win && n != Head(k.send) && n !in due ==>
                n == k.send.next - 1 && HeldBack(Flush(k', env).0, env)
  {
    MarkedAreDue(k, k');
    FlushRefinesFullScan(k', env);
    FlushExactly(k', env);
    due := FlushSendsFirst(k', env);
  }

  /** The flush sends the first of what waits, and what it leaves is a last packet that is held back, or
      the window is full. */
  lemma FlushSendsFirst(k: Sock, env: Env) returns (due: seq<int>)
    requires FlushAgrees(k, env)
    ensures SentInTurn(k, Flush(k, env).0, due)
    ensures forall i, j :: 0 <= i < j < |due| ==> due[i] < due[j]
    ensures forall n :: n in due ==> n in Due(k.send.win, Head(k.send), k.send.next)
    ensures Flush(k, env).1 ==> IsFull(Flush(k, env).0, -1, env)
    ensures !Flush(k, env).1 ==>
              forall n :: n in Due(k.send.win, Head(k.send), k.send.next) && n !in due ==>
                n == k.send.next - 1 && HeldBack(Flush(k, env).0, env)
  {
    var sent := FlushSends(k, env);
    DueIsWaiting(k.send.win, Head(k.send), k.send.next);
    due := FirstOf(Due(k.send.win, Head(k.send), k.send.next), sent);
  }

  lemma FirstOf(all: seq<int>, sent: nat) returns (due: seq<int>)
    requires sent <= |all|
    requires forall i, j :: 0 <= i < j < |all| ==> all[i] < all[j]
    ensures due == all[..sent] && forall i, j :: 0 <= i < j < |due| ==> due[i] < due[j]
    ensures forall n :: n in due ==> n in all
    ensures sent >= |all| - 1 ==> forall n :: n in all && n !in due ==> sent < |all| && n == all[sent]
  {
    due := all[..sent];
    forall i | 0 <= i < sent
      ensures all[i] in due
    {
      assert all[i] == due[i];
    }
  }

  // ---------------------------------------------------------------- a closed window

  /** When the time of a closed window is over it counts as one packet. */
  lemma ClosedWindowLifts(k: Sock, k1: Sock, c: Call)
    requires SenderInv(k) && CursorInv(k.send) && c.CallTimeouts? && k1 == Do(k, c) && TimeoutActive(k.state)
    requires k.send.maxWindowUser == 0 && c.timers.zeroWindowOver && !c.timers.expired && c.before.packetSize > 0
    ensures k1.send.maxWindowUser == PACKET_SIZE && k1.send.win == k.send.win && k1.ctl.curWindow == k.ctl.curWindow
    ensures k1.send.next == k.send.next && k1.send.count == k.send.count && CursorInv(k1.send)
  {
    FlushScanWhenFull(k, FlushSpan(k.send), true, c.before);
    CheckTimeoutsCursor(k, c.timers, c.before, c.after);
    LiftsWithoutExpiry(Flush(k, c.before).0, k1, c.timers, c.after);
  }

  lemma LiftsWithoutExpiry(k: Sock, k1: Sock, timers: Timers, env: Env)
    requires k1 == RunTimers(k, timers, env) && TimeoutActive(k.state) && !timers.expired
    ensures k1.send == LiftZeroWindow(k, timers).send && k1.ctl == k.ctl
  {
  }

  /** The oldest packet that waits is sent, unless it is a last one that is held back. */
  lemma FirstDueIsSent(k: Sock, env: Env)
    requires CursorInv(k.send) && !IsFull(k, -1, env) && Due(k.send.win, Head(k.send), k.send.next) != []
    ensures var due, k' := Due(k.send.win, Head(k.send), k.send.next), Flush(k, env).0;
            || (|k.out| < |k'.out| && |k.tags| < |k'.tags| && due[0] in k.send.win
                && Carries(k'.out[|k.out|], k'.tags[|k.tags|], k.send.win[due[0]], due[0], k.recv.ack))
            || (due == [k.send.next - 1] && HeldBack(k', env))
  {
    FlushRefinesFullScan(k, env);
    FlushExactly(k, env);
    FlushScanShape(k, FlushSpan(k.send), true, env);
    var sent := FlushSends(k, env);
  }

  /** A window the peer has closed is tried again: once its time is over and nothing is in flight, the
      next flush sends the oldest packet that waits, unless it is a last one that is held back. */
  lemma ClosedWindowIsTried(k: Sock, k1: Sock, c: Call, env: Env)
    requires SenderInv(k) && CursorInv(k.send) && c.CallTimeouts? && k1 == Do(k, c) && TimeoutActive(k.state)
    requires k.send.maxWindowUser == 0 && k.ctl.curWindow == 0 && c.timers.zeroWindowOver && !c.timers.expired
    requires c.before.packetSize > 0 && env.packetSize <= PACKET_SIZE && env.packetSize <= env.windowLimit
    requires k.send.count < OUTGOING_BUFFER_MAX_SIZE - 1
    ensures k1.send.maxWindowUser == PACKET_SIZE && k1.send.win == k.send.win
    ensures var due, k2 := Due(k.send.win, Head(k.send), k.send.next), Flush(k1, env).0;
            due != [] ==>
              || (|k1.out| < |k2.out| && |k1.tags| < |k2.tags| && due[0] in k.send.win
                  && Carries(k2.out[|k1.out|], k2.tags[|k1.tags|], k.send.win[due[0]], due[0], k1.recv.ack))
              || (due == [k.send.next - 1] && HeldBack(k2, env))
  {
    ClosedWindowLifts(k, k1, c);
    if Due(k.send.win, Head(k.send), k.send.next) != [] {
      FirstDueIsSent(k1, env);
    }
  }
}
