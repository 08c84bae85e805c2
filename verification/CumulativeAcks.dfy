/** What an acknowledgement takes off the window, exactly. */
module CumulativeAcks {
  import opened Serial
  import opened Protocol
  import opened Conservation
  import opened Sack
  import opened FastResending
  import opened SendWindow

  /** Where a cumulative acknowledgement of `[lo, hi)` stops: at the first packet that was never sent. */
  ghost function StopsAt(win: map<int, OutPkt>, lo: int, hi: int): int
    decreases hi - lo
  {
    if lo >= hi || (lo in win && win[lo].transmissions == 0) then lo else StopsAt(win, lo + 1, hi)
  }

  lemma {:induction false} StopsAtBelow(win: map<int, OutPkt>, win': map<int, OutPkt>, lo: int, hi: int)
    requires forall n :: lo <= n ==> (n in win <==> n in win') && (n in win ==> win[n] == win'[n])
    ensures StopsAt(win', lo, hi) == StopsAt(win, lo, hi)
    decreases hi - lo
  {
    if lo < hi {
      StopsAtBelow(win, win', lo + 1, hi);
    }
  }

  /** It is the first one. */
  lemma {:induction false} StopsAtFirst(win: map<int, OutPkt>, lo: int, hi: int)
    requires lo <= hi
    ensures lo <= StopsAt(win, lo, hi) <= hi
    ensures forall n :: lo <= n < StopsAt(win, lo, hi) ==> n !in win || win[n].transmissions > 0
    ensures StopsAt(win, lo, hi) < hi ==>
              StopsAt(win, lo, hi) in win && win[StopsAt(win, lo, hi)].transmissions == 0
    decreases hi - lo
  {
    if lo < hi && !(lo in win && win[lo].transmissions == 0) {
      StopsAtFirst(win, lo + 1, hi);
    }
  }

  ghost predicate From(win: map<int, OutPkt>, win': map<int, OutPkt>, stop: int) {
    && (forall n :: n in win' <==> n in win && n >= stop)
    && (forall n :: n in win' ==> win'[n] == win[n])
  }

  /** The first step: the head leaves, if it is there, unless it was never sent. */
  lemma HeadTaken(k: Sock, acks: nat, env: Env) returns (k2: Sock, never: bool)
    requires 0 < acks && k.send.count > 0 && forall n :: n in k.send.win ==> n >= Head(k.send)
    ensures never <==> Head(k.send) in k.send.win && k.send.win[Head(k.send)].transmissions == 0
    ensures never ==> AckCumulative(k, acks, env) == k
    ensures !never ==>
              && AckCumulative(k, acks, env) == AckCumulative(k2, acks - 1, env)
              && From(k.send.win, k2.send.win, Head(k.send) + 1)
              && Head(k2.send) == Head(k.send) + 1 && k2.send.next == k.send.next
              && k2.send.count == k.send.count - 1
  {
    var (k1, status) := AckPacket(k, Head(k.send), env);
    never := status == NeverSent;
    k2 := if never then k else k1.(send := k1.send.(count := k1.send.count - 1));
  }

  lemma FromThen(win: map<int, OutPkt>, win1: map<int, OutPkt>, win2: map<int, OutPkt>, mid: int, stop: int)
    requires From(win, win1, mid) && From(win1, win2, stop) && mid <= stop
    ensures From(win, win2, stop)
  {
  }

  lemma {:induction false} CumulativeTakes(k: Sock, acks: nat, env: Env, stop: int)
    requires acks <= k.send.count && forall n :: n in k.send.win ==> n >= Head(k.send)
    requires stop == StopsAt(k.send.win, Head(k.send), Head(k.send) + acks)
    ensures var k' := AckCumulative(k, acks, env);
            From(k.send.win, k'.send.win, stop) && Head(k'.send) == stop && k'.send.next == k.send.next
    decreases acks
  {
    if acks != 0 {
      var k2, never := HeadTaken(k, acks, env);
      if !never {
        StopsAtBelow(k.send.win, k2.send.win, Head(k.send) + 1, Head(k.send) + acks);
        StopsAtFirst(k.send.win, Head(k.send) + 1, Head(k.send) + acks);
        CumulativeTakes(k2, acks - 1, env, stop);
        FromThen(k.send.win, k2.send.win, AckCumulative(k2, acks - 1, env).send.win, Head(k.send) + 1, stop);
      }
    }
  }

  lemma {:induction false} SkipTakes(k: Sock)
    requires forall n :: n in k.send.win ==> n >= Head(k.send)
    ensures SkipAcked(k).send.win == k.send.win && SkipAcked(k).send.next == k.send.next
    ensures forall n :: n in k.send.win ==> n >= Head(SkipAcked(k).send)
    decreases k.send.count
  {
    if k.send.count > 0 && Head(k.send) !in k.send.win {
      SkipTakes(k.(send := k.send.(count := k.send.count - 1)));
    }
  }

  lemma TailKeys(k: Sock)
    ensures FastTimeout(SendLoneUnsent(k)).send.win.Keys == k.send.win.Keys
    ensures FastTimeout(SendLoneUnsent(k)).send.next == k.send.next
    ensures FastTimeout(SendLoneUnsent(k)).send.count == k.send.count
    ensures k.send.count == 1 && k.send.next - 1 in k.send.win ==>
              FastTimeout(SendLoneUnsent(k)).send.win[k.send.next - 1].transmissions > 0
  {
    LoneKeys(k);
    TimeoutKeys(SendLoneUnsent(k));
  }

  lemma LoneKeys(k: Sock)
    ensures var s := SendLoneUnsent(k).send;
            && s.win.Keys == k.send.win.Keys && s.next == k.send.next && s.count == k.send.count
            && (k.send.count == 1 && k.send.next - 1 in k.send.win ==> s.win[k.send.next - 1].transmissions > 0)
  {
  }

  lemma TimeoutKeys(k: Sock)
    ensures var s := FastTimeout(k).send;
            && s.win.Keys == k.send.win.Keys && s.next == k.send.next && s.count == k.send.count
            && forall n :: n in k.send.win ==> s.win[n].transmissions >= k.send.win[n].transmissions
  {
  }

  /** A packet that is alone in the window has been sent. */
  ghost predicate LoneSent(s: SendState) {
    s.count == 1 ==> s.next - 1 in s.win && s.win[s.next - 1].transmissions > 0
  }

  ghost predicate Takes(win: map<int, OutPkt>, s: SendState, stop: int) {
    && (forall n :: n in s.win <==> n in win && n >= stop)
    && (s.count == 1 && s.next - 1 in s.win ==> s.win[s.next - 1].transmissions > 0)
  }

  lemma WindowMovesOn(k: Sock, k1: Sock, acks: nat, env: Env, stop: int)
    requires acks <= k.send.count && forall n :: n in k.send.win ==> n >= Head(k.send)
    requires stop == StopsAt(k.send.win, Head(k.send), Head(k.send) + acks)
    requires k1 == FastTimeout(SendLoneUnsent(SkipAcked(AckCumulative(k, acks, env))))
    ensures Takes(k.send.win, k1.send, stop)
  {
    CumulativeTakes(k, acks, env, stop);
    SkipTakes(AckCumulative(k, acks, env));
    TailKeys(SkipAcked(AckCumulative(k, acks, env)));
  }

  /** The acknowledgement's number takes off exactly the packets below where it stops: those it covers, as
      far as they have all been sent. */
  lemma AdvanceTakes(k: Sock, k1: Sock, p: Packet, env: Env)
    requires SenderInv(k) && k1 == AdvanceSendWindow(k, p, AckCount(W(k.send.next), k.send.count, p.ackNr), env)
    ensures var acks := AckCount(W(k.send.next), k.send.count, p.ackNr);
            var stop := StopsAt(k.send.win, Head(k.send), Head(k.send) + acks);
            k1.send.win.Keys == set n | n in k.send.win && n >= stop
    ensures SenderInv(k1) && LoneSent(k1.send)
  {
    var acks := AckCount(W(k.send.next), k.send.count, p.ackNr);
    var stop := StopsAt(k.send.win, Head(k.send), Head(k.send) + acks);
    AdvanceSendWindowKeeps(k, p, acks, env);
    AdvanceMovesOn(k, k1, p, acks, env, stop);
    TakesWhole(k.send.win, k1, stop);
  }

  lemma AdvanceMovesOn(k: Sock, k1: Sock, p: Packet, acks: nat, env: Env, stop: int)
    requires acks <= k.send.count && forall n :: n in k.send.win ==> n >= Head(k.send)
    requires stop == StopsAt(k.send.win, Head(k.send), Head(k.send) + acks)
    requires k1 == AdvanceSendWindow(k, p, acks, env)
    ensures Takes(k.send.win, k1.send, stop)
  {
    NoteCounts(k, p, acks);
    WindowMovesOn(RaiseFastResend(AdvanceState(k, p, acks), p.ackNr), k1, acks, env, stop);
  }

  lemma TakesWhole(win: map<int, OutPkt>, k1: Sock, stop: int)
    requires SenderInv(k1) && Takes(win, k1.send, stop)
    ensures k1.send.win.Keys == (set n | n in win && n >= stop) && LoneSent(k1.send)
  {
    var stay := set n | n in win && n >= stop;
    forall n
      ensures n in k1.send.win.Keys <==> n in stay
    {
      assert n in k1.send.win <==> n in win && n >= stop;
    }
  }

  /** What an examined packet takes off the window: by its number exactly the packets below where that
      stops, and then by its mask exactly the packets above the new head that were sent and have
      their bit set. Nothing else leaves and nothing is added. */
  lemma ArrivalTakesExactly(k: Sock, k1: Sock, k': Sock, p: Packet, env: Env)
    requires SenderInv(k) && Examined(k, p) && k.state != SynSent && k' == ProcessIncoming(k, p, env).0
    requires k1 == AdvanceSendWindow(k, p, AckCount(W(k.send.next), k.send.count, p.ackNr), env)
    requires p.sack.Some? ==> |p.sack.value| <= 255
    ensures var acks := AckCount(W(k.send.next), k.send.count, p.ackNr);
            var stop := StopsAt(k.send.win, Head(k.send), Head(k.send) + acks);
            k1.send.win.Keys == set n | n in k.send.win && n >= stop
    ensures k'.send.win.Keys
         == set n | n in k1.send.win
                    && !(p.sack.Some? && TakenOff(k1.send, p.ackNr + 2, p.sack.value, 8 * |p.sack.value|, n))
  {
    AdvanceTakes(k, k1, p, env);
    ReceivingKeepsSend(k, k1, k', p, env);
    MaskTakes(k1, k'.send, p, env);
  }

  /** What the mask of the packet, if it has one, makes of the window. */
  function AfterMask(k1: Sock, p: Packet, env: Env): SendState {
    if p.sack.Some? then SelectiveAck(k1, p.ackNr + 2, p.sack.value, env).send else k1.send
  }

  lemma MaskTakes(k1: Sock, s: SendState, p: Packet, env: Env)
    requires SenderInv(k1) && s == AfterMask(k1, p, env) && (p.sack.Some? ==> |p.sack.value| <= 255)
    ensures s.win.Keys
         == set n | n in k1.send.win
                    && !(p.sack.Some? && TakenOff(k1.send, p.ackNr + 2, p.sack.value, 8 * |p.sack.value|, n))
  {
    if p.sack.Some? {
      SelectiveAckExact(k1, p.ackNr + 2, p.sack.value, env);
    }
  }

  lemma ReceivingKeepsSend(k: Sock, k1: Sock, k': Sock, p: Packet, env: Env)
    requires Examined(k, p) && k.state != SynSent && k' == ProcessIncoming(k, p, env).0
    requires k1 == AdvanceSendWindow(k, p, AckCount(W(k.send.next), k.send.count, p.ackNr), env)
    ensures k'.send == AfterMask(k1, p, env)
  {
    DeliverDataKeepsSender(ReopenWindow(ProcessAcks(k, p, env), env), p, IncomingOffset(k, p), env);
  }

  /** A packet that was held back is not held back alone: when an examined packet leaves one packet in
      the window, that one has been sent. */
  lemma LoneIsSent(k: Sock, k': Sock, p: Packet, env: Env)
    requires SenderInv(k) && Examined(k, p) && k.state != SynSent && k' == ProcessIncoming(k, p, env).0
    requires p.sack.Some? ==> |p.sack.value| <= 255
    ensures LoneSent(k'.send)
  {
    var k1 := AdvanceSendWindow(k, p, AckCount(W(k.send.next), k.send.count, p.ackNr), env);
    AdvanceTakes(k, k1, p, env);
    ReceivingKeepsSend(k, k1, k', p, env);
    MaskKeepsLone(k1, k'.send, p, env);
  }

  lemma MaskKeepsLone(k: Sock, s: SendState, p: Packet, env: Env)
    requires SenderInv(k) && s == AfterMask(k, p, env) && (p.sack.Some? ==> |p.sack.value| <= 255)
    requires LoneSent(k.send)
    ensures LoneSent(s)
  {
    if p.sack.Some? {
      SelectiveAckExact(k, p.ackNr + 2, p.sack.value, env);
      SelectiveAckKeeps(k, p.ackNr + 2, p.sack.value, env);
      SelectiveAckThinned(k, p.ackNr + 2, p.sack.value, env);
    }
  }
}
