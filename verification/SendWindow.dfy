/** What the sender puts on the wire of its own accord: which packets a flush sends, in which order,
    and how the congestion window and the peer's window bound what is in flight. */
module SendWindow {
  import opened Serial
  import opened Protocol
  import opened Conservation
  import opened Segmentation
  import opened FlushCursor
  import GiveUp
  import Ring
  import opened FastResending

  // ---------------------------------------------------------------- what a flush sends

  /** The numbers of `[lo, hi)` that wait to be sent, lowest first. */
  ghost function Due(win: map<int, OutPkt>, lo: int, hi: int): seq<int>
    decreases hi - lo
  {
    if lo >= hi then []
    else if Settled(win, lo) then Due(win, lo + 1, hi)
    else [lo] + Due(win, lo + 1, hi)
  }

  lemma {:induction false} DueAgrees(win: map<int, OutPkt>, win': map<int, OutPkt>, lo: int, hi: int)
    requires forall n :: lo <= n < hi ==> Settled(win, n) == Settled(win', n)
    ensures Due(win, lo, hi) == Due(win', lo, hi)
    decreases hi - lo
  {
    if lo < hi {
      DueAgrees(win, win', lo + 1, hi);
    }
  }

  lemma {:induction false} DueIsWaiting(win: map<int, OutPkt>, lo: int, hi: int)
    ensures forall n :: n in Due(win, lo, hi) <==> lo <= n < hi && !Settled(win, n)
    ensures forall i, j :: 0 <= i < j < |Due(win, lo, hi)| ==> Due(win, lo, hi)[i] < Due(win, lo, hi)[j]
    decreases hi - lo
  {
    if lo < hi {
      DueIsWaiting(win, lo + 1, hi);
      var rest := Due(win, lo + 1, hi);
      assert forall i :: 0 <= i < |rest| ==> rest[i] in rest;
    }
  }

  /** The packet is sent once more and is in flight. */
  predicate SentOnce(pkt: OutPkt, pkt': OutPkt) {
    && pkt' == pkt.(transmissions := pkt.transmissions + 1, needResend := pkt'.needResend)
    && InFlight(pkt')
  }

  /** The frame is the packet `n`, with the acknowledgement of `ack`. */
  ghost predicate Carries(p: Packet, t: Tag, pkt: OutPkt, n: int, ack: int) {
    && p.typ == pkt.typ && p.seqNr == pkt.seqNr && p.payload == pkt.payload && p.windowSize == pkt.windowSize
    && p.ackNr == W(ack) && p.sack == None && t == Tag(n, ack)
  }

  /** From `k` to `k'` the packets `due` were sent, one after the other, and nothing else. */
  ghost predicate SentInTurn(k: Sock, k': Sock, due: seq<int>) {
    && |k'.out| == |k.out| + |due| && |k'.tags| == |k.tags| + |due| && k.out <= k'.out && k.tags <= k'.tags
    && k'.recv == k.recv && k'.send.win.Keys == k.send.win.Keys && (due == [] ==> k'.ctl == k.ctl)
    && (forall i :: 0 <= i < |due| ==>
          due[i] in k.send.win
          && Carries(k'.out[|k.out| + i], k'.tags[|k.tags| + i], k.send.win[due[i]], due[i], k.recv.ack))
    && (forall n :: n in k.send.win ==>
          if n in due then SentOnce(k.send.win[n], k'.send.win[n]) else k'.send.win[n] == k.send.win[n])
  }

  lemma SentNext(k: Sock, n: int, k': Sock, due: seq<int>)
    requires n in k.send.win && n !in due && SentInTurn(SendPacket(k, n), k', due)
    ensures SentInTurn(k, k', [n] + due)
  {
    var k1 := SendPacket(k, n);
    forall i | 0 <= i < |[n] + due|
      ensures ([n] + due)[i] in k.send.win
      ensures Carries(k'.out[|k.out| + i], k'.tags[|k.tags| + i], k.send.win[([n] + due)[i]], ([n] + due)[i],
                      k.recv.ack)
    {
      if i == 0 {
        assert k'.out[|k.out|] == k1.out[|k.out|] && k'.tags[|k.tags|] == k1.tags[|k.tags|];
      } else {
        assert due[i - 1] in k1.send.win;
        assert |k.out| + i == |k1.out| + (i - 1);
      }
    }
  }

  /** What a scan of the last `left` numbers does with those that wait: it sends them in turn until
      the window is full, or all but a last one that is held back. */
  ghost predicate ScanSends(k: Sock, r: (Sock, bool), due: seq<int>, sent: nat, env: Env) {
    && sent <= |due| && SentInTurn(k, r.0, due[..sent])
    && r.0.send == k.send.(win := r.0.send.win)
    && (r.1 ==> sent < |due| && IsFull(r.0, -1, env))
    && (!r.1 && sent < |due| ==> sent == |due| - 1 && due[sent] == k.send.next - 1 && HeldBack(r.0, env))
  }

  lemma {:induction false} FullScanSends(k: Sock, left: nat, env: Env) returns (sent: nat)
    ensures ScanSends(k, FullScan(k, left, env), Due(k.send.win, k.send.next - left, k.send.next), sent, env)
    decreases left
  {
    sent := 0;
    if left > 0 {
      var n := k.send.next - left;
      if Settled(k.send.win, n) {
        sent := FullScanSends(k, left - 1, env);
      } else if IsFull(k, -1, env) {
      } else if left != 1 || k.send.count == 1 || |k.send.win[n].payload| >= env.packetSize {
        var k1 := SendPacket(k, n);
        DueAgrees(k.send.win, k1.send.win, n + 1, k.send.next);
        sent := FullScanSends(k1, left - 1, env);
        ScanSendsNext(k, k1, FullScan(k1, left - 1, env), n, Due(k.send.win, n + 1, k.send.next), sent, env);
        sent := sent + 1;
      } else {
        LastIsHeld(k, env);
      }
    }
  }

  /** The last packet waits, and is held back. */
  lemma LastIsHeld(k: Sock, env: Env)
    requires !Settled(k.send.win, k.send.next - 1) && !IsFull(k, -1, env) && HeldBack(k, env)
    ensures ScanSends(k, FullScan(k, 1, env), Due(k.send.win, k.send.next - 1, k.send.next), 0, env)
  {
    assert FullScan(k, 1, env) == (k, false);
    assert Due(k.send.win, k.send.next - 1, k.send.next)
        == [k.send.next - 1] + Due(k.send.win, k.send.next, k.send.next) == [k.send.next - 1];
  }

  lemma ScanSendsNext(k: Sock, k1: Sock, r: (Sock, bool), n: int, rest: seq<int>, sent: nat, env: Env)
    requires n in k.send.win && k1 == SendPacket(k, n) && rest == Due(k.send.win, n + 1, k.send.next)
    requires ScanSends(k1, r, rest, sent, env)
    ensures ScanSends(k, r, [n] + rest, sent + 1, env)
  {
    NotDueAgain(k.send.win, n, k.send.next, sent);
    SentNext(k, n, r.0, rest[..sent]);
    assert ([n] + rest)[..sent + 1] == [n] + rest[..sent];
    assert r.1 || sent >= |rest| || ([n] + rest)[sent + 1] == rest[sent];
  }

  lemma NotDueAgain(win: map<int, OutPkt>, n: int, hi: int, sent: nat)
    requires sent <= |Due(win, n + 1, hi)|
    ensures n !in Due(win, n + 1, hi)[..sent]
  {
    var due := Due(win, n + 1, hi);
    DueIsWaiting(win, n + 1, hi);
    forall i | 0 <= i < sent
      ensures due[i] > n
    {
      assert due[i] in due;
    }
  }

  /** The flush sends what waits, oldest first, each packet once. It returns true only when the window
      has become full with something left to send, and false only when nothing waits any more, or
      only a last packet that is held back to be filled up. */
  lemma FlushSends(k: Sock, env: Env) returns (sent: nat)
    requires FlushAgrees(k, env)
    ensures var (k', full) := Flush(k, env);
            var due := Due(k.send.win, Head(k.send), k.send.next);
            && sent <= |due| && SentInTurn(k, k', due[..sent])
            && (full ==> sent < |due| && IsFull(k', -1, env))
            && (!full && sent < |due| ==> sent == |due| - 1 && due[sent] == k.send.next - 1 && HeldBack(k', env))
  {
    FlushExactly(k, env);
    sent := FullScanSends(k, k.send.count, env);
    UpToCursorSends(k, FullScan(k, k.send.count, env), Flush(k, env), sent, env);
  }

  lemma UpToCursorSends(k: Sock, r: (Sock, bool), r': (Sock, bool), sent: nat, env: Env)
    requires SameOutcome(r, r')
    requires ScanSends(k, r, Due(k.send.win, Head(k.send), k.send.next), sent, env)
    ensures var due := Due(k.send.win, Head(k.send), k.send.next);
            && SentInTurn(k, r'.0, due[..sent])
            && (r'.1 ==> sent < |due| && IsFull(r'.0, -1, env))
            && (!r'.1 && sent < |due| ==> sent == |due| - 1 && due[sent] == k.send.next - 1 && HeldBack(r'.0, env))
  {
  }

  // ---------------------------------------------------------------- the limits

  /** No packet of the window is longer than that. */
  ghost predicate Fitting(win: map<int, OutPkt>, size: nat) {
    forall n :: n in win ==> |win[n].payload| <= size
  }

  /** What is in flight is within the congestion limit and within the peer's window, but for `excess`. */
  predicate Within(k: Sock, env: Env, excess: nat) {
    k.ctl.curWindow <= env.windowLimit + excess && k.ctl.curWindow <= k.send.maxWindowUser + excess
  }

  /** Nothing was sent, or what is in flight now is within the limits. */
  ghost predicate SentWithin(k: Sock, k': Sock, env: Env, excess: nat) {
    && k'.send.maxWindowUser == k.send.maxWindowUser
    && ((k'.out == k.out && k'.ctl.curWindow == k.ctl.curWindow) || Within(k', env, excess))
  }

  lemma {:induction false} FlushScanWithin(k: Sock, left: nat, inPrefix: bool, env: Env, excess: nat)
    requires Fitting(k.send.win, env.packetSize + excess)
    ensures SentWithin(k, FlushScan(k, left, inPrefix, env).0, env, excess)
    decreases left
  {
    if left > 0 {
      var n := k.send.next - left;
      var cursor := if inPrefix then W(n + 1) else k.send.flushScanStart;
      if Settled(k.send.win, n) {
        FlushScanWithin(WithCursor(k, cursor), left - 1, inPrefix, env, excess);
      } else if !IsFull(k, -1, env) {
        if left != 1 || k.send.count == 1 || |k.send.win[n].payload| >= env.packetSize {
          var k1 := WithCursor(SendPacket(k, n), cursor);
          SendsWithin(k, n, env, excess);
          FlushScanWithin(k1, left - 1, inPrefix, env, excess);
          SentThen(k, k1, FlushScan(k1, left - 1, inPrefix, env).0, env, excess);
        } else {
          FlushScanWithin(k, left - 1, false, env, excess);
        }
      }
    }
  }

  lemma SentThen(k: Sock, k1: Sock, k': Sock, env: Env, excess: nat)
    requires k1.send.maxWindowUser == k.send.maxWindowUser && Within(k1, env, excess) && SentWithin(k1, k', env, excess)
    ensures SentWithin(k, k', env, excess)
  {
  }

  lemma SendsWithin(k: Sock, n: int, env: Env, excess: nat)
    requires n in k.send.win && Fitting(k.send.win, env.packetSize + excess) && !IsFull(k, -1, env)
    ensures Within(SendPacket(k, n), env, excess) && Fitting(SendPacket(k, n).send.win, env.packetSize + excess)
  {
  }

  lemma {:induction false} WriteRoundsBounds(k: Sock, typ: PacketType, data: Bytes, env: Env)
    ensures var k' := WriteRounds(k, typ, data, env);
            k'.send.maxWindowUser == k.send.maxWindowUser && k'.out == k.out && k'.tags == k.tags && k'.ctl == k.ctl
    decreases |data|
  {
    var added := Added(k.send, data, env.packetSize);
    if added < |data| {
      WriteRoundsBounds(WriteRound(k, typ, data, env), typ, data[added..], env);
    }
  }

  lemma WriteOutgoingPacketWithin(k: Sock, typ: PacketType, data: Bytes, env: Env, excess: nat)
    requires SenderInv(k) && k.send.count < OUTGOING_BUFFER_MAX_SIZE && |data| <= env.packetSize
    requires Fitting(k.send.win, env.packetSize + excess)
    ensures SentWithin(k, WriteOutgoingPacket(k, typ, data, env), env, excess)
    ensures Fitting(WriteOutgoingPacket(k, typ, data, env).send.win, env.packetSize + excess)
  {
    var k0 := if k.send.count == 0 then k.(ctl := k.ctl.(retransmitTimeout := env.rto)) else k;
    WriteRoundsBounds(k0, typ, data, env);
    WriteRoundsWrote(k0, typ, data, env);
    WriteOutgoingPacketWrote(k, typ, data, env);
    var k1 := WriteRounds(k0, typ, data, env);
    assert Fitting(k1.send.win, env.packetSize + excess);
    FlushScanWithin(k1, FlushSpan(k1.send), true, env, excess);
  }

  lemma {:induction false} WriteChunksWithin(k: Sock, data: Bytes, env: Env, excess: nat)
    requires SenderInv(k) && !k.send.finSent && Fitting(k.send.win, env.packetSize + excess)
    ensures SentWithin(k, WriteChunks(k, data, env).0, env, excess)
    decreases |data|
  {
    var num := Min(|data|, env.packetSize);
    if !IsFull(k, num, env) {
      var k1 := WriteOutgoingPacket(k, StData, data[..num], env);
      WriteOutgoingPacketWithin(k, StData, data[..num], env, excess);
      WriteOutgoingPacketKeeps(k, StData, data[..num], env);
      if Min(|data| - num, env.packetSize) != 0 {
        WriteChunksWithin(k1, data[num..], env, excess);
      }
    }
  }

  /** Flow control: whenever `writev`, `close` or `shutdown` sends anything, what is in flight
      afterwards exceeds neither the congestion limit nor the peer's window by more than the
      longest packet of the window exceeds a whole packet. */
  lemma CallWithin(k: Sock, k': Sock, c: Call, excess: nat)
    requires SenderInv(k) && k' == Do(k, c) && (c.CallWritev? || c.CallClose? || c.CallShutdown?)
    requires Fitting(k.send.win, c.env.packetSize + excess)
    ensures SentWithin(k, k', c.env, excess)
  {
    match c {
      case CallWritev(data, env) =>
        if k.state == Connected && !k.send.finSent {
          WriteChunksWithin(k, data, env, excess);
        }
      case CallClose(env) =>
        var k1 := MarkReadShutdown(k);
        FinWithin(k, k1.(send := k1.send.(closeRequested := true)), env, excess);
      case CallShutdown(how, env) => FinWithin(k, if how != ShutWr then MarkReadShutdown(k) else k, env, excess);
    }
  }

  lemma FinWithin(k: Sock, k1: Sock, env: Env, excess: nat)
    requires SenderInv(k) && Fitting(k.send.win, env.packetSize + excess)
    requires k1.send == k.send.(closeRequested := k1.send.closeRequested) && k1.out == k.out && k1.ctl == k.ctl
    ensures !k1.send.finSent ==> SentWithin(k, SendFin(k1, env), env, excess)
  {
    if !k1.send.finSent {
      var k2 := k1.(send := k1.send.(finSent := true));
      SameWindow(k, k2);
      WriteOutgoingPacketWithin(k2, StFin, [], env, excess);
    }
  }

  /** So does the flush of `check_timeouts`. */
  lemma FlushWithin(k: Sock, env: Env, excess: nat)
    requires Fitting(k.send.win, env.packetSize + excess)
    ensures SentWithin(k, Flush(k, env).0, env, excess)
  {
    FlushScanWithin(k, FlushSpan(k.send), true, env, excess);
  }

  // ---------------------------------------------------------------- a closed window

  /** While another whole packet does not fit, the flush sends nothing. */
  lemma {:induction false} FlushScanWhenFull(k: Sock, left: nat, inPrefix: bool, env: Env)
    requires IsFull(k, -1, env)
    ensures var k' := FlushScan(k, left, inPrefix, env).0; k' == WithCursor(k, k'.send.flushScanStart)
    decreases left
  {
    if left > 0 && Settled(k.send.win, k.send.next - left) {
      var cursor := if inPrefix then W(k.send.next - left + 1) else k.send.flushScanStart;
      FlushScanWhenFull(WithCursor(k, cursor), left - 1, inPrefix, env);
    }
  }

  lemma WriteWhenClosed(k: Sock, typ: PacketType, data: Bytes, env: Env)
    requires k.send.maxWindowUser == 0 && k.ctl.curWindow >= 0 && env.packetSize > 0
    ensures WriteOutgoingPacket(k, typ, data, env).out == k.out
  {
    var k0 := if k.send.count == 0 then k.(ctl := k.ctl.(retransmitTimeout := env.rto)) else k;
    WriteRoundsBounds(k0, typ, data, env);
    var k1 := WriteRounds(k0, typ, data, env);
    assert IsFull(k1, -1, env);
    FlushScanWhenFull(k1, FlushSpan(k1.send), true, env);
  }

  /** Into a window the peer has closed nothing is sent, whatever the application does, and `writev`
      accepts nothing. */
  lemma NothingIntoClosedWindow(k: Sock, k': Sock, c: Call)
    requires SenderInv(k) && k' == Do(k, c) && (c.CallWritev? || c.CallClose? || c.CallShutdown?)
    requires k.send.maxWindowUser == 0 && c.env.packetSize > 0
    ensures k'.out == k.out
    ensures c.CallWritev? && c.data != [] ==>
              && Writev(k, c.data, c.env).1 == 0 && k'.send == k.send
              && k'.state == if k.state == Connected && !k.send.finSent then ConnectedFull else k.state
  {
    match c {
      case CallWritev(data, env) =>
        WriteWhenClosed(k, StData, [], env);
        assert data[..0] == [];
      case CallClose(env) =>
        var k1 := MarkReadShutdown(k);
        var k2 := k1.(send := k1.send.(closeRequested := true, finSent := true));
        WriteWhenClosed(k2, StFin, [], env);
      case CallShutdown(how, env) =>
        var k1 := if how != ShutWr then MarkReadShutdown(k) else k;
        WriteWhenClosed(k1.(send := k1.send.(finSent := true)), StFin, [], env);
    }
  }

  // ---------------------------------------------------------------- writev

  /** There is no room for `size` more bytes: too many packets, or one of the two windows is too small. */
  predicate NoRoom(k: Sock, size: nat, env: Env) {
    || k.send.count >= OUTGOING_BUFFER_MAX_SIZE - 1
    || k.ctl.curWindow + size > env.windowLimit
    || k.ctl.curWindow + size > k.send.maxWindowUser
  }

  /** Only a connected socket that has not ended its stream is written to. */
  lemma WritevElsewhere(k: Sock, data: Bytes, env: Env)
    requires k.state != Connected || k.send.finSent
    ensures Writev(k, data, env) == (k, 0)
  {
  }

  /** `writev` accepts all that there is room for: it stops short only if there is none for the next
      piece; and it leaves the socket waiting for room exactly if it stopped short and there is
      none for a whole packet either. */
  lemma WritevTakesAllThatFits(k: Sock, data: Bytes, env: Env)
    requires k.state == Connected && !k.send.finSent && env.packetSize > 0 && data != []
    ensures var (k', sent) := Writev(k, data, env);
            && sent <= |data|
            && (sent < |data| ==> NoRoom(k', Min(|data| - sent, env.packetSize), env))
            && (k'.state == ConnectedFull <==> sent < |data| && NoRoom(k', env.packetSize, env))
            && (k'.state != ConnectedFull ==> k'.state == Connected)
  {
    WriteChunksTakes(k, data, env);
  }

  lemma {:induction false} WriteChunksTakes(k: Sock, data: Bytes, env: Env)
    requires k.state == Connected && env.packetSize > 0 && data != []
    ensures var (k', sent) := WriteChunks(k, data, env);
            && sent <= |data|
            && (sent < |data| ==> NoRoom(k', Min(|data| - sent, env.packetSize), env))
            && (k'.state == ConnectedFull <==> sent < |data| && NoRoom(k', env.packetSize, env))
            && (k'.state != ConnectedFull ==> k'.state == Connected)
    decreases |data|
  {
    var num := Min(|data|, env.packetSize);
    if !IsFull(k, num, env) {
      GiveUp.WriteOutgoingPacketState(k, StData, data[..num], env);
      if Min(|data| - num, env.packetSize) != 0 {
        WriteChunksTakes(WriteOutgoingPacket(k, StData, data[..num], env), data[num..], env);
      }
    }
  }


  // ---------------------------------------------------------------- whose window it is

  lemma AckCumulativeBounds(k: Sock, acks: nat, env: Env)
    ensures AckCumulative(k, acks, env).send.maxWindowUser == k.send.maxWindowUser
    decreases acks
  {
  }

  lemma SkipAckedBounds(k: Sock)
    ensures SkipAcked(k).send.maxWindowUser == k.send.maxWindowUser
    decreases k.send.count
  {
  }

  lemma SackScanBounds(c: Scan, base: int, mask: Mask, bits: int, env: Env)
    requires -2 <= bits < 8 * |mask|
    ensures SackScan(c, base, mask, bits, env).sock.send.maxWindowUser == c.sock.send.maxWindowUser
    decreases bits + 2
  {
  }

  lemma ResendLastBounds(k: Sock, resends: seq<U16>, budget: nat)
    ensures ResendLast(k, resends, budget).send.maxWindowUser == k.send.maxWindowUser
    decreases |resends|
  {
  }

  lemma AdvanceBounds(k: Sock, p: Packet, acks: nat, env: Env)
    ensures AdvanceSendWindow(k, p, acks, env).send.maxWindowUser == p.windowSize
  {
    var k1 := RaiseFastResend(AdvanceState(k, p, acks), p.ackNr);
    assert k1.send.maxWindowUser == p.windowSize;
    AckCumulativeBounds(k1, acks, env);
    SkipAckedBounds(AckCumulative(k1, acks, env));
    TailBounds(SkipAcked(AckCumulative(k1, acks, env)));
  }

  lemma TailBounds(k: Sock)
    ensures FastTimeout(SendLoneUnsent(k)).send.maxWindowUser == k.send.maxWindowUser
  {
  }

  lemma SelectiveAckBounds(k: Sock, base: int, mask: Mask, env: Env)
    ensures SelectiveAck(k, base, mask, env).send.maxWindowUser == k.send.maxWindowUser
  {
    if k.send.count != 0 {
      var c := SackScan(Scan(k, 0, []), base, mask, 8 * |mask| - 1, env);
      SackScanBounds(Scan(k, 0, []), base, mask, 8 * |mask| - 1, env);
      ResendLastBounds(c.sock, SackCandidates(c, base), MAX_RESENDS);
    }
  }

  lemma ProcessAcksBounds(k: Sock, p: Packet, env: Env)
    ensures ProcessAcks(k, p, env).send.maxWindowUser == p.windowSize
  {
    var acks := AckCount(W(k.send.next), k.send.count, p.ackNr);
    AdvanceBounds(k, p, acks, env);
    if p.sack.Some? {
      SelectiveAckBounds(AdvanceSendWindow(k, p, acks, env), p.ackNr + 2, p.sack.value, env);
    }
  }

  lemma IncomingBounds(k: Sock, p: Packet, env: Env)
    ensures ProcessIncoming(k, p, env).0.send.maxWindowUser
         == if Examined(k, p) then p.windowSize else k.send.maxWindowUser
  {
    var k0 := LearnPeerNumber(k, p);
    ProcessAcksBounds(k0, p, env);
    var k1 := ReopenWindow(ProcessAcks(k0, p, env), env);
    DeliverDataKeepsSender(k1, p, IncomingOffset(k0, p), env);
  }

  lemma {:induction false} WriteChunksBounds(k: Sock, data: Bytes, env: Env)
    ensures WriteChunks(k, data, env).0.send.maxWindowUser == k.send.maxWindowUser
    decreases |data|
  {
    var num := Min(|data|, env.packetSize);
    if !IsFull(k, num, env) {
      WriteBounds(k, StData, data[..num], env);
      if Min(|data| - num, env.packetSize) != 0 {
        WriteChunksBounds(WriteOutgoingPacket(k, StData, data[..num], env), data[num..], env);
      }
    }
  }

  lemma WriteBounds(k: Sock, typ: PacketType, data: Bytes, env: Env)
    ensures WriteOutgoingPacket(k, typ, data, env).send.maxWindowUser == k.send.maxWindowUser
  {
    var k0 := if k.send.count == 0 then k.(ctl := k.ctl.(retransmitTimeout := env.rto)) else k;
    WriteRoundsBounds(k0, typ, data, env);
    var k1 := WriteRounds(k0, typ, data, env);
    FlushScanShape(k1, FlushSpan(k1.send), true, env);
  }

  lemma TimeoutsBounds(k: Sock, timers: Timers, before: Env, after: Env)
    ensures CheckTimeouts(k, timers, before, after).send.maxWindowUser
         == if TimeoutActive(k.state) && timers.zeroWindowOver && k.send.maxWindowUser == 0 then PACKET_SIZE
            else k.send.maxWindowUser
  {
    FlushScanShape(k, FlushSpan(k.send), true, before);
    RunTimersBounds(FlushUnlessDestroyed(k, before), timers, after);
  }

  lemma RunTimersBounds(k: Sock, timers: Timers, env: Env)
    ensures RunTimers(k, timers, env).send.maxWindowUser
         == if TimeoutActive(k.state) then LiftZeroWindow(k, timers).send.maxWindowUser else k.send.maxWindowUser
  {
    RtoExpiredBounds(LiftZeroWindow(k, timers), timers.probeTimedOut);
  }

  lemma RtoExpiredBounds(k: Sock, probeTimedOut: bool)
    ensures RtoExpired(k, probeTimedOut).0.send.maxWindowUser == k.send.maxWindowUser
  {
  }

  /** The limit is the peer's: the window of the last packet that was examined, or one packet once a
      closed window has stayed closed for its time. No other call changes it. */
  lemma WindowIsPeers(k: Sock, k': Sock, c: Call)
    requires k' == Do(k, c)
    ensures k'.send.maxWindowUser ==
              match c
              case CallIncoming(p, _) => if Examined(k, p) then p.windowSize else k.send.maxWindowUser
              case CallTimeouts(timers, _, _) =>
                if TimeoutActive(k.state) && timers.zeroWindowOver && k.send.maxWindowUser == 0 then PACKET_SIZE
                else k.send.maxWindowUser
              case _ => k.send.maxWindowUser
  {
    match c {
      case CallWritev(data, env) => WriteChunksBounds(k, data, env);
      case CallIncoming(p, env) => IncomingBounds(k, p, env);
      case CallTimeouts(timers, before, after) => TimeoutsBounds(k, timers, before, after);
      case CallClose(env) =>
        var k1 := MarkReadShutdown(k);
        WriteBounds(k1.(send := k1.send.(closeRequested := true, finSent := true)), StFin, [], env);
      case CallShutdown(how, env) =>
        var k1 := if how != ShutWr then MarkReadShutdown(k) else k;
        WriteBounds(k1.(send := k1.send.(finSent := true)), StFin, [], env);
      case _ =>
    }
  }

  // ---------------------------------------------------------------- over runs

  /** Packets may leave, but none changes its payload, or becomes one that was not sent. */
  ghost predicate Thinned(k: Sock, k': Sock) {
    forall n :: n in k'.send.win ==>
      && n in k.send.win && k'.send.win[n].payload == k.send.win[n].payload
      && k'.send.win[n].transmissions >= k.send.win[n].transmissions
  }

  lemma ThinnedFits(k: Sock, k': Sock, size: nat)
    requires Thinned(k, k') && Fitting(k.send.win, size)
    ensures Fitting(k'.send.win, size)
  {
  }

  lemma AckCumulativeThinned(k: Sock, acks: nat, env: Env)
    ensures Thinned(k, AckCumulative(k, acks, env))
    decreases acks
  {
  }

  lemma SackScanThinned(c: Scan, base: int, mask: Mask, bits: int, env: Env)
    requires -2 <= bits < 8 * |mask|
    ensures Thinned(c.sock, SackScan(c, base, mask, bits, env).sock)
    decreases bits + 2
  {
  }

  lemma {:induction false} ResendLastThinned(k: Sock, resends: seq<U16>, budget: nat)
    ensures Thinned(k, ResendLast(k, resends, budget))
    decreases |resends|
  {
    if resends != [] && budget != 0 {
      var v := resends[|resends| - 1];
      var rest := resends[..|resends| - 1];
      var n := if k.send.ringSize == 0 then v else Ring.Alias(v, Head(k.send), k.send.ringSize);
      if n in k.send.win {
        ResendLastThinned(ResendOne(k, v, n), rest, budget - 1);
      } else {
        ResendLastThinned(k, rest, budget);
      }
    }
  }

  lemma AdvanceThinned(k: Sock, p: Packet, acks: nat, env: Env)
    ensures Thinned(k, AdvanceSendWindow(k, p, acks, env))
  {
    var k1 := RaiseFastResend(AdvanceState(k, p, acks), p.ackNr);
    assert k1.send.win == k.send.win;
    AckCumulativeThinned(k1, acks, env);
    SkipAckedThinned(AckCumulative(k1, acks, env));
    TailThinned(SkipAcked(AckCumulative(k1, acks, env)));
  }

  lemma SkipAckedThinned(k: Sock)
    ensures SkipAcked(k).send.win == k.send.win
    decreases k.send.count
  {
  }

  lemma TailThinned(k: Sock)
    ensures Thinned(k, FastTimeout(SendLoneUnsent(k)))
  {
  }

  lemma SelectiveAckThinned(k: Sock, base: int, mask: Mask, env: Env)
    ensures Thinned(k, SelectiveAck(k, base, mask, env))
  {
    if k.send.count != 0 {
      var c := SackScan(Scan(k, 0, []), base, mask, 8 * |mask| - 1, env);
      SackScanThinned(Scan(k, 0, []), base, mask, 8 * |mask| - 1, env);
      ResendLastThinned(c.sock, SackCandidates(c, base), MAX_RESENDS);
    }
  }

  lemma ProcessAcksThinned(k: Sock, p: Packet, env: Env)
    ensures Thinned(k, ProcessAcks(k, p, env))
  {
    var acks := AckCount(W(k.send.next), k.send.count, p.ackNr);
    AdvanceThinned(k, p, acks, env);
    if p.sack.Some? {
      SelectiveAckThinned(AdvanceSendWindow(k, p, acks, env), p.ackNr + 2, p.sack.value, env);
    }
  }

  lemma IncomingThinned(k: Sock, p: Packet, env: Env)
    ensures Thinned(k, ProcessIncoming(k, p, env).0)
  {
    var k0 := LearnPeerNumber(k, p);
    ProcessAcksThinned(k0, p, env);
    DeliverDataKeepsSender(ReopenWindow(ProcessAcks(k0, p, env), env), p, IncomingOffset(k0, p), env);
  }

  lemma TimeoutsThinned(k: Sock, timers: Timers, before: Env, after: Env)
    ensures Thinned(k, CheckTimeouts(k, timers, before, after))
  {
    FlushScanPayloads(k, FlushSpan(k.send), true, before);
    var k0 := FlushUnlessDestroyed(k, before);
    RunTimersThinned(k0, timers, after);
  }

  lemma RunTimersThinned(k: Sock, timers: Timers, env: Env)
    ensures Thinned(k, RunTimers(k, timers, env))
  {
    RtoExpiredThinned(LiftZeroWindow(k, timers), timers.probeTimedOut);
  }

  lemma RtoExpiredThinned(k: Sock, probeTimedOut: bool)
    ensures Thinned(k, RtoExpired(k, probeTimedOut).0)
  {
  }

  /** The environments of the call cut packets of at most `size` bytes. */
  predicate PacketsUpTo(c: Call, size: nat) {
    match c
    case CallTimeouts(_, _, _) => true
    case CallReset => true
    case CallIcmpError => true
    case _ => c.env.packetSize <= size
  }

  lemma FinFits(k: Sock, k1: Sock, env: Env, size: nat)
    requires SenderInv(k) && Fitting(k.send.win, size) && env.packetSize <= size
    requires k1.send == k.send.(closeRequested := k1.send.closeRequested) && k1.out == k.out && k1.ctl == k.ctl
    ensures !k1.send.finSent ==> Fitting(SendFin(k1, env).send.win, size)
  {
    if !k1.send.finSent {
      var k2 := k1.(send := k1.send.(finSent := true));
      SameWindow(k, k2);
      WriteOutgoingPacketWithin(k2, StFin, [], env, size - env.packetSize);
    }
  }

  lemma WritevFits(k: Sock, data: Bytes, env: Env, size: nat)
    requires SenderInv(k) && Fitting(k.send.win, size) && env.packetSize <= size
    ensures Fitting(Writev(k, data, env).0.send.win, size)
  {
    WritevSegments(k, data, env);
  }

  lemma DoFits(k: Sock, k': Sock, c: Call, size: nat)
    requires SenderInv(k) && Fitting(k.send.win, size) && PacketsUpTo(c, size) && k' == Do(k, c)
    ensures Fitting(k'.send.win, size)
  {
    match c {
      case CallWritev(data, env) => WritevFits(k, data, env, size);
      case CallIncoming(p, env) => IncomingThinned(k, p, env);
      case CallTimeouts(timers, before, after) => TimeoutsThinned(k, timers, before, after);
      case CallClose(env) =>
        var k1 := MarkReadShutdown(k);
        FinFits(k, k1.(send := k1.send.(closeRequested := true)), env, size);
      case CallShutdown(how, env) => FinFits(k, if how != ShutWr then MarkReadShutdown(k) else k, env, size);
      case _ =>
    }
  }

  lemma {:induction false} FitsOverRuns(k: Sock, calls: seq<Call>, size: nat)
    requires SenderInv(k) && Fitting(k.send.win, size) && forall c :: c in calls ==> PacketsUpTo(c, size)
    ensures SenderInv(DoAll(k, calls)) && Fitting(DoAll(k, calls).send.win, size)
    decreases |calls|
  {
    if calls != [] {
      var init, last := calls[..|calls| - 1], calls[|calls| - 1];
      FitsOverRuns(k, init, size);
      DoKeeps(DoAll(k, init), last);
      DoFits(DoAll(k, init), DoAll(k, calls), last, size);
    }
  }

  /** Over every run from `connect` or `accept_syn` whose packets have at most `size` bytes: whatever
      arrives and whenever the limits change, a call of the application that sends leaves no more
      in flight than the congestion limit and the peer's window of that moment allow, plus what
      `size` exceeds the packet size of that moment by. */
  lemma FlowControlOverRuns(openEnv: Env, seqNr: U16, peerSeq: U16, calls: seq<Call>, c: Call, size: nat)
    requires c.CallWritev? || c.CallClose? || c.CallShutdown?
    requires PacketsUpTo(c, size) && forall c1 :: c1 in calls ==> PacketsUpTo(c1, size)
    ensures var k := DoAll(Connect(Fresh(), seqNr, openEnv), calls);
            SentWithin(k, Do(k, c), c.env, size - c.env.packetSize)
    ensures var k := DoAll(AcceptSyn(Fresh(), peerSeq, seqNr), calls);
            SentWithin(k, Do(k, c), c.env, size - c.env.packetSize)
  {
    ConservationOverRuns(openEnv, seqNr, peerSeq, []);
    RunWithin(Connect(Fresh(), seqNr, openEnv), calls, c, size);
    RunWithin(AcceptSyn(Fresh(), peerSeq, seqNr), calls, c, size);
  }

  lemma RunWithin(k0: Sock, calls: seq<Call>, c: Call, size: nat)
    requires SenderInv(k0) && Fitting(k0.send.win, size) && (c.CallWritev? || c.CallClose? || c.CallShutdown?)
    requires PacketsUpTo(c, size) && forall c1 :: c1 in calls ==> PacketsUpTo(c1, size)
    ensures SentWithin(DoAll(k0, calls), Do(DoAll(k0, calls), c), c.env, size - c.env.packetSize)
  {
    FitsOverRuns(k0, calls, size);
    CallWithin(DoAll(k0, calls), Do(DoAll(k0, calls), c), c, size - c.env.packetSize);
  }
}
