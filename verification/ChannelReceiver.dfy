/** What the receiving side of a channel keeps: it delivers the recorded segments in order, and
    everything it acknowledges has been received. */
module ChannelReceiver {
  import opened Serial
  import opened Protocol
  import opened Conservation
  import opened Sack
  import opened Reorder
  import opened Channel
  import Ring

  // ---------------------------------------------------------------- operations that do not receive

  /** `k'` is `k` after sending some packets of its own, acknowledging what `k` had. */
  ghost predicate Spoke(k: Sock, k': Sock) {
    && k'.recv == k.recv.(lastRcvWin := k'.recv.lastRcvWin, readShutdown := k'.recv.readShutdown)
    && (k.recv.readShutdown ==> k'.recv.readShutdown)
    && (k'.state == SynSent ==> k.state == SynSent)
    && k.out <= k'.out && k.tags <= k'.tags && |k'.out| - |k.out| == |k'.tags| - |k.tags|
    && (forall i :: |k.out| <= i < |k'.out| ==> k'.out[i].ackNr == W(k.recv.ack) && k'.out[i].sack == None)
    && (forall i :: |k.tags| <= i < |k'.tags| ==> k'.tags[i].ackno == k.recv.ack)
    && k.events <= k'.events && Delivered(k'.events) == Delivered(k.events)
  }

  lemma SpokeTransitive(k: Sock, k1: Sock, k2: Sock)
    requires Spoke(k, k1) && Spoke(k1, k2)
    ensures Spoke(k, k2)
  {
  }

  lemma SendPacketSpoke(k: Sock, n: int)
    requires n in k.send.win
    ensures Spoke(k, SendPacket(k, n))
  {
  }

  lemma ReportSpoke(k: Sock, e: Event)
    requires !e.OnRead?
    ensures Spoke(k, Report(k, e))
  {
  }

  lemma {:induction false} FlushScanSpoke(k: Sock, left: nat, inPrefix: bool, env: Env)
    ensures Spoke(k, FlushScan(k, left, inPrefix, env).0)
    decreases left
  {
    if left > 0 {
      var n := k.send.next - left;
      var cursor := if inPrefix then W(n + 1) else k.send.flushScanStart;
      if Settled(k.send.win, n) {
        FlushScanSpoke(WithCursor(k, cursor), left - 1, inPrefix, env);
      } else if !IsFull(k, -1, env) {
        if left != 1 || k.send.count == 1 || |k.send.win[n].payload| >= env.packetSize {
          var k1 := WithCursor(SendPacket(k, n), cursor);
          SendPacketSpoke(k, n);
          FlushScanSpoke(k1, left - 1, inPrefix, env);
          SpokeTransitive(k, k1, FlushScan(k1, left - 1, inPrefix, env).0);
        } else {
          FlushScanSpoke(k, left - 1, false, env);
        }
      }
    }
  }

  lemma {:induction false} WriteRoundsSpoke(k: Sock, typ: PacketType, data: Bytes, env: Env)
    ensures Spoke(k, WriteRounds(k, typ, data, env))
    decreases |data|
  {
    var added := Added(k.send, data, env.packetSize);
    var k1 := WriteRound(k, typ, data, env);
    if added < |data| {
      WriteRoundsSpoke(k1, typ, data[added..], env);
      SpokeTransitive(k, k1, WriteRounds(k1, typ, data[added..], env));
    }
  }

  lemma WriteOutgoingPacketSpoke(k: Sock, typ: PacketType, data: Bytes, env: Env)
    ensures Spoke(k, WriteOutgoingPacket(k, typ, data, env))
  {
    var k0 := if k.send.count == 0 then k.(ctl := k.ctl.(retransmitTimeout := env.rto)) else k;
    WriteRoundsSpoke(k0, typ, data, env);
    var k1 := WriteRounds(k0, typ, data, env);
    FlushScanSpoke(k1, FlushSpan(k1.send), true, env);
    SpokeTransitive(k0, k1, Flush(k1, env).0);
  }

  lemma {:induction false} WriteChunksSpoke(k: Sock, data: Bytes, env: Env)
    ensures Spoke(k, WriteChunks(k, data, env).0)
    decreases |data|
  {
    var num := Min(|data|, env.packetSize);
    if !IsFull(k, num, env) {
      var k1 := WriteOutgoingPacket(k, StData, data[..num], env);
      WriteOutgoingPacketSpoke(k, StData, data[..num], env);
      if Min(|data| - num, env.packetSize) != 0 {
        WriteChunksSpoke(k1, data[num..], env);
        SpokeTransitive(k, k1, WriteChunks(k1, data[num..], env).0);
      }
    }
  }

  lemma {:induction false} AckCumulativeSpoke(k: Sock, acks: nat, env: Env)
    ensures Spoke(k, AckCumulative(k, acks, env))
    decreases acks
  {
    if acks != 0 && k.send.count != 0 {
      var (k1, status) := AckPacket(k, Head(k.send), env);
      if status != NeverSent {
        AckCumulativeSpoke(k1.(send := k1.send.(count := k1.send.count - 1)), acks - 1, env);
      }
    }
  }

  lemma {:induction false} SkipAckedSpoke(k: Sock)
    ensures Spoke(k, SkipAcked(k))
    decreases k.send.count
  {
    if k.send.count > 0 && Head(k.send) !in k.send.win {
      SkipAckedSpoke(k.(send := k.send.(count := k.send.count - 1)));
    }
  }

  lemma FastTimeoutSpoke(k: Sock)
    ensures Spoke(k, FastTimeout(k))
  {
    var n := Head(k.send);
    var k1 := Report(k.(ctl := k.ctl.(fastResend := W(k.ctl.fastResend + 1))), FastResend(W(n), |k.out|));
    ReportSpoke(k.(ctl := k.ctl.(fastResend := W(k.ctl.fastResend + 1))), FastResend(W(n), |k.out|));
    if n in k.send.win {
      SendPacketSpoke(k1, n);
      SpokeTransitive(k, k1, SendPacket(k1, n));
    }
  }

  lemma AdvanceStateSpoke(k: Sock, p: Packet, acks: nat)
    ensures Spoke(k, RaiseFastResend(AdvanceState(k, p, acks), p.ackNr))
  {
    ReportSpoke(k, OnConnect);
  }

  lemma AckAndSkipSpoke(k: Sock, acks: nat, env: Env)
    ensures Spoke(k, SkipAcked(AckCumulative(k, acks, env)))
  {
    AckCumulativeSpoke(k, acks, env);
    SkipAckedSpoke(AckCumulative(k, acks, env));
    SpokeTransitive(k, AckCumulative(k, acks, env), SkipAcked(AckCumulative(k, acks, env)));
  }

  lemma SendLoneUnsentSpoke(k: Sock)
    ensures Spoke(k, SendLoneUnsent(k))
  {
    if k.send.next - 1 in k.send.win {
      SendPacketSpoke(k, k.send.next - 1);
    }
  }

  lemma AdvanceSendWindowSpoke(k: Sock, p: Packet, acks: nat, env: Env)
    ensures Spoke(k, AdvanceSendWindow(k, p, acks, env))
  {
    AdvanceStateSpoke(k, p, acks);
    var k1 := RaiseFastResend(AdvanceState(k, p, acks), p.ackNr);
    AckAndSkipSpoke(k1, acks, env);
    var k3 := SkipAcked(AckCumulative(k1, acks, env));
    SpokeTransitive(k, k1, k3);
    SendLoneUnsentSpoke(k3);
    var k4 := SendLoneUnsent(k3);
    SpokeTransitive(k, k3, k4);
    FastTimeoutSpoke(k4);
    SpokeTransitive(k, k4, FastTimeout(k4));
  }

  lemma {:induction false} SackScanSpoke(c: Scan, base: int, mask: Mask, bits: int, env: Env)
    requires -2 <= bits < 8 * |mask|
    ensures Spoke(c.sock, SackScan(c, base, mask, bits, env).sock)
    decreases bits + 2
  {
    if bits != -2 {
      SackScanSpoke(SackVisit(c, base, mask, bits, env), base, mask, bits - 1, env);
    }
  }

  lemma ResendOneSpoke(k: Sock, v: U16, n: int)
    requires n in k.send.win
    ensures Spoke(k, ResendOne(k, v, n))
  {
    ReportSpoke(k, FastResend(v, |k.out|));
    SendPacketSpoke(Report(k, FastResend(v, |k.out|)), n);
    SpokeTransitive(k, Report(k, FastResend(v, |k.out|)), SendPacket(Report(k, FastResend(v, |k.out|)), n));
  }

  lemma {:induction false} ResendLastSpoke(k: Sock, resends: seq<U16>, budget: nat)
    ensures Spoke(k, ResendLast(k, resends, budget))
    decreases |resends|
  {
    if resends != [] && budget != 0 {
      var v := resends[|resends| - 1];
      var rest := resends[..|resends| - 1];
      var n := if k.send.ringSize == 0 then v else Ring.Alias(v, Head(k.send), k.send.ringSize);
      if n in k.send.win {
        ResendOneSpoke(k, v, n);
        ResendLastSpoke(ResendOne(k, v, n), rest, budget - 1);
        SpokeTransitive(k, ResendOne(k, v, n), ResendLast(ResendOne(k, v, n), rest, budget - 1));
      } else {
        ResendLastSpoke(k, rest, budget);
      }
    }
  }

  lemma SelectiveAckSpoke(k: Sock, base: int, mask: Mask, env: Env)
    ensures Spoke(k, SelectiveAck(k, base, mask, env))
  {
    if k.send.count != 0 {
      SackScanSpoke(Scan(k, 0, []), base, mask, 8 * |mask| - 1, env);
      var c := SackScan(Scan(k, 0, []), base, mask, 8 * |mask| - 1, env);
      ResendLastSpoke(c.sock, SackCandidates(c, base), MAX_RESENDS);
      SpokeTransitive(k, c.sock, ResendLast(c.sock, SackCandidates(c, base), MAX_RESENDS));
    }
  }

  lemma ReopenWindowSpoke(k: Sock, env: Env)
    ensures Spoke(k, ReopenWindow(k, env))
  {
    ReportSpoke(k.(state := Connected), OnWritable);
  }

  lemma ProcessAcksSpoke(k: Sock, p: Packet, env: Env)
    ensures Spoke(k, ReopenWindow(ProcessAcks(k, p, env), env))
  {
    var acks := AckCount(W(k.send.next), k.send.count, p.ackNr);
    AdvanceSendWindowSpoke(k, p, acks, env);
    var k1 := AdvanceSendWindow(k, p, acks, env);
    if p.sack.Some? {
      SelectiveAckSpoke(k1, p.ackNr + 2, p.sack.value, env);
      SpokeTransitive(k, k1, SelectiveAck(k1, p.ackNr + 2, p.sack.value, env));
    }
    var k2 := ProcessAcks(k, p, env);
    ReopenWindowSpoke(k2, env);
    SpokeTransitive(k, k2, ReopenWindow(k2, env));
  }

  lemma ResendAfterTimeoutSpoke(k: Sock)
    ensures Spoke(k, ResendAfterTimeout(k))
  {
    var k1 := MarkForResend(k);
    var k2 := k1.(ctl := k1.ctl.(retransmitCount := k1.ctl.retransmitCount + 1, fastTimeout := true));
    assert Spoke(k, k2);
    if Head(k2.send) in k2.send.win {
      SendPacketSpoke(k2, Head(k2.send));
      SpokeTransitive(k, k2, SendPacket(k2, Head(k2.send)));
    }
  }

  lemma RtoExpiredSpoke(k: Sock, probeTimedOut: bool)
    ensures Spoke(k, RtoExpired(k, probeTimedOut).0)
  {
    ReportSpoke(k, OnError);
    var newTimeout := if probeTimedOut then k.ctl.retransmitTimeout else k.ctl.retransmitTimeout * 2;
    ResendAfterTimeoutSpoke(k.(ctl := k.ctl.(retransmitTimeout := newTimeout)));
  }

  /** `check_timeouts` up to the keep-alive. */
  lemma CheckTimeoutsSpoke(k: Sock, timers: Timers, before: Env, after: Env)
    ensures var k0 := FlushUnlessDestroyed(k, before);
            && Spoke(k, k0)
            && Spoke(k, MaybeExpire(LiftZeroWindow(k0, timers), timers).0)
            && Spoke(k, ReopenWindow(MaybeExpire(LiftZeroWindow(k0, timers), timers).0, after))
  {
    FlushScanSpoke(k, FlushSpan(k.send), true, before);
    var k0 := FlushUnlessDestroyed(k, before);
    var k1 := LiftZeroWindow(k0, timers);
    SpokeTransitive(k, k0, k1);
    RtoExpiredSpoke(k1, timers.probeTimedOut);
    var k2 := MaybeExpire(k1, timers).0;
    SpokeTransitive(k, k1, k2);
    ReopenWindowSpoke(k2, after);
    SpokeTransitive(k, k2, ReopenWindow(k2, after));
  }

  /** Speaking keeps the receiving side: each packet acknowledges what had been received. */
  lemma SpokeReceives(k: Sock, k': Sock, h: History, first: int, next: int, m: map<int, Bytes>, upTo: int)
    requires ReceiverSide(k, h, first, next, m, upTo) && Spoke(k, k')
    ensures ReceiverSide(k', h, first, next, m, upTo)
  {
    var G := Received(h, k.recv.ack, m);
    forall i | 0 <= i < |k'.out|
      ensures AckTruthful(k'.out[i], k'.tags[i], k.recv.ack, G)
    {
      if i < |k.out| {
        assert AckTruthful(k.out[i], k.tags[i], k.recv.ack, G);
      }
    }
  }

  // ---------------------------------------------------------------- acknowledging

  lemma AcksGrow(out: seq<Packet>, tags: seq<Tag>, ack: int, G: set<int>, p: Packet, t: Tag)
    requires AcksOk(out, tags, ack, G) && AckTruthful(p, t, ack, G)
    ensures AcksOk(out + [p], tags + [t], ack, G)
  {
    forall i | 0 <= i < |out| + 1
      ensures AckTruthful((out + [p])[i], (tags + [t])[i], ack, G)
    {
      if i < |out| {
        assert AckTruthful(out[i], tags[i], ack, G);
      }
    }
  }

  lemma AcksStay(out: seq<Packet>, tags: seq<Tag>, ack: int, G: set<int>, ack': int, G': set<int>)
    requires AcksOk(out, tags, ack, G) && ack <= ack' && G <= G'
    ensures AcksOk(out, tags, ack', G')
  {
    forall i | 0 <= i < |out|
      ensures AckTruthful(out[i], tags[i], ack', G')
    {
      assert AckTruthful(out[i], tags[i], ack, G);
    }
  }

  /** The mask of an acknowledgement, or of a keep-alive, names received numbers only. */
  lemma SackIsTruthful(r: RecvState, m: map<int, Bytes>, back: nat, bit: nat)
    requires Stores(r, m) && back <= 1 && bit < 32
    requires SackOf(r.(ack := r.ack - back)).Some?
    requires MaskBit(SackOf(r.(ack := r.ack - back)).value, bit)
    ensures r.ack - back + 2 + bit in m
  {
    var bits := SackBits(r.(ack := r.ack - back));
    MaskRoundTrip(bits, bit);
    if back == 0 {
      SackBitsExact(r, m, bit);
    } else {
      KeepAliveBitsExact(r, m, bit);
    }
  }

  /** `send_ack` with the acknowledgement number `back` below what has been received. */
  function AckBack(k: Sock, back: nat, env: Env): Sock {
    var k' := SendAck(k.(recv := k.recv.(ack := k.recv.ack - back)), env);
    k'.(recv := k'.recv.(ack := k.recv.ack))
  }

  lemma AckIsTruthful(k: Sock, back: nat, env: Env, h: History, m: map<int, Bytes>)
    requires Stores(k.recv, m) && StoredOk(m, h) && back <= 1
    ensures var r := k.recv.(ack := k.recv.ack - back);
            AckTruthful(Packet(StState, W(k.send.next), W(r.ack), env.rcvWindow, SackOf(r), []),
                        Tag(k.send.next, r.ack), k.recv.ack, Received(h, k.recv.ack, m))
  {
    var r := k.recv.(ack := k.recv.ack - back);
    forall bit: nat | bit < 32 && SackOf(r).Some? && MaskBit(SackOf(r).value, bit)
      ensures r.ack + 2 + bit in Received(h, k.recv.ack, m)
    {
      SackIsTruthful(k.recv, m, back, bit);
    }
  }

  lemma AckBackReceives(k: Sock, back: nat, env: Env, h: History, first: int, next: int, m: map<int, Bytes>, upTo: int)
    requires ReceiverSide(k, h, first, next, m, upTo) && back <= 1
    ensures ReceiverSide(AckBack(k, back, env), h, first, next, m, upTo)
  {
    AckIsTruthful(k, back, env, h, m);
    var r := k.recv.(ack := k.recv.ack - back);
    var p := Packet(StState, W(k.send.next), W(r.ack), env.rcvWindow, SackOf(r), []);
    AcksGrow(k.out, k.tags, k.recv.ack, Received(h, k.recv.ack, m), p, Tag(k.send.next, r.ack));
    var k' := AckBack(k, back, env);
    assert k'.out == k.out + [p] && k'.tags == k.tags + [Tag(k.send.next, r.ack)];
    assert k'.recv == k.recv.(lastRcvWin := k'.recv.lastRcvWin) && k'.events == k.events && k'.state == k.state;
    StoresLastWindow(k.recv, k'.recv, m);
  }

  lemma StoresLastWindow(r: RecvState, r': RecvState, m: map<int, Bytes>)
    requires Stores(r, m) && r' == r.(lastRcvWin := r'.lastRcvWin)
    ensures Stores(r', m)
  {
  }

  // ---------------------------------------------------------------- delivering

  lemma {:induction false} StreamSplit(h: History, lo: int, mid: int, hi: int)
    requires lo <= mid <= hi
    ensures Stream(h, lo, hi) == Stream(h, lo, mid) + Stream(h, mid, hi)
    decreases hi - mid
  {
    if mid < hi {
      StreamSplit(h, lo, mid, hi - 1);
    }
  }

  lemma DeliveredOne(events: seq<Event>, e: Event)
    ensures Delivered(events + [e]) == Delivered(events) + if e.OnRead? then e.data else []
  {
  }

  /** The reads for the numbers `[lo, hi)` deliver their bytes, unless reading is closed. */
  lemma {:induction false} DeliveredReads(events: seq<Event>, m: map<int, Bytes>, h: History, lo: int, hi: int,
                                          shut: bool)
    requires forall n :: lo <= n < hi ==> n in m && n in h && m[n] == h[n].payload
    ensures Delivered(events + Reads(m, lo, hi, shut)) == Delivered(events) + if shut then [] else Stream(h, lo, hi)
    decreases hi - lo
  {
    if lo >= hi {
      assert events + Reads(m, lo, hi, shut) == events;
    } else {
      var first := ReadEvent(m[lo], shut);
      var rest := Reads(m, lo + 1, hi, shut);
      assert events + (first + rest) == (events + first) + rest;
      DeliveredReads(events + first, m, h, lo + 1, hi, shut);
      DeliveredRead(events, m[lo], shut);
      StreamFromLow(h, lo, hi);
    }
  }

  lemma DeliveredRead(events: seq<Event>, data: Bytes, shut: bool)
    ensures Delivered(events + ReadEvent(data, shut)) == Delivered(events) + if shut then [] else data
  {
    assert events + [] == events;
  }

  lemma StreamFromLow(h: History, lo: int, hi: int)
    requires lo < hi && lo in h
    ensures Stream(h, lo, hi) == h[lo].payload + Stream(h, lo + 1, hi)
  {
    StreamSplit(h, lo, lo + 1, hi);
    assert Stream(h, lo, lo + 1) == Stream(h, lo, lo) + h[lo].payload;
  }

  lemma NoteFinReceives(k: Sock, p: Packet, n: int, h: History, first: int, next: int, m: map<int, Bytes>, upTo: int)
    requires ReceiverSide(k, h, first, next, m, upTo)
    requires k.recv.ack < n < next && n in h && h[n].typ == p.typ && p.seqNr == W(n)
    requires h[n].typ == StFin ==> n == next - 1
    ensures ReceiverSide(NoteFin(k, p), h, first, next, m, upTo)
    ensures p.typ == StFin ==> NoteFin(k, p).recv.gotFin
    ensures !NoteFin(k, p).recv.gotFinReached
  {
    var r, r' := k.recv, NoteFin(k, p).recv;
    assert r' == r.(gotFin := r'.gotFin, eofPkt := r'.eofPkt);
    StoresRingOnly(r, r', m);
    assert EofOk(r', h, next, Received(h, r.ack, m));
  }

  lemma StoresRingOnly(r: RecvState, r': RecvState, m: map<int, Bytes>)
    requires Stores(r, m) && r'.ack == r.ack && r'.inbuf == r.inbuf && r'.reorderCount == r.reorderCount
    ensures Stores(r', m)
  {
  }

  lemma EofNumber(a: int, b: int)
    requires 0 <= b - a < MOD16
    ensures W(a) == W(b) <==> a == b
  {
    WDistance(b, a);
    WSmall(b - a);
  }

  /** Draining never passes the numbers in use, and stops for the end of the stream exactly at
      the last of them. */
  lemma StopIsInUse(r: RecvState, h: History, first: int, next: int, m: map<int, Bytes>)
    requires first <= r.ack < next && StoredOk(m, h) && next - r.ack <= 1025
    requires forall n :: n in h <==> first <= n < next
    requires r.gotFin ==> r.eofPkt == W(next - 1)
    ensures var stop := StopAt(r, m, r.ack);
            && r.ack <= stop < next
            && (forall n :: r.ack < n <= stop ==> n in m)
            && (AtEof(r, stop) <==> r.gotFin && stop == next - 1)
            && (stop + 1 in m ==> AtEof(r, stop))
  {
    var stop := StopAt(r, m, r.ack);
    StopAtContiguous(r, m, r.ack);
    assert stop > r.ack ==> stop in m;
    EofNumber(stop, next - 1);
  }

  /** Draining moves numbers from above the gap to below it: what has been received stays. */
  lemma SameReceived(h: History, ack: int, stop: int, m: map<int, Bytes>)
    requires ack <= stop && forall n :: ack < n <= stop ==> n in m
    ensures Received(h, stop, Above(m, stop)) == Received(h, ack, m)
  {
  }

  lemma DeliveredDrain(events: seq<Event>, r: RecvState, h: History, m: map<int, Bytes>)
    requires StoredOk(m, h)
    ensures Delivered(events + DrainEvents(r, m)) ==
            Delivered(events) + if r.readShutdown then [] else Stream(h, r.ack + 1, StopAt(r, m, r.ack) + 1)
  {
    var stop := StopAt(r, m, r.ack);
    StopIsStored(r, h, m);
    DeliveredReadsEof(events, m, h, r.ack + 1, stop + 1, r.readShutdown, AtEof(r, stop));
  }

  lemma StopIsStored(r: RecvState, h: History, m: map<int, Bytes>)
    requires StoredOk(m, h)
    ensures forall n :: r.ack + 1 <= n < StopAt(r, m, r.ack) + 1 ==> n in m && n in h && m[n] == h[n].payload
  {
    StopAtContiguous(r, m, r.ack);
  }

  lemma DeliveredReadsEof(events: seq<Event>, m: map<int, Bytes>, h: History, lo: int, hi: int, shut: bool, eof: bool)
    requires forall n :: lo <= n < hi ==> n in m && n in h && m[n] == h[n].payload
    ensures Delivered(events + (Reads(m, lo, hi, shut) + if eof then [OnEof] else [])) ==
            Delivered(events) + if shut then [] else Stream(h, lo, hi)
  {
    DeliveredReads(events, m, h, lo, hi, shut);
    DeliveredEof(events, Reads(m, lo, hi, shut), eof);
  }

  lemma DeliveredEof(events: seq<Event>, news: seq<Event>, eof: bool)
    ensures Delivered(events + (news + if eof then [OnEof] else [])) == Delivered(events + news)
  {
    if eof {
      assert events + (news + [OnEof]) == (events + news) + [OnEof];
      DeliveredOne(events + news, OnEof);
    } else {
      assert news + [] == news;
    }
  }

  lemma AcksAfterDrain(k: Sock, k': Sock, env: Env, ack: int, G: set<int>, m: map<int, Bytes>)
    requires DrainResult(k, k', env, m) && AcksOk(k.out, k.tags, ack, G) && ack <= k'.recv.ack
    ensures AcksOk(k'.out, k'.tags, k'.recv.ack, G)
  {
    var stop := k'.recv.ack;
    AcksStay(k.out, k.tags, ack, G, stop, G);
    if AtEof(k.recv, stop) {
      AcksGrow(k.out, k.tags, stop, G, EofAck(k, stop, env), Tag(k.send.next, stop));
    }
  }

  /** What the receiving state may be between reading a packet in order and draining the ring:
      everything up to `ack` has been read, `ack + 1` may be waiting. */
  ghost predicate Draining(r: RecvState, h: History, first: int, next: int, m: map<int, Bytes>) {
    && first <= r.ack < next && next - r.ack <= 1025
    && (forall n :: n in h <==> first <= n < next)
    && 1 < |r.inbuf| <= 2 * REORDER_BUFFER_MAX_SIZE
    && StoredOk(m, h)
    && (r.gotFin ==> h[next - 1].typ == StFin && r.eofPkt == W(next - 1))
    && (next - 1 in Received(h, r.ack, m) && h[next - 1].typ == StFin ==> r.gotFin)
  }

  lemma DrainRing(k: Sock, k': Sock, env: Env, h: History, first: int, next: int, m: map<int, Bytes>)
    requires Draining(k.recv, h, first, next, m) && DrainResult(k, k', env, m)
    ensures var m' := Above(m, k'.recv.ack);
            && k.recv.ack <= k'.recv.ack
            && Received(h, k'.recv.ack, m') == Received(h, k.recv.ack, m)
            && RingOk(k'.recv, h, first, next, m')
  {
    var r, stop := k.recv, StopAt(k.recv, m, k.recv.ack);
    StopIsInUse(r, h, first, next, m);
    SameReceived(h, r.ack, stop, m);
    DrainStores(r, k'.recv, stop, h, next, m);
  }

  lemma DrainStores(r: RecvState, r': RecvState, stop: int, h: History, next: int, m: map<int, Bytes>)
    requires StoredOk(m, h) && (forall n :: n in h ==> n < next)
    requires r'.ack == stop && Ring.Agrees(r'.inbuf, stop, Above(m, stop)) && |r'.inbuf| <= 2 * REORDER_BUFFER_MAX_SIZE
    requires stop == next - 1 || stop + 1 !in m
    requires (r'.reorderCount == 0 && stop == next - 1) || r'.reorderCount == |Above(m, stop)|
    ensures Stores(r', Above(m, stop))
  {
    if stop == next - 1 {
      assert Above(m, stop) == map[];
    }
  }

  lemma DrainPosts(k: Sock, k': Sock, env: Env, m: map<int, Bytes>)
    requires DrainResult(k, k', env, m)
    ensures k'.recv.gotFinReached ==> OnEof in k'.events
  {
    var stop := StopAt(k.recv, m, k.recv.ack);
    if AtEof(k.recv, stop) {
      assert k'.events[|k'.events| - 1] == OnEof;
    }
  }

  lemma DrainDelivers(k: Sock, k': Sock, env: Env, h: History, first: int, m: map<int, Bytes>, upTo: int)
    requires DrainResult(k, k', env, m) && StoredOk(m, h)
    requires DeliveredOk(k.events, k.recv.readShutdown, k.recv.ack, h, first, upTo)
    ensures DeliveredOk(k'.events, k'.recv.readShutdown, k'.recv.ack, h, first,
                        if k.recv.readShutdown then upTo else k'.recv.ack)
  {
    StopAtContiguous(k.recv, m, k.recv.ack);
    DeliveredDrain(k.events, k.recv, h, m);
    StreamSplit(h, first + 1, k.recv.ack + 1, k'.recv.ack + 1);
  }

  lemma ReadDelivers(k: Sock, payload: Bytes, h: History, first: int, upTo: int)
    requires DeliveredOk(k.events, k.recv.readShutdown, k.recv.ack, h, first, upTo)
    requires k.recv.ack + 1 in h && h[k.recv.ack + 1].payload == payload
    ensures var n := k.recv.ack + 1;
            DeliveredOk(Read(k, payload).events, k.recv.readShutdown, n, h, first, if k.recv.readShutdown
              then upTo else n)
  {
    var n := k.recv.ack + 1;
    if !k.recv.readShutdown {
      assert Stream(h, first + 1, n + 1) == Stream(h, first + 1, n) + payload;
      DeliveredOne(k.events, OnRead(payload));
      assert payload == [] ==> Stream(h, first + 1, n) + payload == Stream(h, first + 1, n);
    }
  }

  lemma InOrderDraining(r: RecvState, h: History, first: int, next: int, m: map<int, Bytes>)
    requires RingOk(r, h, first, next, m) && !r.gotFinReached
    requires forall n :: n in h <==> first <= n < next
    requires next - r.ack <= 1025 && r.ack + 1 in h
    requires r.ack + 1 == next - 1 && h[next - 1].typ == StFin ==> r.gotFin
    ensures Draining(r.(ack := r.ack + 1), h, first, next, m)
    ensures Received(h, r.ack + 1, m) == Received(h, r.ack, m) + {r.ack + 1}
  {
    assert |r.inbuf| > 1;
  }

  /** A packet in order. */
  lemma InOrderReceives(k: Sock, payload: Bytes, env: Env, h: History, first: int, next: int, m: map<int, Bytes>,
                        upTo: int)
    returns (m': map<int, Bytes>, upTo': int)
    requires ReceiverSide(k, h, first, next, m, upTo) && !k.recv.gotFinReached
    requires forall n :: n in h <==> first <= n < next
    requires next - k.recv.ack <= 1025 && k.recv.ack + 1 in h && h[k.recv.ack + 1].payload == payload
    requires k.recv.ack + 1 == next - 1 && h[next - 1].typ == StFin ==> k.recv.gotFin
    ensures ReceiverSide(DeliverInOrder(k, payload, env), h, first, next, m', upTo')
    ensures Received(h, DeliverInOrder(k, payload, env).recv.ack, m') == Received(h, k.recv.ack, m) + {k.recv.ack + 1}
  {
    var n := k.recv.ack + 1;
    var k1 := Read(k, payload);
    var k2 := k1.(recv := k1.recv.(ack := n));
    assert k1.recv == k.recv;
    var k' := DeliverInOrder(k, payload, env);
    DeliverInOrderExact(k, payload, env, m);
    InOrderDraining(k.recv, h, first, next, m);
    DrainRing(k2, k', env, h, first, next, m);
    DrainPosts(k2, k', env, m);
    ReadDelivers(k, payload, h, first, upTo);
    var mid := if k.recv.readShutdown then upTo else n;
    DrainDelivers(k2, k', env, h, first, m, mid);
    m' := Above(m, k'.recv.ack);
    upTo' := if k.recv.readShutdown then mid else k'.recv.ack;
    var G, G' := Received(h, k.recv.ack, m), Received(h, n, m);
    AcksStay(k.out, k.tags, k.recv.ack, G, n, G');
    AcksAfterDrain(k2, k', env, n, G', m);
  }

  lemma StoreRing(r: RecvState, p: Packet, seqnr: nat, h: History, first: int, next: int, m: map<int, Bytes>)
    returns (m': map<int, Bytes>)
    requires RingOk(r, h, first, next, m) && !r.gotFinReached
    requires 1 <= seqnr < REORDER_BUFFER_MAX_SIZE
    requires var n := r.ack + 1 + seqnr;
             && n in h && n < next && h[n].payload == p.payload && p.seqNr == W(n)
             && (n == next - 1 && h[n].typ == StFin ==> r.gotFin)
    ensures RingOk(StoreOutOfOrder(r, p, seqnr).0, h, first, next, m')
    ensures Received(h, r.ack, m') == Received(h, r.ack, m) + {r.ack + 1 + seqnr}
  {
    var n := r.ack + 1 + seqnr;
    StoreOutOfOrderExact(r, p, seqnr, m);
    m' := if n in m then m else m[n := p.payload];
    assert Received(h, r.ack, m') == Received(h, r.ack, m) + {n};
    StoreFrame(r, p, seqnr);
    EofStays(r, StoreOutOfOrder(r, p, seqnr).0, h, next, Received(h, r.ack, m), n);
  }

  lemma EofStays(r: RecvState, r': RecvState, h: History, next: int, G: set<int>, n: int)
    requires EofOk(r, h, next, G) && n in h && (n == next - 1 && h[n].typ == StFin ==> r.gotFin)
    requires r' == r.(inbuf := r'.inbuf, reorderCount := r'.reorderCount)
    ensures EofOk(r', h, next, G + {n})
  {
  }

  /** A packet above a gap. */
  lemma OutOfOrderReceives(k: Sock, p: Packet, seqnr: nat, h: History, first: int, next: int, m: map<int, Bytes>,
                           upTo: int)
    returns (m': map<int, Bytes>)
    requires ReceiverSide(k, h, first, next, m, upTo) && !k.recv.gotFinReached
    requires 1 <= seqnr < REORDER_BUFFER_MAX_SIZE
    requires var n := k.recv.ack + 1 + seqnr;
             && n in h && n < next && h[n].payload == p.payload && p.seqNr == W(n)
             && (n == next - 1 && h[n].typ == StFin ==> k.recv.gotFin)
    ensures ReceiverSide(Buffer(k, p, seqnr).0, h, first, next, m', upTo)
    ensures Received(h, k.recv.ack, m') == Received(h, k.recv.ack, m) + {k.recv.ack + 1 + seqnr}
    ensures Buffer(k, p, seqnr).0.recv.ack == k.recv.ack
  {
    m' := StoreRing(k.recv, p, seqnr, h, first, next, m);
    AcksStay(k.out, k.tags, k.recv.ack, Received(h, k.recv.ack, m), k.recv.ack, Received(h, k.recv.ack, m'));
    StoreFrame(k.recv, p, seqnr);
  }

  lemma StoreFrame(r: RecvState, p: Packet, seqnr: nat)
    ensures var r' := StoreOutOfOrder(r, p, seqnr).0;
            r' == r.(inbuf := r'.inbuf, reorderCount := r'.reorderCount)
  {
  }

  lemma DeliverAtIs(k: Sock, p: Packet, seqnr: nat, env: Env)
    requires seqnr <= 0x3ff && !(k.recv.gotFin && seqnr > W(k.recv.eofPkt - k.recv.ack - 1))
    ensures DeliverAt(k, p, seqnr, env).0 == if seqnr == 0 then DeliverInOrder(k, p.payload, env)
            else Buffer(k, p, seqnr).0
  {
  }

  /** A frame of the stream `c` that falls into the receiver's window. */
  ghost predicate Fits(y: Sock, c: Record, next: int, p: Packet, n: int) {
    && ReceiverSide(y, c.h, c.first, next, c.m, c.upTo)
    && (forall i :: i in c.h <==> c.first <= i < next)
    && (forall i :: i in c.h && c.h[i].typ == StFin ==> i == next - 1)
    && next - y.recv.ack <= 1025
    && y.recv.ack < n < y.recv.ack + 1 + REORDER_BUFFER_MAX_SIZE
    && n in c.h && c.h[n] == Seg(p.typ, p.payload) && p.seqNr == W(n)
  }

  /** The same, once a FIN has been noted. */
  ghost predicate Noted(y: Sock, c: Record, next: int, p: Packet, n: int) {
    Fits(y, c, next, p, n) && !y.recv.gotFinReached && (p.typ == StFin ==> y.recv.gotFin)
  }

  lemma NoteFinFits(k: Sock, c: Record, next: int, p: Packet, n: int)
    requires Fits(k, c, next, p, n)
    ensures Noted(NoteFin(k, p), c, next, p, n)
    ensures NoteFin(k, p).recv.ack == k.recv.ack
  {
    NoteFinReceives(k, p, n, c.h, c.first, next, c.m, c.upTo);
  }

  /** The socket that has received `n` besides what it had. */
  ghost predicate Took(k: Sock, k': Sock, c: Record, next: int, n: int, m': map<int, Bytes>, upTo': int) {
    && ReceiverSide(k', c.h, c.first, next, m', upTo')
    && Received(c.h, k'.recv.ack, m') == Received(c.h, k.recv.ack, c.m) + {n}
  }

  lemma TookInOrder(k: Sock, c: Record, next: int, p: Packet, env: Env) returns (m': map<int, Bytes>, upTo': int)
    requires Noted(k, c, next, p, k.recv.ack + 1)
    ensures Took(k, DeliverInOrder(k, p.payload, env), c, next, k.recv.ack + 1, m', upTo')
  {
    m', upTo' := InOrderReceives(k, p.payload, env, c.h, c.first, next, c.m, c.upTo);
  }

  lemma TookOutOfOrder(k: Sock, c: Record, next: int, p: Packet, n: int) returns (m': map<int, Bytes>)
    requires Noted(k, c, next, p, n) && n > k.recv.ack + 1
    ensures Took(k, Buffer(k, p, n - k.recv.ack - 1).0, c, next, n, m', c.upTo)
  {
    m' := OutOfOrderReceives(k, p, n - k.recv.ack - 1, c.h, c.first, next, c.m, c.upTo);
  }

  lemma DeliverAtReceives(k: Sock, k': Sock, c: Record, next: int, p: Packet, n: int, env: Env)
    returns (m': map<int, Bytes>, upTo': int)
    requires Noted(k, c, next, p, n) && k' == DeliverAt(k, p, n - k.recv.ack - 1, env).0
    ensures Took(k, k', c, next, n, m', upTo')
  {
    NotPastEof(k.recv, c.h, c.first, next, c.m, n);
    DeliverAtIs(k, p, n - k.recv.ack - 1, env);
    m', upTo' := EitherTaken(k, k', c, next, p, n, env);
  }

  lemma EitherTaken(k: Sock, k': Sock, c: Record, next: int, p: Packet, n: int, env: Env)
    returns (m': map<int, Bytes>, upTo': int)
    requires Noted(k, c, next, p, n)
    requires k' == if n == k.recv.ack + 1 then DeliverInOrder(k, p.payload, env) else Buffer(k, p, n - k.recv.ack - 1).0
    ensures Took(k, k', c, next, n, m', upTo')
  {
    if n == k.recv.ack + 1 {
      m', upTo' := TookInOrder(k, c, next, p, env);
    } else {
      m' := TookOutOfOrder(k, c, next, p, n);
      upTo' := c.upTo;
    }
  }

  /** Any packet of the stream that lies in the window is received. */
  lemma DeliverDataReceives(k: Sock, k': Sock, c: Record, next: int, p: Packet, n: int, env: Env)
    returns (m': map<int, Bytes>, upTo': int)
    requires Fits(k, c, next, p, n) && k' == DeliverData(k, p, n - k.recv.ack - 1, env).0
    ensures Took(k, k', c, next, n, m', upTo')
  {
    NoteFinFits(k, c, next, p, n);
    m', upTo' := DeliverAtReceives(NoteFin(k, p), k', c, next, p, n, env);
  }

  /** A sender that ends its stream once never has a packet refused as past the end. */
  lemma NotPastEof(r: RecvState, h: History, first: int, next: int, m: map<int, Bytes>, n: int)
    requires RingOk(r, h, first, next, m) && r.ack < n < next && next - r.ack <= 1025
    ensures !(r.gotFin && n - r.ack - 1 > W(r.eofPkt - r.ack - 1))
  {
    if r.gotFin {
      EofOffset(r.eofPkt, next - 1, r.ack);
    }
  }

  lemma EofOffset(eofPkt: U16, eof: int, ack: int)
    requires eofPkt == W(eof) && 0 <= eof - ack - 1 < MOD16
    ensures W(eofPkt - ack - 1) == eof - ack - 1
  {
    WDistance(eof, ack + 1);
    WSmall(eof - ack - 1);
  }
}
