/** What the sending side of a channel keeps: every frame it ever sent shows the segment
    recorded for its number, and it only forgets packets that were received. */
module ChannelSender {
  import opened Serial
  import opened Protocol
  import opened Conservation
  import opened Sack
  import opened Channel
  import Ring

  /** The sending side speaks of these parts only. */
  lemma SameSide(k: Sock, k': Sock, h: History, first: int, G: set<int>)
    requires SenderSide(k, h, first, G)
    requires k'.send.next == k.send.next && k'.send.count == k.send.count && k'.send.win == k.send.win
    requires k'.send.finSent == k.send.finSent && k'.send.finSentAcked == k.send.finSentAcked
    requires k'.out == k.out && k'.tags == k.tags
    ensures SenderSide(k', h, first, G)
  {
  }

  lemma MoreReceived(k: Sock, h: History, first: int, G: set<int>, G': set<int>)
    requires SenderSide(k, h, first, G) && G <= G'
    ensures SenderSide(k, h, first, G')
  {
  }

  // ---------------------------------------------------------------- the frames already sent

  /** Frames stay right when the window only loses packets and gains transmissions. */
  lemma OutStays(out: seq<Packet>, tags: seq<Tag>, win: map<int, OutPkt>, h: History,
                 win': map<int, OutPkt>, h': History)
    requires OutOk(out, tags, win, h)
    requires forall n :: n in h && Frozen(win, n) ==> Frozen(win', n) && n in h' && h'[n] == h[n]
    ensures OutOk(out, tags, win', h')
  {
    forall i | 0 <= i < |out|
      ensures FrameOk(out[i], tags[i], win', h')
    {
      assert FrameOk(out[i], tags[i], win, h);
    }
  }

  lemma OutGrows(out: seq<Packet>, tags: seq<Tag>, win: map<int, OutPkt>, h: History, p: Packet, t: Tag)
    requires OutOk(out, tags, win, h) && FrameOk(p, t, win, h)
    ensures OutOk(out + [p], tags + [t], win, h)
  {
    forall i | 0 <= i < |out| + 1
      ensures FrameOk((out + [p])[i], (tags + [t])[i], win, h)
    {
      if i < |out| {
        assert FrameOk(out[i], tags[i], win, h);
      }
    }
  }

  lemma SendPacketSide(k: Sock, n: int, h: History, first: int, G: set<int>)
    requires SenderSide(k, h, first, G) && n in k.send.win
    ensures SenderSide(SendPacket(k, n), h, first, G)
  {
    var win' := SendPacket(k, n).send.win;
    OutStays(k.out, k.tags, k.send.win, h, win', h);
    OutGrows(k.out, k.tags, win', h, OnWire(k.send.win[n], W(k.recv.ack)), Tag(n, k.recv.ack));
  }

  lemma SendAckSide(k: Sock, env: Env, h: History, first: int, G: set<int>)
    requires SenderSide(k, h, first, G)
    ensures SenderSide(SendAck(k, env), h, first, G)
  {
    OutGrows(k.out, k.tags, k.send.win, h,
             Packet(StState, W(k.send.next), W(k.recv.ack), env.rcvWindow, SackOf(k.recv), []),
             Tag(k.send.next, k.recv.ack));
  }

  lemma SendKeepAliveSide(k: Sock, env: Env, h: History, first: int, G: set<int>)
    requires SenderSide(k, h, first, G)
    ensures SenderSide(SendKeepAlive(k, env), h, first, G)
  {
    var k1 := k.(recv := k.recv.(ack := k.recv.ack - 1));
    SameSide(k, k1, h, first, G);
    SendAckSide(k1, env, h, first, G);
    SameSide(SendAck(k1, env), SendKeepAlive(k, env), h, first, G);
  }

  lemma {:induction false} FlushScanSide(k: Sock, left: nat, inPrefix: bool, env: Env, h: History, first: int,
                                         G: set<int>)
    requires SenderSide(k, h, first, G)
    ensures SenderSide(FlushScan(k, left, inPrefix, env).0, h, first, G)
    decreases left
  {
    if left > 0 {
      var n := k.send.next - left;
      var cursor := if inPrefix then W(n + 1) else k.send.flushScanStart;
      if Settled(k.send.win, n) {
        SameSide(k, WithCursor(k, cursor), h, first, G);
        FlushScanSide(WithCursor(k, cursor), left - 1, inPrefix, env, h, first, G);
      } else if !IsFull(k, -1, env) {
        if left != 1 || k.send.count == 1 || |k.send.win[n].payload| >= env.packetSize {
          SendPacketSide(k, n, h, first, G);
          SameSide(SendPacket(k, n), WithCursor(SendPacket(k, n), cursor), h, first, G);
          FlushScanSide(WithCursor(SendPacket(k, n), cursor), left - 1, inPrefix, env, h, first, G);
        } else {
          FlushScanSide(k, left - 1, false, env, h, first, G);
        }
      }
    }
  }

  // ---------------------------------------------------------------- writing

  /** `h'` extends `h` by `data`, without touching a segment that has been sent. */
  ghost predicate Extends(s: SendState, h: History, s': SendState, h': History, first: int, data: Bytes) {
    && s'.next >= s.next
    && (forall n :: n in h && Frozen(s.win, n) ==> n in h' && h'[n] == h[n] && Frozen(s'.win, n))
    && Stream(h', first + 1, s'.next) == Stream(h, first + 1, s.next) + data
  }

  lemma AppendSide(k: Sock, typ: PacketType, data: Bytes, env: Env, h: History, first: int, G: set<int>)
    returns (h': History)
    requires SenderSide(k, h, first, G) && typ == StData && !k.send.finSent
    ensures SenderSide(Append(k, typ, data, env), h', first, G)
    ensures Extends(k.send, h, Append(k, typ, data, env).send, h', first, data)
  {
    var s := k.send;
    h' := h[s.next := Seg(typ, data)];
    var s' := Append(k, typ, data, env).send;
    OutStays(k.out, k.tags, s.win, h, s'.win, h');
    StreamAgrees(h, h', first + 1, s.next);
  }

  lemma TopUpSide(k: Sock, typ: PacketType, data: Bytes, env: Env, h: History, first: int, G: set<int>)
    returns (h': History)
    requires SenderSide(k, h, first, G) && CanTopUp(k.send, env.packetSize)
    requires typ == StData && !k.send.finSent && Frozen(k.send.win, first)
    ensures SenderSide(TopUp(k, typ, data, env), h', first, G)
    ensures Extends(k.send, h, TopUp(k, typ, data, env).send, h', first, data)
  {
    var s := k.send;
    var n := s.next - 1;
    h' := h[n := Seg(typ, s.win[n].payload + data)];
    var s' := TopUp(k, typ, data, env).send;
    OutStays(k.out, k.tags, s.win, h, s'.win, h');
    StreamAgrees(h, h', first + 1, n);
    assert Stream(h', first + 1, s.next) == Stream(h', first + 1, n) + (s.win[n].payload + data);
  }

  lemma ExtendsTransitive(s: SendState, h: History, s1: SendState, h1: History, s2: SendState, h2: History,
                          first: int, data1: Bytes, data2: Bytes)
    requires Extends(s, h, s1, h1, first, data1) && Extends(s1, h1, s2, h2, first, data2)
    ensures Extends(s, h, s2, h2, first, data1 + data2)
  {
    assert Stream(h, first + 1, s.next) + data1 + data2 == Stream(h, first + 1, s.next) + (data1 + data2);
  }

  lemma {:induction false} WriteRoundsSide(k: Sock, data: Bytes, env: Env, h: History, first: int, G: set<int>)
    returns (h': History)
    requires SenderSide(k, h, first, G) && !k.send.finSent && first in h && Frozen(k.send.win, first)
    ensures SenderSide(WriteRounds(k, StData, data, env), h', first, G)
    ensures Extends(k.send, h, WriteRounds(k, StData, data, env).send, h', first, data)
    ensures !WriteRounds(k, StData, data, env).send.finSent
    decreases |data|
  {
    var added := Added(k.send, data, env.packetSize);
    var k1 := WriteRound(k, StData, data, env);
    var h1: History;
    if data != [] && CanTopUp(k.send, env.packetSize) {
      h1 := TopUpSide(k, StData, data[..added], env, h, first, G);
    } else {
      h1 := AppendSide(k, StData, data, env, h, first, G);
      assert data[..added] == data;
    }
    if added < |data| {
      h' := WriteRoundsSide(k1, data[added..], env, h1, first, G);
      ExtendsTransitive(k.send, h, k1.send, h1, WriteRounds(k1, StData, data[added..], env).send, h', first,
                        data[..added], data[added..]);
      assert data[..added] + data[added..] == data;
    } else {
      h' := h1;
      assert data[..added] == data;
    }
  }

  lemma {:induction false} FlushScanFrozen(k: Sock, left: nat, inPrefix: bool, env: Env)
    ensures forall n :: Frozen(k.send.win, n) ==> Frozen(FlushScan(k, left, inPrefix, env).0.send.win, n)
    decreases left
  {
    if left > 0 {
      var n := k.send.next - left;
      var cursor := if inPrefix then W(n + 1) else k.send.flushScanStart;
      if Settled(k.send.win, n) {
        FlushScanFrozen(WithCursor(k, cursor), left - 1, inPrefix, env);
      } else if !IsFull(k, -1, env) {
        if left != 1 || k.send.count == 1 || |k.send.win[n].payload| >= env.packetSize {
          FlushScanFrozen(WithCursor(SendPacket(k, n), cursor), left - 1, inPrefix, env);
        } else {
          FlushScanFrozen(k, left - 1, false, env);
        }
      }
    }
  }

  lemma FlushSide(k: Sock, env: Env, h: History, first: int, G: set<int>)
    requires SenderSide(k, h, first, G)
    ensures SenderSide(Flush(k, env).0, h, first, G)
    ensures Extends(k.send, h, Flush(k, env).0.send, h, first, [])
    ensures SameShape(k, Flush(k, env).0)
  {
    FlushScanSide(k, FlushSpan(k.send), true, env, h, first, G);
    FlushScanFrozen(k, FlushSpan(k.send), true, env);
    FlushScanShape(k, FlushSpan(k.send), true, env);
  }

  lemma RtoReset(k: Sock, env: Env, h: History, first: int, G: set<int>) returns (k0: Sock)
    requires SenderSide(k, h, first, G)
    ensures k0 == if k.send.count == 0 then k.(ctl := k.ctl.(retransmitTimeout := env.rto)) else k
    ensures SenderSide(k0, h, first, G) && k0.send == k.send
  {
    k0 := if k.send.count == 0 then k.(ctl := k.ctl.(retransmitTimeout := env.rto)) else k;
    SameSide(k, k0, h, first, G);
  }

  lemma WriteOutgoingPacketSide(k: Sock, data: Bytes, env: Env, h: History, first: int, G: set<int>)
    returns (h': History)
    requires SenderSide(k, h, first, G) && !k.send.finSent && first in h && Frozen(k.send.win, first)
    ensures SenderSide(WriteOutgoingPacket(k, StData, data, env), h', first, G)
    ensures Extends(k.send, h, WriteOutgoingPacket(k, StData, data, env).send, h', first, data)
    ensures !WriteOutgoingPacket(k, StData, data, env).send.finSent
  {
    var k0 := RtoReset(k, env, h, first, G);
    h' := WriteRoundsSide(k0, data, env, h, first, G);
    var k1 := WriteRounds(k0, StData, data, env);
    FlushSide(k1, env, h', first, G);
    ExtendsTransitive(k0.send, h, k1.send, h', Flush(k1, env).0.send, h', first, data, []);
    assert data + [] == data;
  }

  /** Of `data`, the bytes accepted extend the stream. */
  ghost predicate Accepted(k: Sock, data: Bytes, r: (Sock, nat), h: History, h': History, first: int, G: set<int>) {
    && r.1 <= |data|
    && SenderSide(r.0, h', first, G)
    && Extends(k.send, h, r.0.send, h', first, data[..r.1])
    && !r.0.send.finSent
  }

  lemma AcceptedThen(k: Sock, data: Bytes, num: nat, k1: Sock, h1: History, r: (Sock, nat),
                     h: History, h': History, first: int, G: set<int>)
    requires num <= |data| && Extends(k.send, h, k1.send, h1, first, data[..num])
    requires Accepted(k1, data[num..], r, h1, h', first, G)
    ensures Accepted(k, data, (r.0, num + r.1), h, h', first, G)
  {
    ExtendsTransitive(k.send, h, k1.send, h1, r.0.send, h', first, data[..num], data[num..][..r.1]);
    assert data[..num] + data[num..][..r.1] == data[..num + r.1];
  }

  lemma {:induction false} WriteChunksSide(k: Sock, data: Bytes, env: Env, h: History, first: int, G: set<int>)
    returns (h': History)
    requires SenderSide(k, h, first, G) && !k.send.finSent && first in h && Frozen(k.send.win, first)
    ensures Accepted(k, data, WriteChunks(k, data, env), h, h', first, G)
    decreases |data|
  {
    var num := Min(|data|, env.packetSize);
    if IsFull(k, num, env) {
      h' := h;
      SameSide(k, k.(state := ConnectedFull), h, first, G);
    } else {
      var k1 := WriteOutgoingPacket(k, StData, data[..num], env);
      var h1 := WriteOutgoingPacketSide(k, data[..num], env, h, first, G);
      if Min(|data| - num, env.packetSize) == 0 {
        h' := h1;
      } else {
        h' := WriteChunksSide(k1, data[num..], env, h1, first, G);
        AcceptedThen(k, data, num, k1, h1, WriteChunks(k1, data[num..], env), h, h', first, G);
      }
    }
  }

  /** The end of the stream is one more number, without bytes. */
  lemma SendFinSide(k: Sock, env: Env, h: History, first: int, G: set<int>)
    returns (h': History)
    requires SenderSide(k, h, first, G) && !k.send.finSent
    ensures SenderSide(SendFin(k, env), h', first, G)
    ensures Extends(k.send, h, SendFin(k, env).send, h', first, [])
    ensures SendFin(k, env).send.next == k.send.next + 1
  {
    var k0 := RtoReset(k, env, h, first, G);
    var k1 := k0.(send := k0.send.(finSent := true));
    h' := h[k.send.next := Seg(StFin, [])];
    var k2 := Append(k1, StFin, [], env);
    OutStays(k.out, k.tags, k.send.win, h, k2.send.win, h');
    StreamAgrees(h, h', first + 1, k.send.next);
    assert SenderSide(k2, h', first, G);
    assert Extends(k.send, h, k2.send, h', first, []);
    FlushSide(k2, env, h', first, G);
    ExtendsTransitive(k.send, h, k2.send, h', Flush(k2, env).0.send, h', first, [], []);
    assert WriteRounds(k1, StFin, [], env) == k2;
    assert SendFin(k, env) == Flush(k2, env).0;
  }

  // ---------------------------------------------------------------- acknowledgements

  lemma AckPacketSide(k: Sock, n: int, env: Env, h: History, first: int, G: set<int>)
    requires SenderSide(k, h, first, G) && n in G
    ensures SenderSide(AckPacket(k, n, env).0, h, first, G)
  {
    OutStays(k.out, k.tags, k.send.win, h, k.send.win - {n}, h);
  }

  lemma DropHeadSide(k: Sock, h: History, first: int, G: set<int>)
    requires SenderSide(k, h, first, G) && k.send.count > 0
    ensures SenderSide(k.(send := k.send.(count := k.send.count - 1)), h, first, G)
  {
  }

  lemma {:induction false} AckCumulativeSide(k: Sock, acks: nat, env: Env, h: History, first: int, G: set<int>)
    requires SenderSide(k, h, first, G)
    requires forall n :: Head(k.send) <= n < Head(k.send) + acks ==> n in G
    ensures SenderSide(AckCumulative(k, acks, env), h, first, G)
    decreases acks
  {
    if acks != 0 && k.send.count != 0 {
      AckPacketSide(k, Head(k.send), env, h, first, G);
      var (k1, status) := AckPacket(k, Head(k.send), env);
      if status != NeverSent {
        DropHeadSide(k1, h, first, G);
        AckCumulativeSide(k1.(send := k1.send.(count := k1.send.count - 1)), acks - 1, env, h, first, G);
      }
    }
  }

  lemma {:induction false} SkipAckedSide(k: Sock, h: History, first: int, G: set<int>)
    requires SenderSide(k, h, first, G)
    ensures SenderSide(SkipAcked(k), h, first, G)
    decreases k.send.count
  {
    if k.send.count > 0 && Head(k.send) !in k.send.win {
      DropHeadSide(k, h, first, G);
      SkipAckedSide(k.(send := k.send.(count := k.send.count - 1)), h, first, G);
    }
  }

  lemma AdvanceStateChanges(k: Sock, p: Packet, acks: nat)
    ensures var k1 := RaiseFastResend(AdvanceState(k, p, acks), p.ackNr);
            && k1.send == k.send.(maxWindowUser := p.windowSize, finSentAcked := k1.send.finSentAcked)
            && k1.out == k.out && k1.tags == k.tags
            && (k1.send.finSentAcked ==> k.send.finSentAcked || (k.send.finSent && k.send.count == acks))
  {
  }

  lemma AdvanceStateSide(k: Sock, k1: Sock, p: Packet, acks: nat, h: History, first: int, G: set<int>)
    requires SenderSide(k, h, first, G)
    requires k.send.finSent && k.send.count == acks ==> forall n :: n in h ==> n in G
    requires k1 == RaiseFastResend(AdvanceState(k, p, acks), p.ackNr)
    ensures SenderSide(k1, h, first, G) && k1.send.next == k.send.next && k1.send.count == k.send.count
  {
    AdvanceStateChanges(k, p, acks);
    FinAckedSide(k, k1.send.finSentAcked, h, first, G);
    SameSide(k.(send := k.send.(finSentAcked := k1.send.finSentAcked)), k1, h, first, G);
  }

  lemma FinAckedSide(k: Sock, acked: bool, h: History, first: int, G: set<int>)
    requires SenderSide(k, h, first, G)
    requires acked ==> k.send.finSent && forall n :: n in h ==> n in G
    ensures SenderSide(k.(send := k.send.(finSentAcked := acked)), h, first, G)
  {
  }

  lemma SendLoneUnsentSide(k: Sock, h: History, first: int, G: set<int>)
    requires SenderSide(k, h, first, G)
    ensures SenderSide(SendLoneUnsent(k), h, first, G)
  {
    if k.send.next - 1 in k.send.win {
      SendPacketSide(k, k.send.next - 1, h, first, G);
    }
  }

  lemma FastTimeoutSide(k: Sock, h: History, first: int, G: set<int>)
    requires SenderSide(k, h, first, G)
    ensures SenderSide(FastTimeout(k), h, first, G)
  {
    var n := Head(k.send);
    var k1 := Report(k.(ctl := k.ctl.(fastResend := W(k.ctl.fastResend + 1))), FastResend(W(n), |k.out|));
    SameSide(k, k1, h, first, G);
    SameSide(k, k.(ctl := k.ctl.(fastTimeout := false)), h, first, G);
    if n in k.send.win {
      SendPacketSide(k1, n, h, first, G);
    }
  }

  lemma AckAndSkipSide(k: Sock, acks: nat, env: Env, h: History, first: int, G: set<int>)
    requires SenderSide(k, h, first, G)
    requires forall n :: Head(k.send) <= n < Head(k.send) + acks ==> n in G
    ensures SenderSide(SkipAcked(AckCumulative(k, acks, env)), h, first, G)
  {
    AckCumulativeSide(k, acks, env, h, first, G);
    SkipAckedSide(AckCumulative(k, acks, env), h, first, G);
  }

  lemma AdvanceSendWindowSide(k: Sock, p: Packet, acks: nat, env: Env, h: History, first: int, G: set<int>)
    requires SenderSide(k, h, first, G)
    requires forall n :: Head(k.send) <= n < Head(k.send) + acks ==> n in G
    requires k.send.finSent && k.send.count == acks ==> forall n :: n in h ==> n in G
    ensures SenderSide(AdvanceSendWindow(k, p, acks, env), h, first, G)
  {
    var k1 := RaiseFastResend(AdvanceState(k, p, acks), p.ackNr);
    AdvanceStateSide(k, k1, p, acks, h, first, G);
    AckAndSkipSide(k1, acks, env, h, first, G);
    var k2 := SkipAcked(AckCumulative(k1, acks, env));
    SendLoneUnsentSide(k2, h, first, G);
    FastTimeoutSide(SendLoneUnsent(k2), h, first, G);
  }

  /** Every number of the window that the mask acknowledges has been received. */
  ghost predicate MaskTruthful(s: SendState, base: int, mask: Mask, G: set<int>) {
    forall n :: n in s.win && Covers(base, mask, 8 * |mask|, n) ==> n in G
  }

  lemma SackVisitSide(c: Scan, base: int, mask: Mask, bits: int, env: Env, h: History, first: int, G: set<int>)
    requires SenderSide(c.sock, h, first, G) && Within(c.sock.send)
    requires -1 <= bits < 8 * |mask| < MOD16
    requires MaskTruthful(c.sock.send, base, mask, G)
    ensures SenderSide(SackVisit(c, base, mask, bits, env).sock, h, first, G)
    ensures Within(SackVisit(c, base, mask, bits, env).sock.send)
    ensures MaskTruthful(SackVisit(c, base, mask, bits, env).sock.send, base, mask, G)
  {
    var k := c.sock;
    match SackNumber(k.send, base, bits) {
      case None =>
      case Some(n) =>
        if n in k.send.win && SackBitSet(mask, bits) {
          SackNumberExact(k.send, base, bits, n);
          WSmall(bits);
          assert Covers(base, mask, 8 * |mask|, n);
          AckPacketSide(k, n, env, h, first, G);
        }
    }
  }

  lemma {:induction false} SackScanSide(c: Scan, base: int, mask: Mask, bits: int, env: Env, h: History, first: int,
                                        G: set<int>)
    requires SenderSide(c.sock, h, first, G) && Within(c.sock.send)
    requires -2 <= bits < 8 * |mask| < MOD16
    requires MaskTruthful(c.sock.send, base, mask, G)
    ensures SenderSide(SackScan(c, base, mask, bits, env).sock, h, first, G)
    decreases bits + 2
  {
    if bits != -2 {
      SackVisitSide(c, base, mask, bits, env, h, first, G);
      SackScanSide(SackVisit(c, base, mask, bits, env), base, mask, bits - 1, env, h, first, G);
    }
  }

  lemma {:induction false} ResendLastSide(k: Sock, resends: seq<U16>, budget: nat, h: History, first: int, G: set<int>)
    requires SenderSide(k, h, first, G)
    ensures SenderSide(ResendLast(k, resends, budget), h, first, G)
    decreases |resends|
  {
    if resends != [] && budget != 0 {
      var v := resends[|resends| - 1];
      var rest := resends[..|resends| - 1];
      var n := if k.send.ringSize == 0 then v else Ring.Alias(v, Head(k.send), k.send.ringSize);
      if n in k.send.win {
        var k1 := Report(k, FastResend(v, |k.out|));
        SameSide(k, k1, h, first, G);
        SendPacketSide(k1, n, h, first, G);
        SameSide(SendPacket(k1, n), ResendOne(k, v, n), h, first, G);
        ResendLastSide(ResendOne(k, v, n), rest, budget - 1, h, first, G);
      } else {
        ResendLastSide(k, rest, budget, h, first, G);
      }
    }
  }

  lemma SelectiveAckSide(k: Sock, base: int, mask: Mask, env: Env, h: History, first: int, G: set<int>)
    requires SenderSide(k, h, first, G) && Within(k.send) && |mask| <= 255
    requires MaskTruthful(k.send, base, mask, G)
    ensures SenderSide(SelectiveAck(k, base, mask, env), h, first, G)
  {
    if k.send.count != 0 {
      SackScanSide(Scan(k, 0, []), base, mask, 8 * |mask| - 1, env, h, first, G);
      var c := SackScan(Scan(k, 0, []), base, mask, 8 * |mask| - 1, env);
      ResendLastSide(c.sock, SackCandidates(c, base), MAX_RESENDS, h, first, G);
    }
  }

  // ---------------------------------------------------------------- receiving and timeouts

  lemma {:induction false} DrainSide(k: Sock, env: Env, h: History, first: int, G: set<int>)
    requires SenderSide(k, h, first, G)
    ensures SenderSide(Drain(k, env), h, first, G)
    decreases k.recv.reorderCount
  {
    PostEofSide(k, env, h, first, G);
    var k1 := PostEof(k, env);
    if k1.recv.reorderCount != 0 && Ring.Get(k1.recv.inbuf, k1.recv.ack + 1).Some? {
      var k3 := Drained(k1, Ring.Get(k1.recv.inbuf, k1.recv.ack + 1).value);
      SameSide(k1, k3, h, first, G);
      DrainSide(k3, env, h, first, G);
    }
  }

  lemma PostEofSide(k: Sock, env: Env, h: History, first: int, G: set<int>)
    requires SenderSide(k, h, first, G)
    ensures SenderSide(PostEof(k, env), h, first, G)
  {
    var k1 := Report(k.(recv := k.recv.(gotFinReached := true)), OnEof);
    SameSide(k, k1, h, first, G);
    SendAckSide(k1, env, h, first, G);
    var k2 := SendAck(k1, env);
    SameSide(k2, k2.(recv := k2.recv.(reorderCount := 0)), h, first, G);
  }

  lemma DeliverDataSide(k: Sock, p: Packet, seqnr: nat, env: Env, h: History, first: int, G: set<int>)
    requires SenderSide(k, h, first, G)
    ensures SenderSide(DeliverData(k, p, seqnr, env).0, h, first, G)
  {
    var k0 := NoteFin(k, p);
    SameSide(k, k0, h, first, G);
    if seqnr == 0 {
      var k1 := Read(k0, p.payload);
      var k2 := k1.(recv := k1.recv.(ack := k1.recv.ack + 1));
      SameSide(k0, k2, h, first, G);
      DrainSide(k2, env, h, first, G);
      SameSide(Drain(k2, env), DeliverInOrder(k0, p.payload, env), h, first, G);
    } else {
      SameSide(k0, Buffer(k0, p, seqnr).0, h, first, G);
    }
  }

  lemma MarkForResendSide(k: Sock, h: History, first: int, G: set<int>)
    requires SenderSide(k, h, first, G)
    ensures SenderSide(MarkForResend(k), h, first, G)
  {
    OutStays(k.out, k.tags, k.send.win, h, MarkForResend(k).send.win, h);
  }

  lemma ResendAfterTimeoutSide(k: Sock, h: History, first: int, G: set<int>)
    requires SenderSide(k, h, first, G)
    ensures SenderSide(ResendAfterTimeout(k), h, first, G)
  {
    MarkForResendSide(k, h, first, G);
    var k1 := MarkForResend(k);
    var k2 := k1.(ctl := k1.ctl.(retransmitCount := k1.ctl.retransmitCount + 1, fastTimeout := true));
    SameSide(k1, k2, h, first, G);
    if Head(k2.send) in k2.send.win {
      SendPacketSide(k2, Head(k2.send), h, first, G);
    }
  }

  lemma RtoExpiredSide(k: Sock, probeTimedOut: bool, h: History, first: int, G: set<int>)
    requires SenderSide(k, h, first, G)
    ensures SenderSide(RtoExpired(k, probeTimedOut).0, h, first, G)
  {
    if k.state == SynRecv || GiveUp(k) {
      SameSide(k, RtoExpired(k, probeTimedOut).0, h, first, G);
    } else {
      var newTimeout := if probeTimedOut then k.ctl.retransmitTimeout else k.ctl.retransmitTimeout * 2;
      var k0 := k.(ctl := k.ctl.(retransmitTimeout := newTimeout));
      SameSide(k, k0, h, first, G);
      ResendAfterTimeoutSide(k0, h, first, G);
    }
  }

  lemma RunTimersSide(k: Sock, timers: Timers, h: History, first: int, G: set<int>)
    requires SenderSide(k, h, first, G)
    ensures SenderSide(MaybeExpire(LiftZeroWindow(k, timers), timers).0, h, first, G)
  {
    var k1 := LiftZeroWindow(k, timers);
    SameSide(k, k1, h, first, G);
    RtoExpiredSide(k1, timers.probeTimedOut, h, first, G);
  }

  lemma KeepAliveSide(k: Sock, timers: Timers, env: Env, h: History, first: int, G: set<int>)
    requires SenderSide(k, h, first, G)
    ensures SenderSide(KeepAlive(ReopenWindow(k, env), timers, env), h, first, G)
  {
    SameSide(k, ReopenWindow(k, env), h, first, G);
    SendKeepAliveSide(ReopenWindow(k, env), env, h, first, G);
  }

  lemma CheckTimeoutsSide(k: Sock, timers: Timers, before: Env, after: Env, h: History, first: int, G: set<int>)
    requires SenderSide(k, h, first, G)
    ensures SenderSide(CheckTimeouts(k, timers, before, after), h, first, G)
  {
    FlushSide(k, before, h, first, G);
    var k0 := FlushUnlessDestroyed(k, before);
    RunTimersSide(k0, timers, h, first, G);
    KeepAliveSide(MaybeExpire(LiftZeroWindow(k0, timers), timers).0, timers, after, h, first, G);
  }
}
