/** `flush_packets` resumes at a cursor instead of scanning the whole window. The result is the
    same as that of the full scan whenever nothing before the cursor is waiting to be sent,
    and every operation keeps that so while the cursor is less than 64,512 numbers behind. */
module FlushCursor {
  import opened Serial
  import opened Protocol
  import opened Conservation

  /** The scan without a cursor: from the head of the window to its end. */
  function FullScan(k: Sock, left: nat, env: Env): (Sock, bool)
    decreases left
  {
    if left == 0 then (k, false) else
    var n := k.send.next - left;
    if Settled(k.send.win, n) then FullScan(k, left - 1, env)
    else if IsFull(k, -1, env) then (k, true)
    else if left != 1 || k.send.count == 1 || |k.send.win[n].payload| >= env.packetSize then
      FullScan(SendPacket(k, n), left - 1, env)
    else FullScan(k, left - 1, env)
  }

  const MAX_LAG := MOD16 - 1024

  /** How far the cursor is behind the next number, as far as 16 bits can tell. */
  function Lag(s: SendState): nat {
    W(s.next - s.flushScanStart)
  }

  ghost predicate SettledBefore(s: SendState, cursor: int) {
    forall n :: Head(s) <= n < cursor ==> Settled(s.win, n)
  }

  ghost predicate CursorAt(s: SendState, cursor: int) {
    && W(cursor) == s.flushScanStart
    && cursor <= s.next
    && SettledBefore(s, cursor)
  }

  ghost predicate CursorInv(s: SendState) {
    SettledBefore(s, s.next - Lag(s))
  }

  // ---------------------------------------------------------------- refinement

  /** The same socket, up to the cursor. */
  ghost predicate UpToCursor(k: Sock, k': Sock) {
    k' == WithCursor(k, k'.send.flushScanStart)
  }

  lemma SendUpToCursor(k: Sock, k': Sock, n: int, cursor: U16)
    requires UpToCursor(k, k') && n in k.send.win
    ensures UpToCursor(SendPacket(k, n), WithCursor(SendPacket(k', n), cursor))
  {
  }

  lemma MoveUpToCursor(k: Sock, k': Sock, cursor: U16)
    requires UpToCursor(k, k')
    ensures UpToCursor(k, WithCursor(k', cursor))
  {
  }

  ghost predicate SameOutcome(r: (Sock, bool), r': (Sock, bool)) {
    UpToCursor(r.0, r'.0) && r.1 == r'.1
  }

  lemma {:induction false} ScanForgetsCursor(k: Sock, k': Sock, left: nat, inPrefix: bool, env: Env)
    requires UpToCursor(k, k')
    ensures SameOutcome(FullScan(k, left, env), FlushScan(k', left, inPrefix, env))
    decreases left
  {
    if left > 0 {
      var n := k.send.next - left;
      var cursor := if inPrefix then W(n + 1) else k'.send.flushScanStart;
      assert k'.send.win == k.send.win && k'.send.next == k.send.next && k'.send.count == k.send.count;
      if Settled(k.send.win, n) {
        MoveUpToCursor(k, k', cursor);
        ScanForgetsCursor(k, WithCursor(k', cursor), left - 1, inPrefix, env);
      } else if IsFull(k, -1, env) {
        assert IsFull(k', -1, env);
      } else {
        assert !IsFull(k', -1, env);
        if left != 1 || k.send.count == 1 || |k.send.win[n].payload| >= env.packetSize {
          SendUpToCursor(k, k', n, cursor);
          ScanForgetsCursor(SendPacket(k, n), WithCursor(SendPacket(k', n), cursor), left - 1, inPrefix, env);
        } else {
          ScanForgetsCursor(k, k', left - 1, false, env);
        }
      }
    }
  }

  lemma {:induction false} ScanSkipsSettled(k: Sock, left: nat, span: nat, env: Env)
    requires span <= left <= k.send.count && SettledBefore(k.send, k.send.next - span)
    ensures FullScan(k, left, env) == FullScan(k, span, env)
    decreases left
  {
    if span < left {
      assert Settled(k.send.win, k.send.next - left);
      ScanSkipsSettled(k, left - 1, span, env);
    }
  }

  lemma SpanFromCursor(s: SendState)
    requires CursorInv(s)
    ensures FlushSpan(s) <= s.count && SettledBefore(s, s.next - FlushSpan(s))
  {
    var c := s.next - Lag(s);
    assert W(s.flushScanStart - Head(s)) == W(c - Head(s)) by {
      WDistance(s.flushScanStart, Head(s));
      WDistance(c, Head(s));
      WDistance(s.next, Lag(s));
      WDistance(s.next, s.next - s.flushScanStart);
    }
    WSmall(c - Head(s));
  }

  /** Scanning from the cursor sends the same packets in the same order, and reports the same
      result, as scanning the whole window; only the cursor itself may end up elsewhere. */
  lemma FlushRefinesFullScan(k: Sock, env: Env)
    requires CursorInv(k.send)
    ensures SameOutcome(FullScan(k, k.send.count, env), Flush(k, env))
  {
    SpanFromCursor(k.send);
    ScanSkipsSettled(k, k.send.count, FlushSpan(k.send), env);
    ScanForgetsCursor(k, k, FlushSpan(k.send), true, env);
  }

  // ---------------------------------------------------------------- exactly when

  /** Is a packet of `[lo, hi)` waiting to be sent? */
  ghost predicate Waits(win: map<int, OutPkt>, lo: int, hi: int) {
    exists n :: lo <= n < hi && !Settled(win, n)
  }

  /** The last packet waits, but to be filled up: the scan passes it over. */
  predicate HeldBack(k: Sock, env: Env) {
    var n := k.send.next - 1;
    n in k.send.win && !InFlight(k.send.win[n]) && k.send.count != 1 && |k.send.win[n].payload| < env.packetSize
  }

  /** Do the scans of the last `left` and of the last `span` numbers do the same? They do when
      nothing waits in between; when the window is full and both of them stop; or when all that
      waits in between is the last packet, held back. */
  ghost predicate ScansAgree(k: Sock, left: nat, span: nat, env: Env) {
    var next := k.send.next;
    || !Waits(k.send.win, next - left, next - span)
    || (IsFull(k, -1, env) && Waits(k.send.win, next - span, next))
    || (!IsFull(k, -1, env) && span == 0 && !Waits(k.send.win, next - left, next - 1) && HeldBack(k, env))
  }

  lemma {:induction false} FullScanWhenFull(k: Sock, left: nat, env: Env)
    requires IsFull(k, -1, env)
    ensures FullScan(k, left, env) == (k, Waits(k.send.win, k.send.next - left, k.send.next))
    decreases left
  {
    if left > 0 && Settled(k.send.win, k.send.next - left) {
      FullScanWhenFull(k, left - 1, env);
    }
  }

  /** The scan leaves the cursor and what is below its start alone. */
  lemma {:induction false} FullScanSpares(k: Sock, left: nat, env: Env, n: int)
    requires n in k.send.win && n < k.send.next - left
    ensures var s' := FullScan(k, left, env).0.send;
            n in s'.win && s'.win[n] == k.send.win[n]
    decreases left
  {
    if left > 0 {
      var i := k.send.next - left;
      if Settled(k.send.win, i) {
        FullScanSpares(k, left - 1, env, n);
      } else if !IsFull(k, -1, env) {
        if left != 1 || k.send.count == 1 || |k.send.win[i].payload| >= env.packetSize {
          FullScanSpares(SendPacket(k, i), left - 1, env, n);
        } else {
          FullScanSpares(k, left - 1, env, n);
        }
      }
    }
  }

  lemma {:induction false} FullScanKeepsCursor(k: Sock, left: nat, env: Env)
    ensures FullScan(k, left, env).0.send.flushScanStart == k.send.flushScanStart
    decreases left
  {
    if left > 0 {
      var i := k.send.next - left;
      if Settled(k.send.win, i) {
        FullScanKeepsCursor(k, left - 1, env);
      } else if !IsFull(k, -1, env) {
        if left != 1 || k.send.count == 1 || |k.send.win[i].payload| >= env.packetSize {
          FullScanKeepsCursor(SendPacket(k, i), left - 1, env);
        } else {
          FullScanKeepsCursor(k, left - 1, env);
        }
      }
    }
  }

  lemma {:induction false} ScansAgreeExactly(k: Sock, left: nat, span: nat, env: Env)
    requires span <= left <= k.send.count
    ensures FullScan(k, left, env) == FullScan(k, span, env) <==> ScansAgree(k, left, span, env)
    decreases left
  {
    var n := k.send.next - left;
    if span < left {
      if Settled(k.send.win, n) {
        ScansAgreeExactly(k, left - 1, span, env);
        WaitsAbove(k.send.win, n, k.send.next - span);
        WaitsAbove(k.send.win, n, k.send.next - 1);
      } else if IsFull(k, -1, env) {
        FullScanWhenFull(k, left, env);
        FullScanWhenFull(k, span, env);
      } else if left != 1 || k.send.count == 1 || |k.send.win[n].payload| >= env.packetSize {
        FullScanSpares(SendPacket(k, n), left - 1, env, n);
        FullScanSpares(k, span, env, n);
      }
    }
  }

  lemma WaitsAbove(win: map<int, OutPkt>, lo: int, hi: int)
    requires Settled(win, lo)
    ensures Waits(win, lo, hi) == Waits(win, lo + 1, hi)
  {
  }

  /** When the flush from the cursor does what the full scan does. */
  ghost predicate FlushAgrees(k: Sock, env: Env) {
    ScansAgree(k, k.send.count, FlushSpan(k.send), env)
  }

  /** The flush from the cursor sends the same packets in the same order, and reports the same
      result, as scanning the whole window, if and only if nothing that the cursor passes over
      waits, or the window is full and something behind the cursor waits too, or all it passes
      over is a last packet that is held back. */
  lemma FlushExactly(k: Sock, env: Env)
    ensures SameOutcome(FullScan(k, k.send.count, env), Flush(k, env)) <==> FlushAgrees(k, env)
  {
    ScanForgetsCursor(k, k, FlushSpan(k.send), true, env);
    ScansAgreeExactly(k, k.send.count, FlushSpan(k.send), env);
    FullScanKeepsCursor(k, k.send.count, env);
    FullScanKeepsCursor(k, FlushSpan(k.send), env);
    OneScan(FullScan(k, k.send.count, env), FullScan(k, FlushSpan(k.send), env), Flush(k, env));
  }

  lemma OneScan(r1: (Sock, bool), r2: (Sock, bool), r: (Sock, bool))
    requires SameOutcome(r2, r) && r1.0.send.flushScanStart == r2.0.send.flushScanStart
    ensures SameOutcome(r1, r) <==> r1 == r2
  {
  }

  /** Without the condition the refinement fails: with the cursor past an unsent packet the
      flush misses it. */
  lemma StaleCursorMissesPacket(env: Env)
    requires env.packetSize == 1400 && env.windowLimit == 3000
    ensures var pkt := OutPkt(StData, 7, 0, [1], 0, false);
            var k := Fresh().(send := Fresh().send.(next := 8, count := 1, win := map[7 := pkt], flushScanStart := 8));
            && SenderInv(k) && !CursorInv(k.send)
            && |Flush(k, env).0.out| == 0 && |FullScan(k, 1, env).0.out| == 1
  {
    var pkt := OutPkt(StData, 7, 0, [1], 0, false);
    var k := Fresh().(send := Fresh().send.(next := 8, count := 1, win := map[7 := pkt], flushScanStart := 8));
    assert Conservation.Ring.RingSize(16) by { assert Conservation.Ring.Pow2(4) == 16; }
    assert BytesInFlight(k.send.win, 7, 8) == BytesInFlight(k.send.win, 7, 7);
    assert !Settled(k.send.win, 7);
    assert FlushSpan(k.send) == 0;
    assert FullScan(k, 1, env) == FullScan(SendPacket(k, 7), 0, env);
  }

  // ---------------------------------------------------------------- the cursor is kept

  lemma CursorAtIsLag(s: SendState, cursor: int)
    requires CursorAt(s, cursor) && s.next - cursor < MOD16
    ensures CursorInv(s) && cursor == s.next - Lag(s)
  {
    WDistance(s.next, cursor);
    WSmall(s.next - cursor);
  }

  lemma LagIsCursor(s: SendState)
    requires CursorInv(s)
    ensures CursorAt(s, s.next - Lag(s))
  {
    WDistance(s.next, s.next - s.flushScanStart);
    WSmall(s.flushScanStart);
  }

  lemma SendPacketSettles(k: Sock, n: int, cursor: int)
    requires n in k.send.win && SettledBefore(k.send, cursor)
    ensures SettledBefore(SendPacket(k, n).send, cursor)
    ensures Settled(SendPacket(k, n).send.win, n)
  {
    forall i | Head(k.send) <= i < cursor
      ensures Settled(SendPacket(k, n).send.win, i)
    {
      assert Settled(k.send.win, i);
    }
  }

  /** The cursor may step past a settled packet when all before it are settled. */
  lemma CursorSteps(k: Sock, n: int)
    requires SettledBefore(k.send, n) && Settled(k.send.win, n) && n < k.send.next
    ensures CursorAt(WithCursor(k, W(n + 1)).send, n + 1)
  {
  }

  lemma {:induction false} FlushScanCursor(k: Sock, left: nat, inPrefix: bool, env: Env, cursor: int)
    returns (cursor': int)
    requires CursorAt(k.send, cursor) && left <= k.send.count
    requires inPrefix ==> SettledBefore(k.send, k.send.next - left)
    ensures CursorAt(FlushScan(k, left, inPrefix, env).0.send, cursor')
    ensures cursor' == cursor || cursor' > k.send.next - left
    decreases left, 1
  {
    cursor' := cursor;
    if left > 0 {
      var n := k.send.next - left;
      if Settled(k.send.win, n) {
        if inPrefix {
          CursorSteps(k, n);
          cursor' := FlushScanCursor(WithCursor(k, W(n + 1)), left - 1, inPrefix, env, n + 1);
        } else {
          cursor' := FlushScanCursor(WithCursor(k, k.send.flushScanStart), left - 1, inPrefix, env, cursor);
        }
      } else if !IsFull(k, -1, env) {
        if left != 1 || k.send.count == 1 || |k.send.win[n].payload| >= env.packetSize {
          cursor' := FlushSendCursor(k, left, inPrefix, env, cursor);
        } else {
          cursor' := FlushScanCursor(k, left - 1, false, env, cursor);
        }
      }
    }
  }

  lemma {:induction false} FlushSendCursor(k: Sock, left: nat, inPrefix: bool, env: Env, cursor: int)
    returns (cursor': int)
    requires CursorAt(k.send, cursor) && 0 < left <= k.send.count
    requires inPrefix ==> SettledBefore(k.send, k.send.next - left)
    requires k.send.next - left in k.send.win
    ensures var n := k.send.next - left;
            var next := if inPrefix then W(n + 1) else k.send.flushScanStart;
            CursorAt(FlushScan(WithCursor(SendPacket(k, n), next), left - 1, inPrefix, env).0.send, cursor')
    ensures cursor' == cursor || cursor' > k.send.next - left
    decreases left, 0
  {
    var n := k.send.next - left;
    SendPacketSettles(k, n, cursor);
    var k1 := SendPacket(k, n);
    if inPrefix {
      SendPacketSettles(k, n, n);
      CursorSteps(k1, n);
      cursor' := FlushScanCursor(WithCursor(k1, W(n + 1)), left - 1, inPrefix, env, n + 1);
    } else {
      cursor' := FlushScanCursor(WithCursor(k1, k1.send.flushScanStart), left - 1, inPrefix, env, cursor);
    }
  }

  /** A flush never moves the cursor back. */
  lemma FlushCursorMoves(k: Sock, env: Env, cursor: int) returns (cursor': int)
    requires CursorAt(k.send, cursor) && k.send.next - cursor < MOD16 && k.send.count < MOD16
    ensures CursorAt(Flush(k, env).0.send, cursor') && cursor' >= cursor
  {
    CursorAtIsLag(k.send, cursor);
    SpanFromCursor(k.send);
    SpanStart(k.send, cursor);
    cursor' := FlushScanCursor(k, FlushSpan(k.send), true, env, cursor);
  }

  lemma SpanStart(s: SendState, cursor: int)
    requires CursorAt(s, cursor) && s.next - cursor < MOD16 && s.count < MOD16
    ensures s.next - FlushSpan(s) >= cursor
  {
    assert W(s.flushScanStart - Head(s)) == W(cursor - Head(s)) by {
      WDistance(cursor, Head(s));
    }
    WSmall(cursor - Head(s));
  }

  lemma WriteRoundsCursor(k: Sock, typ: PacketType, data: Bytes, env: Env, cursor: int)
    requires CursorAt(k.send, cursor)
    ensures CursorAt(WriteRounds(k, typ, data, env).send, cursor)
    ensures Head(WriteRounds(k, typ, data, env).send) == Head(k.send)
    decreases |data|
  {
    var added := Added(k.send, data, env.packetSize);
    var k1 := WriteRound(k, typ, data, env);
    forall n | Head(k.send) <= n < cursor
      ensures Settled(k1.send.win, n)
    {
      assert Settled(k.send.win, n);
    }
    if added < |data| {
      WriteRoundsCursor(k1, typ, data[added..], env, cursor);
    }
  }

  lemma WriteOutgoingPacketCursor(k: Sock, typ: PacketType, data: Bytes, env: Env, cursor: int) returns (cursor': int)
    requires SenderInv(k) && CursorAt(k.send, cursor)
    requires k.send.count < if k.send.finSent then 1024 else 1023
    requires WriteOutgoingPacket(k, typ, data, env).send.next - cursor < MOD16
    ensures CursorAt(WriteOutgoingPacket(k, typ, data, env).send, cursor') && cursor' >= cursor
    ensures Head(WriteOutgoingPacket(k, typ, data, env).send) == Head(k.send)
  {
    var k0 := if k.send.count == 0 then k.(ctl := k.ctl.(retransmitTimeout := env.rto)) else k;
    WriteRoundsKeeps(k0, typ, data, env);
    WriteRoundsCursor(k0, typ, data, env, cursor);
    var k1 := WriteRounds(k0, typ, data, env);
    FlushScanShape(k1, FlushSpan(k1.send), true, env);
    cursor' := FlushCursorMoves(k1, env, cursor);
  }

  lemma {:induction false} WriteChunksCursor(k: Sock, data: Bytes, env: Env, cursor: int) returns (cursor': int)
    requires SenderInv(k) && !k.send.finSent && CursorAt(k.send, cursor)
    requires WriteChunks(k, data, env).0.send.next - cursor < MOD16
    ensures CursorAt(WriteChunks(k, data, env).0.send, cursor') && cursor' >= cursor
    ensures Head(WriteChunks(k, data, env).0.send) == Head(k.send)
    decreases |data|
  {
    cursor' := cursor;
    var num := Min(|data|, env.packetSize);
    if !IsFull(k, num, env) {
      var k1 := WriteOutgoingPacket(k, StData, data[..num], env);
      WriteOutgoingPacketKeeps(k, StData, data[..num], env);
      WriteOutgoingPacketHead(k, StData, data[..num], env);
      if Min(|data| - num, env.packetSize) != 0 {
        WriteChunksHead(k1, data[num..], env);
        var c := WriteOutgoingPacketCursor(k, StData, data[..num], env, cursor);
        cursor' := WriteChunksCursor(k1, data[num..], env, c);
      } else {
        cursor' := WriteOutgoingPacketCursor(k, StData, data[..num], env, cursor);
      }
    }
  }

  lemma {:induction false} WriteRoundsHead(k: Sock, typ: PacketType, data: Bytes, env: Env)
    ensures Head(WriteRounds(k, typ, data, env).send) == Head(k.send)
    ensures WriteRounds(k, typ, data, env).send.next >= k.send.next
    decreases |data|
  {
    var added := Added(k.send, data, env.packetSize);
    if added < |data| {
      WriteRoundsHead(WriteRound(k, typ, data, env), typ, data[added..], env);
    }
  }

  lemma WriteOutgoingPacketHead(k: Sock, typ: PacketType, data: Bytes, env: Env)
    ensures Head(WriteOutgoingPacket(k, typ, data, env).send) == Head(k.send)
    ensures WriteOutgoingPacket(k, typ, data, env).send.next >= k.send.next
  {
    var k0 := if k.send.count == 0 then k.(ctl := k.ctl.(retransmitTimeout := env.rto)) else k;
    WriteRoundsHead(k0, typ, data, env);
    var k1 := WriteRounds(k0, typ, data, env);
    FlushScanShape(k1, FlushSpan(k1.send), true, env);
  }

  lemma {:induction false} WriteChunksHead(k: Sock, data: Bytes, env: Env)
    ensures Head(WriteChunks(k, data, env).0.send) == Head(k.send)
    ensures WriteChunks(k, data, env).0.send.next >= k.send.next
    decreases |data|
  {
    var num := Min(|data|, env.packetSize);
    if !IsFull(k, num, env) {
      WriteOutgoingPacketHead(k, StData, data[..num], env);
      if Min(|data| - num, env.packetSize) != 0 {
        WriteChunksHead(WriteOutgoingPacket(k, StData, data[..num], env), data[num..], env);
      }
    }
  }

  /** `s'` still has everything settled that `s` had, and the same cursor. */
  ghost predicate SettledStays(s: SendState, s': SendState) {
    && s'.flushScanStart == s.flushScanStart && s'.next == s.next && Head(s') >= Head(s)
    && (forall n :: Settled(s.win, n) ==> Settled(s'.win, n))
    && (forall n :: Frozen(s.win, n) ==> Frozen(s'.win, n))
  }

  lemma SendKeepsSettled(k: Sock, n: int)
    requires n in k.send.win
    ensures SettledStays(k.send, SendPacket(k, n).send)
  {
  }

  lemma {:induction false} AckCumulativeSettled(k: Sock, acks: nat, env: Env)
    ensures SettledStays(k.send, AckCumulative(k, acks, env).send)
    decreases acks
  {
    if acks != 0 && k.send.count != 0 {
      var (k1, status) := AckPacket(k, Head(k.send), env);
      if status != NeverSent {
        AckCumulativeSettled(k1.(send := k1.send.(count := k1.send.count - 1)), acks - 1, env);
      }
    }
  }

  lemma {:induction false} SkipAckedSettled(k: Sock)
    ensures SettledStays(k.send, SkipAcked(k).send)
    decreases k.send.count
  {
    if k.send.count > 0 && Head(k.send) !in k.send.win {
      SkipAckedSettled(k.(send := k.send.(count := k.send.count - 1)));
    }
  }

  lemma FastTimeoutSettled(k: Sock)
    ensures SettledStays(k.send, FastTimeout(k).send)
  {
  }

  lemma SendLoneUnsentSettled(k: Sock)
    ensures SettledStays(k.send, SendLoneUnsent(k).send)
  {
  }

  lemma SettledTransitive(s: SendState, s1: SendState, s2: SendState)
    requires SettledStays(s, s1) && SettledStays(s1, s2)
    ensures SettledStays(s, s2)
  {
  }

  lemma AdvanceSendWindowSettled(k: Sock, p: Packet, acks: nat, env: Env)
    ensures SettledStays(k.send, AdvanceSendWindow(k, p, acks, env).send)
  {
    var k1 := RaiseFastResend(AdvanceState(k, p, acks), p.ackNr);
    assert SettledStays(k.send, k1.send);
    AckCumulativeSettled(k1, acks, env);
    var k2 := AckCumulative(k1, acks, env);
    SettledTransitive(k.send, k1.send, k2.send);
    SkipAckedSettled(k2);
    var k3 := SkipAcked(k2);
    SettledTransitive(k.send, k2.send, k3.send);
    SendLoneUnsentSettled(k3);
    var k4 := SendLoneUnsent(k3);
    SettledTransitive(k.send, k3.send, k4.send);
    FastTimeoutSettled(k4);
    SettledTransitive(k.send, k4.send, FastTimeout(k4).send);
  }

  lemma {:induction false} SackScanSettled(c: Scan, base: int, mask: Mask, bits: int, env: Env)
    requires -2 <= bits < 8 * |mask|
    ensures SettledStays(c.sock.send, SackScan(c, base, mask, bits, env).sock.send)
    decreases bits + 2
  {
    if bits != -2 {
      SackScanSettled(SackVisit(c, base, mask, bits, env), base, mask, bits - 1, env);
    }
  }

  lemma {:induction false} ResendLastSettled(k: Sock, resends: seq<U16>, budget: nat)
    ensures SettledStays(k.send, ResendLast(k, resends, budget).send)
    decreases |resends|
  {
    if resends != [] && budget != 0 {
      var v := resends[|resends| - 1];
      var rest := resends[..|resends| - 1];
      var n := if k.send.ringSize == 0 then v else Conservation.Ring.Alias(v, Head(k.send), k.send.ringSize);
      if n in k.send.win {
        SendKeepsSettled(Report(k, FastResend(v, |k.out|)), n);
        ResendLastSettled(ResendOne(k, v, n), rest, budget - 1);
      } else {
        ResendLastSettled(k, rest, budget);
      }
    }
  }

  lemma ProcessAcksSettled(k: Sock, p: Packet, env: Env)
    ensures SettledStays(k.send, ProcessAcks(k, p, env).send)
  {
    var acks := AckCount(W(k.send.next), k.send.count, p.ackNr);
    AdvanceSendWindowSettled(k, p, acks, env);
    var k1 := AdvanceSendWindow(k, p, acks, env);
    if p.sack.Some? && k1.send.count != 0 {
      var base, mask := p.ackNr + 2, p.sack.value;
      SackScanSettled(Scan(k1, 0, []), base, mask, 8 * |mask| - 1, env);
      var c := SackScan(Scan(k1, 0, []), base, mask, 8 * |mask| - 1, env);
      ResendLastSettled(c.sock, SackCandidates(c, base), MAX_RESENDS);
    }
  }

  lemma IncomingSettled(k: Sock, p: Packet, env: Env)
    ensures SettledStays(k.send, ProcessIncoming(k, p, env).0.send)
  {
    var k0 := LearnPeerNumber(k, p);
    ProcessAcksSettled(k0, p, env);
    var k1 := ReopenWindow(ProcessAcks(k0, p, env), env);
    DeliverDataKeepsSender(k1, p, IncomingOffset(k0, p), env);
  }

  lemma SettledStaysKeepsCursor(s: SendState, s': SendState)
    requires CursorInv(s) && SettledStays(s, s')
    ensures CursorInv(s')
  {
  }

  /** An expired timer resets the cursor to the head of the window, in front of everything
      it marked for resending. */
  lemma RtoExpiredCursor(k: Sock, probeTimedOut: bool, cursor: int) returns (cursor': int)
    requires SenderInv(k) && CursorAt(k.send, cursor) && k.send.next - cursor < MOD16
    ensures var k' := RtoExpired(k, probeTimedOut).0;
            CursorAt(k'.send, cursor') && k'.send.next - cursor' < MOD16
    ensures RtoExpired(k, probeTimedOut).0.send.next == k.send.next
  {
    if k.state == SynRecv || GiveUp(k) {
      cursor' := cursor;
    } else {
      cursor' := Head(k.send);
    }
  }

  lemma FlushUnlessDestroyedCursor(k: Sock, env: Env, cursor: int) returns (cursor': int)
    requires CursorAt(k.send, cursor) && k.send.next - cursor < MOD16 && k.send.count < MOD16
    ensures var k' := FlushUnlessDestroyed(k, env);
            CursorAt(k'.send, cursor') && k'.send.next - cursor' < MOD16
  {
    cursor' := cursor;
    if k.state != Destroy {
      FlushScanShape(k, FlushSpan(k.send), true, env);
      cursor' := FlushCursorMoves(k, env, cursor);
    }
  }

  lemma MaybeExpireCursor(k: Sock, timers: Timers)
    requires SenderInv(k) && CursorInv(k.send)
    ensures CursorInv(MaybeExpire(k, timers).0.send)
  {
    LagIsCursor(k.send);
    if timers.expired {
      var c := RtoExpiredCursor(k, timers.probeTimedOut, k.send.next - Lag(k.send));
      CursorAtIsLag(RtoExpired(k, timers.probeTimedOut).0.send, c);
    }
  }

  lemma CheckTimeoutsCursor(k: Sock, timers: Timers, before: Env, after: Env)
    requires SenderInv(k) && CursorInv(k.send)
    ensures CursorInv(CheckTimeouts(k, timers, before, after).send)
  {
    LagIsCursor(k.send);
    FlushUnlessDestroyedKeeps(k, before);
    var k0 := FlushUnlessDestroyed(k, before);
    var c := FlushUnlessDestroyedCursor(k, before, k.send.next - Lag(k.send));
    CursorAtIsLag(k0.send, c);
    var k1 := LiftZeroWindow(k0, timers);
    LiftZeroWindowKeeps(k0, timers);
    SettledStaysKeepsCursor(k0.send, k1.send);
    MaybeExpireCursor(k1, timers);
    var k2 := MaybeExpire(k1, timers).0;
    SettledStaysKeepsCursor(k2.send, KeepAlive(ReopenWindow(k2, after), timers, after).send);
  }

  /** No call adds enough packets to carry the cursor a whole turn behind. */
  lemma GrowthKeepsLag(k: Sock, k': Sock, cursor: int)
    requires k.send.next - cursor < MAX_LAG
    requires k'.send.count <= 1024 && Head(k'.send) == Head(k.send)
    ensures k'.send.next - cursor < MOD16
  {
  }

  lemma SendFinCursor(k: Sock, env: Env)
    requires SenderInv(k) && !k.send.finSent && CursorInv(k.send) && Lag(k.send) < MAX_LAG
    ensures CursorInv(SendFin(k, env).send)
  {
    LagIsCursor(k.send);
    var k1 := k.(send := k.send.(finSent := true));
    assert SenderInv(k1) by { SameWindow(k, k1); }
    var c := k.send.next - Lag(k.send);
    SendFinKeeps(k, env);
    WriteOutgoingPacketHead(k1, StFin, [], env);
    GrowthKeepsLag(k1, SendFin(k, env), c);
    var c' := WriteOutgoingPacketCursor(k1, StFin, [], env, c);
    CursorAtIsLag(SendFin(k, env).send, c');
  }

  lemma WritevCursor(k: Sock, data: Bytes, env: Env)
    requires SenderInv(k) && CursorInv(k.send) && Lag(k.send) < MAX_LAG
    ensures CursorInv(Writev(k, data, env).0.send)
  {
    if k.state == Connected && !k.send.finSent {
      LagIsCursor(k.send);
      var c := k.send.next - Lag(k.send);
      var k' := WriteChunks(k, data, env).0;
      WriteChunksKeeps(k, data, env);
      WriteChunksHead(k, data, env);
      GrowthKeepsLag(k, k', c);
      var c' := WriteChunksCursor(k, data, env, c);
      CursorAtIsLag(k'.send, c');
    }
  }

  lemma CloseCursor(k: Sock, env: Env)
    requires SenderInv(k) && CursorInv(k.send) && Lag(k.send) < MAX_LAG
    ensures CursorInv(Close(k, env).send)
  {
    var k1 := MarkReadShutdown(k);
    var k2 := k1.(send := k1.send.(closeRequested := true));
    SameWindow(k, k2);
    SettledStaysKeepsCursor(k.send, k2.send);
    if !k2.send.finSent {
      SendFinCursor(k2, env);
    }
  }

  lemma ShutdownCursor(k: Sock, how: How, env: Env)
    requires SenderInv(k) && CursorInv(k.send) && Lag(k.send) < MAX_LAG
    ensures CursorInv(Shutdown(k, how, env).send)
  {
    var k1 := if how != ShutWr then MarkReadShutdown(k) else k;
    SameWindow(k, k1);
    if !k1.send.finSent {
      SendFinCursor(k1, env);
    }
  }

  lemma DoKeepsCursor(k: Sock, c: Call)
    requires SenderInv(k) && CursorInv(k.send) && Lag(k.send) < MAX_LAG
    ensures CursorInv(Do(k, c).send)
  {
    match c {
      case CallWritev(data, env) => WritevCursor(k, data, env);
      case CallIncoming(p, env) =>
        IncomingSettled(k, p, env);
        SettledStaysKeepsCursor(k.send, ProcessIncoming(k, p, env).0.send);
      case CallTimeouts(timers, before, after) => CheckTimeoutsCursor(k, timers, before, after);
      case CallClose(env) => CloseCursor(k, env);
      case CallShutdown(how, env) => ShutdownCursor(k, how, env);
      case _ => SettledStaysKeepsCursor(k.send, Do(k, c).send);
    }
  }

  /** Over every run in which the cursor is less than 64,512 numbers behind whenever a call is
      made, the flush at the end still does what the full scan does. */
  lemma {:induction false} FlushRefinesOverRuns(k: Sock, calls: seq<Call>, env: Env)
    requires SenderInv(k) && CursorInv(k.send)
    requires forall i :: 0 <= i < |calls| ==> Lag(DoAll(k, calls[..i]).send) < MAX_LAG
    ensures var k' := DoAll(k, calls);
            && SenderInv(k') && CursorInv(k'.send)
            && SameOutcome(FullScan(k', k'.send.count, env), Flush(k', env))
    decreases |calls|
  {
    if calls != [] {
      var init := calls[..|calls| - 1];
      forall i | 0 <= i < |init|
        ensures Lag(DoAll(k, init[..i]).send) < MAX_LAG
      {
        assert init[..i] == calls[..i];
      }
      FlushRefinesOverRuns(k, init, env);
      DoKeeps(DoAll(k, init), calls[|calls| - 1]);
      DoKeepsCursor(DoAll(k, init), calls[|calls| - 1]);
    }
    FlushRefinesFullScan(DoAll(k, calls), env);
  }

  /** At the end of any run at all, from either way of opening a connection, the flush does what the
      full scan does exactly when nothing that matters is passed over. */
  lemma FlushExactlyOverRuns(openEnv: Env, seqNr: U16, peerSeq: U16, calls: seq<Call>, env: Env)
    ensures var k := DoAll(Connect(Fresh(), seqNr, openEnv), calls);
            SameOutcome(FullScan(k, k.send.count, env), Flush(k, env)) <==> FlushAgrees(k, env)
    ensures var k := DoAll(AcceptSyn(Fresh(), peerSeq, seqNr), calls);
            SameOutcome(FullScan(k, k.send.count, env), Flush(k, env)) <==> FlushAgrees(k, env)
  {
    FlushExactly(DoAll(Connect(Fresh(), seqNr, openEnv), calls), env);
    FlushExactly(DoAll(AcceptSyn(Fresh(), peerSeq, seqNr), calls), env);
  }

  /** `connect` leaves the cursor at 1 while the packet numbers start at random: the condition
      holds from the start whatever the number, because the SYN has been sent. */
  lemma CursorAfterConnect(env: Env, seqNr: U16, peerSeq: U16)
    ensures CursorInv(Connect(Fresh(), seqNr, env).send)
    ensures CursorInv(AcceptSyn(Fresh(), peerSeq, seqNr).send)
    ensures Lag(Connect(Fresh(), seqNr, env).send) == seqNr
  {
    assert Settled(Connect(Fresh(), seqNr, env).send.win, seqNr);
  }
}
