/** How `writev` cuts what it accepts into packets. */
module Segmentation {
  import opened Serial
  import opened Protocol
  import opened Conservation

  /** The payload bytes of the window, oldest packet first. */
  function WindowBytes(win: map<int, OutPkt>, lo: int, hi: int): Bytes
    decreases hi - lo
  {
    if lo >= hi then []
    else WindowBytes(win, lo, hi - 1) + if hi - 1 in win then win[hi - 1].payload else []
  }

  /** `s'` is `s` with `data` added at the end of the window: only a last packet that was never
      sent is filled up, every other packet keeps its bytes, and no packet is made longer than
      `packetSize`. */
  ghost predicate Wrote(s: SendState, s': SendState, data: Bytes, packetSize: nat) {
    && Head(s') == Head(s) && s'.next >= s.next
    && (forall n :: n in s.win ==> n in s'.win && s'.win[n].transmissions >= s.win[n].transmissions)
    && (forall n :: n in s.win && (n != s.next - 1 || s.win[n].transmissions > 0) ==>
          s'.win[n].payload == s.win[n].payload)
    && (forall n :: n in s'.win ==>
          (n in s.win && s'.win[n].payload == s.win[n].payload) || |s'.win[n].payload| <= packetSize)
    && (forall n :: s.next <= n < s'.next ==> n in s'.win)
    && WindowBytes(s'.win, Head(s), s'.next) == WindowBytes(s.win, Head(s), s.next) + data
  }

  lemma {:induction false} BytesAgree(win: map<int, OutPkt>, win': map<int, OutPkt>, lo: int, hi: int)
    requires forall n :: lo <= n < hi ==> (n in win <==> n in win') && (n in win ==> win'[n].payload == win[n].payload)
    ensures WindowBytes(win', lo, hi) == WindowBytes(win, lo, hi)
    decreases hi - lo
  {
    if lo < hi {
      BytesAgree(win, win', lo, hi - 1);
    }
  }

  lemma WroteTransitive(s: SendState, s1: SendState, s2: SendState, data1: Bytes, data2: Bytes, packetSize: nat)
    requires Wrote(s, s1, data1, packetSize) && Wrote(s1, s2, data2, packetSize)
    requires forall n :: n in s.win ==> n < s.next
    ensures Wrote(s, s2, data1 + data2, packetSize)
  {
    assert WindowBytes(s.win, Head(s), s.next) + data1 + data2 == WindowBytes(s.win, Head(s), s.next) + (data1 + data2);
    forall n | n in s.win && (n != s.next - 1 || s.win[n].transmissions > 0)
      ensures s2.win[n].payload == s.win[n].payload
    {
      assert s1.win[n].payload == s.win[n].payload;
    }
  }

  lemma TopUpWrote(k: Sock, typ: PacketType, data: Bytes, env: Env)
    requires WindowInv(k) && CanTopUp(k.send, env.packetSize)
    requires |k.send.win[k.send.next - 1].payload| + |data| <= env.packetSize
    ensures Wrote(k.send, TopUp(k, typ, data, env).send, data, env.packetSize)
  {
    var s, s' := k.send, TopUp(k, typ, data, env).send;
    BytesAgree(s.win, s'.win, Head(s), s.next - 1);
    assert WindowBytes(s.win, Head(s), s.next - 1) + s.win[s.next - 1].payload + data
        == WindowBytes(s.win, Head(s), s.next - 1) + (s.win[s.next - 1].payload + data);
  }

  lemma AppendWrote(k: Sock, typ: PacketType, data: Bytes, env: Env)
    requires WindowInv(k) && |data| <= env.packetSize
    ensures Wrote(k.send, Append(k, typ, data, env).send, data, env.packetSize)
  {
    BytesAgree(k.send.win, Append(k, typ, data, env).send.win, Head(k.send), k.send.next);
  }

  /** One call fills up the last packet, or adds a packet, or does the one and then the other. */
  lemma WriteRoundsIs(k: Sock, typ: PacketType, data: Bytes, env: Env)
    requires |data| <= env.packetSize
    ensures var added := Added(k.send, data, env.packetSize);
            WriteRounds(k, typ, data, env) ==
              if data == [] || !CanTopUp(k.send, env.packetSize) then Append(k, typ, data, env)
              else if added == |data| then TopUp(k, typ, data, env)
              else Append(TopUp(k, typ, data[..added], env), typ, data[added..], env)
  {
    var added := Added(k.send, data, env.packetSize);
    assert data[..|data|] == data;
    if data != [] && CanTopUp(k.send, env.packetSize) && added < |data| {
      var k1 := TopUp(k, typ, data[..added], env);
      assert !CanTopUp(k1.send, env.packetSize);
    }
  }

  lemma TopUpAndAppendWrote(k: Sock, typ: PacketType, data: Bytes, added: nat, k1: Sock, env: Env)
    requires SenderInv(k) && k.send.count < OUTGOING_BUFFER_MAX_SIZE && added <= |data| <= env.packetSize
    requires CanTopUp(k.send, env.packetSize) && |k.send.win[k.send.next - 1].payload| + added <= env.packetSize
    requires k1 == TopUp(k, typ, data[..added], env)
    ensures Wrote(k.send, Append(k1, typ, data[added..], env).send, data, env.packetSize)
  {
    TopUpWrote(k, typ, data[..added], env);
    TopUpKeeps(k, typ, data[..added], env);
    AppendWrote(k1, typ, data[added..], env);
    JoinWrote(k.send, k1.send, Append(k1, typ, data[added..], env).send, data, added, env.packetSize);
  }

  lemma JoinWrote(s: SendState, s1: SendState, s2: SendState, data: Bytes, mid: nat, packetSize: nat)
    requires mid <= |data| && Wrote(s, s1, data[..mid], packetSize) && Wrote(s1, s2, data[mid..], packetSize)
    requires forall n :: n in s.win ==> n < s.next
    ensures Wrote(s, s2, data, packetSize)
  {
    WroteTransitive(s, s1, s2, data[..mid], data[mid..], packetSize);
    assert data[..mid] + data[mid..] == data;
  }

  lemma WriteRoundsWrote(k: Sock, typ: PacketType, data: Bytes, env: Env)
    requires SenderInv(k) && k.send.count < OUTGOING_BUFFER_MAX_SIZE && |data| <= env.packetSize
    ensures Wrote(k.send, WriteRounds(k, typ, data, env).send, data, env.packetSize)
  {
    WriteRoundsIs(k, typ, data, env);
    var added := Added(k.send, data, env.packetSize);
    if data == [] || !CanTopUp(k.send, env.packetSize) {
      AppendWrote(k, typ, data, env);
    } else if added == |data| {
      TopUpWrote(k, typ, data, env);
    } else {
      TopUpAndAppendWrote(k, typ, data, added, TopUp(k, typ, data[..added], env), env);
    }
  }

  /** Sending changes no payload. */
  ghost predicate SamePayloads(s: SendState, s': SendState) {
    && s'.win.Keys == s.win.Keys
    && forall n :: n in s.win ==>
         s'.win[n].payload == s.win[n].payload && s'.win[n].transmissions >= s.win[n].transmissions
  }

  lemma {:induction false} FlushScanPayloads(k: Sock, left: nat, inPrefix: bool, env: Env)
    ensures SamePayloads(k.send, FlushScan(k, left, inPrefix, env).0.send)
    decreases left
  {
    if left > 0 {
      var n := k.send.next - left;
      var cursor := if inPrefix then W(n + 1) else k.send.flushScanStart;
      if Settled(k.send.win, n) {
        FlushScanPayloads(WithCursor(k, cursor), left - 1, inPrefix, env);
      } else if !IsFull(k, -1, env) {
        if left != 1 || k.send.count == 1 || |k.send.win[n].payload| >= env.packetSize {
          FlushScanPayloads(WithCursor(SendPacket(k, n), cursor), left - 1, inPrefix, env);
        } else {
          FlushScanPayloads(k, left - 1, false, env);
        }
      }
    }
  }

  lemma FlushWrote(k: Sock, env: Env)
    ensures Wrote(k.send, Flush(k, env).0.send, [], env.packetSize)
  {
    var k' := Flush(k, env).0;
    FlushScanPayloads(k, FlushSpan(k.send), true, env);
    FlushScanShape(k, FlushSpan(k.send), true, env);
    BytesAgree(k.send.win, k'.send.win, Head(k.send), k.send.next);
  }

  lemma WriteOutgoingPacketWrote(k: Sock, typ: PacketType, data: Bytes, env: Env)
    requires SenderInv(k) && k.send.count < OUTGOING_BUFFER_MAX_SIZE && |data| <= env.packetSize
    ensures Wrote(k.send, WriteOutgoingPacket(k, typ, data, env).send, data, env.packetSize)
  {
    var k0 := if k.send.count == 0 then k.(ctl := k.ctl.(retransmitTimeout := env.rto)) else k;
    WriteRoundsWrote(k0, typ, data, env);
    var k1 := WriteRounds(k0, typ, data, env);
    FlushWrote(k1, env);
    WroteTransitive(k0.send, k1.send, Flush(k1, env).0.send, data, [], env.packetSize);
    assert data + [] == data;
  }

  /** The outcome of `WriteChunks`: so many bytes accepted, and exactly these written. */
  ghost predicate Accepts(s: SendState, r: (Sock, nat), data: Bytes, packetSize: nat) {
    r.1 <= |data| && Wrote(s, r.0.send, data[..r.1], packetSize)
  }

  lemma AcceptsNothing(k: Sock, k': Sock, data: Bytes, packetSize: nat)
    requires k'.send == k.send
    ensures Accepts(k.send, (k', 0), data, packetSize)
  {
    var s := k.send;
    assert WindowBytes(s.win, Head(s), s.next) + [] == WindowBytes(s.win, Head(s), s.next);
  }

  lemma AcceptsThen(s: SendState, s1: SendState, r: (Sock, nat), data: Bytes, num: nat, packetSize: nat)
    requires num <= |data| && Wrote(s, s1, data[..num], packetSize) && Accepts(s1, r, data[num..], packetSize)
    requires forall n :: n in s.win ==> n < s.next
    ensures Accepts(s, (r.0, num + r.1), data, packetSize)
  {
    WroteTransitive(s, s1, r.0.send, data[..num], data[num..][..r.1], packetSize);
    assert data[..num] + data[num..][..r.1] == data[..num + r.1];
  }

  /** The state between two rounds of `WriteChunks`. */
  lemma ChunkWritten(k: Sock, data: Bytes, num: nat, k1: Sock, env: Env)
    requires SenderInv(k) && !k.send.finSent && num == Min(|data|, env.packetSize)
    requires k1 == WriteOutgoingPacket(k, StData, data[..num], env) && !IsFull(k, num, env)
    ensures SenderInv(k1) && !k1.send.finSent && Wrote(k.send, k1.send, data[..num], env.packetSize)
  {
    WriteOutgoingPacketWrote(k, StData, data[..num], env);
    WriteOutgoingPacketKeeps(k, StData, data[..num], env);
  }

  /** One round of `WriteChunks` and what follows it. */
  lemma ChunkThen(k: Sock, k1: Sock, data: Bytes, num: nat, env: Env, r1: (Sock, nat), r: (Sock, nat))
    requires SenderInv(k) && num <= |data| && Wrote(k.send, k1.send, data[..num], env.packetSize)
    requires Accepts(k1.send, r1, data[num..], env.packetSize) && r == (r1.0, num + r1.1)
    ensures Accepts(k.send, r, data, env.packetSize)
  {
    AcceptsThen(k.send, k1.send, r1, data, num, env.packetSize);
  }

  /** What one round of `WriteChunks` leads to. */
  lemma WriteChunksIs(k: Sock, k1: Sock, data: Bytes, num: nat, env: Env, r: (Sock, nat), r1: (Sock, nat))
    requires num == Min(|data|, env.packetSize) && !IsFull(k, num, env) && r == WriteChunks(k, data, env)
    requires k1 == WriteOutgoingPacket(k, StData, data[..num], env) && r1 == WriteChunks(k1, data[num..], env)
    ensures r == if Min(|data| - num, env.packetSize) == 0 then (k1, num) else (r1.0, num + r1.1)
  {
  }

  lemma OnlyChunk(k: Sock, k1: Sock, data: Bytes, num: nat, env: Env, r: (Sock, nat))
    requires num <= |data| && Wrote(k.send, k1.send, data[..num], env.packetSize) && r == (k1, num)
    ensures Accepts(k.send, r, data, env.packetSize)
  {
  }

  lemma NoChunk(k: Sock, data: Bytes, num: nat, env: Env, r: (Sock, nat))
    requires num == Min(|data|, env.packetSize) && IsFull(k, num, env) && r == WriteChunks(k, data, env)
    ensures Accepts(k.send, r, data, env.packetSize)
  {
    AcceptsNothing(k, r.0, data, env.packetSize);
  }

  lemma {:induction false} WriteChunksWrote(k: Sock, data: Bytes, env: Env, r: (Sock, nat))
    requires SenderInv(k) && !k.send.finSent && r == WriteChunks(k, data, env)
    ensures Accepts(k.send, r, data, env.packetSize)
    decreases |data|
  {
    var num := Min(|data|, env.packetSize);
    if IsFull(k, num, env) {
      NoChunk(k, data, num, env, r);
    } else {
      var k1 := WriteOutgoingPacket(k, StData, data[..num], env);
      ChunkWritten(k, data, num, k1, env);
      var r1 := WriteChunks(k1, data[num..], env);
      WriteChunksIs(k, k1, data, num, env, r, r1);
      if Min(|data| - num, env.packetSize) != 0 {
        WriteChunksWrote(k1, data[num..], env, r1);
        ChunkThen(k, k1, data, num, env, r1, r);
      } else {
        OnlyChunk(k, k1, data, num, env, r);
      }
    }
  }

  /** Segmentation: the bytes accepted are the first ones offered, and the window afterwards holds
      what it held before followed by exactly these. */
  lemma WritevSegments(k: Sock, data: Bytes, env: Env)
    requires SenderInv(k)
    ensures Accepts(k.send, Writev(k, data, env), data, env.packetSize)
    ensures k.state == Connected && !k.send.finSent && env.packetSize > 0 && Writev(k, data, env).1 < |data|
        ==> IsFull(Writev(k, data, env).0, Min(|data| - Writev(k, data, env).1, env.packetSize), env)
  {
    if k.state == Connected && !k.send.finSent {
      WriteChunksWrote(k, data, env, Writev(k, data, env));
      if env.packetSize > 0 {
        WriteChunksStops(k, data, env);
      }
    } else {
      AcceptsNothing(k, k, data, env.packetSize);
    }
  }

  /** It stops early only because the window is full for the next piece. */
  lemma {:induction false} WriteChunksStops(k: Sock, data: Bytes, env: Env)
    requires env.packetSize > 0
    ensures var (k', sent) := WriteChunks(k, data, env);
            sent < |data| ==> IsFull(k', Min(|data| - sent, env.packetSize), env)
    decreases |data|
  {
    var num := Min(|data|, env.packetSize);
    if !IsFull(k, num, env) && Min(|data| - num, env.packetSize) != 0 {
      WriteChunksStops(WriteOutgoingPacket(k, StData, data[..num], env), data[num..], env);
    }
  }
}
