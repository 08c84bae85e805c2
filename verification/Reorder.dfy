/** The receiver's reorder ring, for packets from any sender, until the end of the stream has
    been reached. */
module Reorder {
  import opened Serial
  import opened Protocol
  import opened Conservation
  import opened Sack
  import Ring

  /** The ring stands for `m`: the packets received above a gap. Nothing is stored under
      `ack` or `ack + 1`, and `reorderCount` counts what is stored. */
  ghost predicate Stores(r: RecvState, m: map<int, Bytes>) {
    && Ring.Agrees(r.inbuf, r.ack, m)
    && r.ack !in m && r.ack + 1 !in m
    && r.reorderCount == |m|
    && |r.inbuf| <= 2 * REORDER_BUFFER_MAX_SIZE
  }

  /** The same, except that `ack + 1` may have become deliverable. */
  ghost predicate StoresMidway(r: RecvState, m: map<int, Bytes>) {
    && Ring.Agrees(r.inbuf, r.ack, m)
    && r.ack !in m
    && r.reorderCount == |m|
    && |r.inbuf| <= 2 * REORDER_BUFFER_MAX_SIZE
  }

  /** Everything stored lies in `[ack + 2, ack + size - 1]`. */
  lemma StoredRange(r: RecvState, m: map<int, Bytes>, n: int)
    requires Stores(r, m) && n in m
    ensures r.ack + 2 <= n <= r.ack + |r.inbuf| - 1
    ensures Ring.Get(r.inbuf, n) == Some(m[n])
    ensures Ring.Get(r.inbuf, r.ack) == None && Ring.Get(r.inbuf, r.ack + 1) == None
  {
    Ring.AgreesRange(r.inbuf, r.ack, m, n);
    Ring.AgreesRange(r.inbuf, r.ack, m, r.ack);
    Ring.AgreesRange(r.inbuf, r.ack, m, r.ack + 1);
  }

  // ---------------------------------------------------------------- delivering

  predicate AtEof(r: RecvState, n: int) {
    r.gotFin && r.eofPkt == W(n)
  }

  /** The last number delivered when delivery starts after `n`: it stops at the end of the
      stream or below the first gap. */
  function StopAt(r: RecvState, m: map<int, Bytes>, n: int): int
    decreases |m|
  {
    if AtEof(r, n) || n + 1 !in m then n
    else
      assert |m - {n + 1}| < |m| by { RemoveOne(m, n + 1); }
      StopAt(r, m - {n + 1}, n + 1)
  }

  lemma RemoveOne<T>(m: map<int, T>, n: int)
    requires n in m
    ensures |m - {n}| == |m| - 1
  {
    assert (m - {n}).Keys == m.Keys - {n};
    assert |(m - {n}).Keys| == |m.Keys| - 1;
  }

  lemma AddOne<T>(m: map<int, T>, n: int, x: T)
    requires n !in m
    ensures |m[n := x]| == |m| + 1
  {
    assert m[n := x].Keys == m.Keys + {n};
  }

  function ReadEvent(data: Bytes, shut: bool): seq<Event> {
    if data != [] && !shut then [OnRead(data)] else []
  }

  /** One read for each number of `[lo, hi)`, in order. */
  function Reads(m: map<int, Bytes>, lo: int, hi: int, shut: bool): seq<Event>
    decreases hi - lo
  {
    if lo >= hi || lo !in m then [] else ReadEvent(m[lo], shut) + Reads(m, lo + 1, hi, shut)
  }

  function Above(m: map<int, Bytes>, n: int): map<int, Bytes> {
    map i | i in m && i > n :: m[i]
  }

  lemma {:induction false} ReadsIgnoresBelow(m: map<int, Bytes>, n: int, lo: int, hi: int, shut: bool)
    requires n < lo
    ensures Reads(m - {n}, lo, hi, shut) == Reads(m, lo, hi, shut)
    decreases hi - lo
  {
    if lo < hi && lo in m {
      ReadsIgnoresBelow(m, n, lo + 1, hi, shut);
    }
  }

  lemma {:induction false} StopAtContiguous(r: RecvState, m: map<int, Bytes>, n: int)
    ensures var stop := StopAt(r, m, n);
            && stop >= n
            && (forall i :: n < i <= stop ==> i in m)
            && (AtEof(r, stop) || stop + 1 !in m)
    decreases |m|
  {
    if !AtEof(r, n) && n + 1 in m {
      RemoveOne(m, n + 1);
      StopAtContiguous(r, m - {n + 1}, n + 1);
      var stop := StopAt(r, m, n);
      forall i | n < i <= stop
        ensures i in m
      {
        assert i == n + 1 || i in m - {n + 1};
      }
    }
  }

  lemma DrainRound(k: Sock, env: Env)
    requires !AtEof(k.recv, k.recv.ack) && k.recv.reorderCount > 0
    requires Ring.Get(k.recv.inbuf, k.recv.ack + 1).Some?
    ensures Drain(k, env) == Drain(Drained(k, Ring.Get(k.recv.inbuf, k.recv.ack + 1).value), env)
  {
  }

  lemma DrainedStores(k: Sock, m: map<int, Bytes>)
    requires StoresMidway(k.recv, m) && k.recv.ack + 1 in m
    ensures k.recv.reorderCount > 0 && Ring.Get(k.recv.inbuf, k.recv.ack + 1) == Some(m[k.recv.ack + 1])
    ensures StoresMidway(Drained(k, m[k.recv.ack + 1]).recv, m - {k.recv.ack + 1})
  {
    RemoveOne(m, k.recv.ack + 1);
    Ring.AgreesTakeNext(k.recv.inbuf, k.recv.ack, m);
  }

  /** What is reported while draining: the contiguous run above `ack`, number by number, and
      then the end of the stream if that was reached. */
  function DrainEvents(r: RecvState, m: map<int, Bytes>): seq<Event> {
    var stop := StopAt(r, m, r.ack);
    Reads(m, r.ack + 1, stop + 1, r.readShutdown) + if AtEof(r, stop) then [OnEof] else []
  }

  /** Reaching the end of the stream is acknowledged at once. */
  function EofAck(k: Sock, stop: int, env: Env): Packet {
    Packet(StState, W(k.send.next), W(stop), env.rcvWindow, None, [])
  }

  ghost predicate DrainResult(k: Sock, k': Sock, env: Env, m: map<int, Bytes>) {
    var r, r' := k.recv, k'.recv;
    var stop := StopAt(r, m, r.ack);
    var eof := AtEof(r, stop);
    && r'.ack == stop
    && r'.gotFin == r.gotFin && r'.eofPkt == r.eofPkt && r'.readShutdown == r.readShutdown
    && r'.gotFinReached == eof
    && Ring.Agrees(r'.inbuf, stop, Above(m, stop)) && |r'.inbuf| == |r.inbuf|
    && r'.reorderCount == (if eof then 0 else |Above(m, stop)|)
    && k'.events == k.events + DrainEvents(r, m)
    && k'.out == k.out + (if eof then [EofAck(k, stop, env)] else [])
    && k'.tags == k.tags + (if eof then [Tag(k.send.next, stop)] else [])
    && k'.send == k.send && k'.state == k.state
  }

  lemma {:induction false} DrainExact(k: Sock, env: Env, m: map<int, Bytes>)
    requires StoresMidway(k.recv, m) && !k.recv.gotFinReached
    ensures DrainResult(k, Drain(k, env), env, m)
    decreases |m|
  {
    if AtEof(k.recv, k.recv.ack) {
      DrainEof(k, env, m);
    } else if k.recv.ack + 1 !in m {
      DrainNothing(k, env, m);
    } else {
      var data := m[k.recv.ack + 1];
      var m1 := m - {k.recv.ack + 1};
      RemoveOne(m, k.recv.ack + 1);
      DrainedStores(k, m);
      DrainRound(k, env);
      DrainExact(Drained(k, data), env, m1);
      DrainCompose(k, Drain(k, env), env, m);
    }
  }

  lemma DrainEof(k: Sock, env: Env, m: map<int, Bytes>)
    requires StoresMidway(k.recv, m) && !k.recv.gotFinReached && AtEof(k.recv, k.recv.ack)
    ensures DrainResult(k, Drain(k, env), env, m)
  {
    AllAbove(k.recv, m);
    assert Drain(k, env) == PostEof(k, env);
    assert DrainEvents(k.recv, m) == [OnEof];
  }

  lemma AllAbove(r: RecvState, m: map<int, Bytes>)
    requires StoresMidway(r, m)
    ensures Above(m, r.ack) == m
  {
    forall n | n in m
      ensures n > r.ack
    {
      Ring.AgreesRange(r.inbuf, r.ack, m, n);
    }
  }

  lemma DrainNothing(k: Sock, env: Env, m: map<int, Bytes>)
    requires StoresMidway(k.recv, m) && !k.recv.gotFinReached
    requires !AtEof(k.recv, k.recv.ack) && k.recv.ack + 1 !in m
    ensures DrainResult(k, Drain(k, env), env, m)
  {
    RingIsEmptyAt(k.recv, m);
    AllAbove(k.recv, m);
    assert Drain(k, env) == k;
    assert DrainEvents(k.recv, m) == [];
  }

  lemma RingIsEmptyAt(r: RecvState, m: map<int, Bytes>)
    requires StoresMidway(r, m) && r.ack + 1 !in m
    ensures Ring.Get(r.inbuf, r.ack + 1) == None
  {
    Ring.AgreesRange(r.inbuf, r.ack, m, r.ack + 1);
  }

  lemma StopAtStep(r: RecvState, r1: RecvState, m: map<int, Bytes>, n: int)
    requires !AtEof(r, n) && n + 1 in m && r1.gotFin == r.gotFin && r1.eofPkt == r.eofPkt
    ensures StopAt(r1, m - {n + 1}, n + 1) == StopAt(r, m, n) >= n + 1
  {
    RemoveOne(m, n + 1);
    StopAtSameEnd(r, r1, m - {n + 1}, n + 1);
    StopAtContiguous(r, m - {n + 1}, n + 1);
  }

  /** Delivering one number and then the rest reports what delivering all reports. */
  lemma DrainEventsStep(r: RecvState, r1: RecvState, m: map<int, Bytes>)
    requires !AtEof(r, r.ack) && r.ack + 1 in m
    requires r1 == r.(ack := r.ack + 1, reorderCount := r1.reorderCount, inbuf := r1.inbuf)
    ensures DrainEvents(r, m) == ReadEvent(m[r.ack + 1], r.readShutdown) + DrainEvents(r1, m - {r.ack + 1})
  {
    var m1 := m - {r.ack + 1};
    StopAtStep(r, r1, m, r.ack);
    var stop := StopAt(r, m, r.ack);
    ReadsIgnoresBelow(m, r.ack + 1, r.ack + 2, stop + 1, r.readShutdown);
    var first, rest := ReadEvent(m[r.ack + 1], r.readShutdown), Reads(m1, r.ack + 2, stop + 1, r.readShutdown);
    var last := if AtEof(r, stop) then [OnEof] else [];
    assert Reads(m, r.ack + 1, stop + 1, r.readShutdown) == first + rest;
    assert (first + rest) + last == first + (rest + last);
  }

  lemma DrainCompose(k: Sock, k': Sock, env: Env, m: map<int, Bytes>)
    requires !AtEof(k.recv, k.recv.ack) && k.recv.ack + 1 in m && k.recv.reorderCount > 0
    requires DrainResult(Drained(k, m[k.recv.ack + 1]), k', env, m - {k.recv.ack + 1})
    ensures DrainResult(k, k', env, m)
  {
    var r, data := k.recv, m[k.recv.ack + 1];
    var m1 := m - {r.ack + 1};
    var k1 := Drained(k, data);
    var stop := StopAt(r, m, r.ack);
    DrainEventsStep(r, k1.recv, m);
    StopAtStep(r, k1.recv, m, r.ack);
    assert Above(m1, stop) == Above(m, stop);
    assert k1.events == k.events + ReadEvent(data, r.readShutdown);
    assert k'.events == k.events + DrainEvents(r, m);
    assert AtEof(k1.recv, stop) == AtEof(r, stop);
    assert |k1.recv.inbuf| == |r.inbuf|;
  }

  lemma {:induction false} StopAtSameEnd(r: RecvState, r': RecvState, m: map<int, Bytes>, n: int)
    requires r.gotFin == r'.gotFin && r.eofPkt == r'.eofPkt
    ensures StopAt(r, m, n) == StopAt(r', m, n)
    decreases |m|
  {
    if !AtEof(r, n) && n + 1 in m {
      RemoveOne(m, n + 1);
      StopAtSameEnd(r, r', m - {n + 1}, n + 1);
    }
  }

  /** A packet in order: it is read, and everything it made deliverable after it. */
  lemma DeliverInOrderExact(k: Sock, payload: Bytes, env: Env, m: map<int, Bytes>)
    requires Stores(k.recv, m) && !k.recv.gotFinReached
    ensures var k1 := Read(k, payload);
            var k2 := k1.(recv := k1.recv.(ack := k1.recv.ack + 1));
            StoresMidway(k2.recv, m) && DrainResult(k2, DeliverInOrder(k, payload, env), env, m)
  {
    var k1 := Read(k, payload);
    var k2 := k1.(recv := k1.recv.(ack := k1.recv.ack + 1));
    OneMoreInOrder(k.recv, k2.recv, m);
    DrainExact(k2, env, m);
    AckPendingKeeps(k2, Drain(k2, env), env, m);
  }

  lemma OneMoreInOrder(r: RecvState, r': RecvState, m: map<int, Bytes>)
    requires Stores(r, m) && r' == r.(ack := r.ack + 1)
    ensures StoresMidway(r', m)
  {
    Ring.AgreesSlide(r.inbuf, r.ack, m);
  }

  lemma AckPendingKeeps(k: Sock, k': Sock, env: Env, m: map<int, Bytes>)
    requires DrainResult(k, k', env, m)
    ensures DrainResult(k, k'.(ackPending := true), env, m)
  {
  }

  /** What `StoreOutOfOrder` does once there is room in the ring. */
  lemma StoreIs(r: RecvState, p: Packet, seqnr: nat, buf: seq<Option<Bytes>>, there: bool) returns (r': RecvState)
    requires r.inbuf != [] && buf == Ring.Ensure(r.inbuf, p.seqNr + 1, seqnr + 1)
    requires there == Ring.Get(buf, p.seqNr).Some?
    ensures StoreOutOfOrder(r, p, seqnr) == (r', !there)
    ensures r' == r.(inbuf := r'.inbuf, reorderCount := if there then r.reorderCount else r.reorderCount + 1)
    ensures r'.inbuf == if there then buf else Ring.Put(buf, p.seqNr, p.payload)
  {
    r' := StoreOutOfOrder(r, p, seqnr).0;
  }

  /** The ring with room for the packet, before and after it is put there. */
  lemma StoreMakesRoom(r: RecvState, p: Packet, seqnr: nat, m: map<int, Bytes>, n: int, buf: seq<Option<Bytes>>)
    requires Stores(r, m) && 1 <= seqnr < REORDER_BUFFER_MAX_SIZE && n == r.ack + 1 + seqnr && p.seqNr == W(n)
    requires buf == Ring.Ensure(r.inbuf, p.seqNr + 1, seqnr + 1)
    ensures 1 < |buf| <= 2 * REORDER_BUFFER_MAX_SIZE && (Ring.Get(buf, p.seqNr).Some? <==> n in m)
    ensures n in m ==> Ring.Agrees(buf, r.ack, m)
    ensures n !in m ==> Ring.Agrees(Ring.Put(buf, p.seqNr, p.payload), r.ack, m[n := p.payload])
  {
    Ring.AgreesStore(r.inbuf, r.ack, m, p.seqNr, seqnr, p.payload);
  }

  /** A packet above a gap is stored once; a duplicate changes nothing but the ring's size. */
  lemma StoreOutOfOrderExact(r: RecvState, p: Packet, seqnr: nat, m: map<int, Bytes>)
    requires Stores(r, m)
    requires 1 <= seqnr < REORDER_BUFFER_MAX_SIZE && p.seqNr == W(r.ack + 1 + seqnr)
    ensures var n := r.ack + 1 + seqnr;
            && Stores(StoreOutOfOrder(r, p, seqnr).0, if n in m then m else m[n := p.payload])
            && StoreOutOfOrder(r, p, seqnr).1 == (n !in m)
  {
    var n := r.ack + 1 + seqnr;
    var buf := Ring.Ensure(r.inbuf, p.seqNr + 1, seqnr + 1);
    StoreMakesRoom(r, p, seqnr, m, n, buf);
    var r' := StoreIs(r, p, seqnr, buf, n in m);
    if n in m {
      Stored(r, r', m, m, n, p.payload);
    } else {
      Stored(r, r', m, m[n := p.payload], n, p.payload);
    }
  }

  lemma Stored(r: RecvState, r': RecvState, m: map<int, Bytes>, m': map<int, Bytes>, n: int, x: Bytes)
    requires Stores(r, m) && n > r.ack + 1 && Ring.Agrees(r'.inbuf, r.ack, m')
    requires m' == if n in m then m else m[n := x]
    requires r' == r.(inbuf := r'.inbuf, reorderCount := if n in m then r.reorderCount else r.reorderCount + 1)
    requires |r'.inbuf| <= 2 * REORDER_BUFFER_MAX_SIZE
    ensures Stores(r', m')
  {
    if n !in m {
      AddOne(m, n, x);
    }
  }

  /** The largest offset that is let in, 1,023, makes room for 2,048 packets, whatever the size before. */
  lemma RingGrowsTo2048(r: RecvState, p: Packet)
    requires Ring.RingSize(|r.inbuf|) && 0 < |r.inbuf| <= 1024
    ensures |StoreOutOfOrder(r, p, REORDER_BUFFER_MAX_SIZE - 1).0.inbuf| == 2048
  {
    var size := Ring.GrownSize(|r.inbuf|, 1024);
    Ring.GrownSizeProperties(|r.inbuf|, 1024);
    var k: nat :| k <= 16 && size == Ring.Pow2(k);
    assert Ring.Pow2(10) == 1024 by { assert Ring.Pow2(5) == 32; }
    if k <= 10 {
      Ring.Pow2Monotone(k, 10);
    } else {
      Ring.Pow2Monotone(11, k);
    }
  }

  // ---------------------------------------------------------------- acknowledging

  lemma {:induction false} HeldAt(inbuf: seq<Option<Bytes>>, n: int, count: nat, i: nat)
    requires i < count
    ensures HeldFrom(inbuf, n, count)[i] == Ring.Get(inbuf, n + i).Some?
  {
    if i < count - 1 {
      HeldAt(inbuf, n, count - 1, i);
    }
  }

  /** The mask names exactly the stored numbers among the first 30 (or ring size) above the
      gap: no bit is set because two numbers share a slot. */
  lemma SackBitsExact(r: RecvState, m: map<int, Bytes>, i: nat)
    requires Stores(r, m) && i < Min(SACK_BITS, |r.inbuf|)
    ensures SackBits(r)[i] <==> r.ack + 2 + i in m
  {
    HeldAt(r.inbuf, r.ack + 2, Min(SACK_BITS, |r.inbuf|), i);
    Ring.AgreesBeyond(r.inbuf, r.ack, m, r.ack + 2 + i);
  }

  /** So does the mask of a keep-alive, which starts one number lower. */
  lemma KeepAliveBitsExact(r: RecvState, m: map<int, Bytes>, i: nat)
    requires Stores(r, m) && i < Min(SACK_BITS, |r.inbuf|)
    ensures SackBits(r.(ack := r.ack - 1))[i] <==> r.ack + 1 + i in m
  {
    HeldAt(r.inbuf, r.ack + 1, Min(SACK_BITS, |r.inbuf|), i);
    Ring.AgreesBeyond(r.inbuf, r.ack, m, r.ack + 1 + i);
  }
}
