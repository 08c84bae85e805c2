/** The reorder ring over every run, whatever arrives: until the end of the stream has been
    reached it holds exactly what arrived above the gap, and delivers every number once and in
    order. */
module ReorderRuns {
  import opened Serial
  import opened Protocol
  import opened Conservation
  import opened Reorder
  import opened Channel
  import opened ChannelReceiver
  import Ring

  /** One number handed over: `shown` unless the application had closed its reading side. */
  datatype Delivery = Delivery(n: int, data: Bytes, shown: bool)

  function Shown(log: seq<Delivery>): Bytes {
    if log == [] then []
    else
      var last := log[|log| - 1];
      Shown(log[..|log| - 1]) + if last.shown then last.data else []
  }

  /** From `k` to `k'` the numbers after `k.recv.ack` were delivered one by one, as `log` says. */
  ghost predicate Progress(k: Sock, k': Sock, log: seq<Delivery>) {
    && k'.recv.ack == k.recv.ack + |log|
    && (forall i :: 0 <= i < |log| ==> log[i].n == k.recv.ack + 1 + i)
    && Delivered(k'.events) == Delivered(k.events) + Shown(log)
    && ShownWhileOpen(k.recv.readShutdown, k'.recv.readShutdown, log)
  }

  /** What is handed over is shown exactly until the reading side is closed, which is for good. */
  ghost predicate ShownWhileOpen(shut: bool, shut': bool, log: seq<Delivery>) {
    && (shut ==> shut' && forall i :: 0 <= i < |log| ==> !log[i].shown)
    && (!shut' ==> forall i :: 0 <= i < |log| ==> log[i].shown)
    && forall i, j :: 0 <= i < j < |log| && log[j].shown ==> log[i].shown
  }

  /** The ring holds `m`; while connecting it holds nothing. */
  ghost predicate Holds(k: Sock, m: map<int, Bytes>) {
    Stores(k.recv, m) && (k.state == SynSent ==> m == map[])
  }

  /** The receiving side is as it was, up to the window it advertised. */
  ghost predicate Still(k: Sock, k': Sock) {
    && k'.recv == k.recv.(lastRcvWin := k'.recv.lastRcvWin, readShutdown := k'.recv.readShutdown)
    && (k.recv.readShutdown ==> k'.recv.readShutdown)
    && (k'.state == SynSent ==> k.state == SynSent)
    && Delivered(k'.events) == Delivered(k.events)
  }

  lemma SpokeIsStill(k: Sock, k': Sock)
    requires Spoke(k, k')
    ensures Still(k, k')
  {
  }

  lemma StillThen(k: Sock, k1: Sock, k2: Sock)
    requires Still(k, k1) && Still(k1, k2)
    ensures Still(k, k2)
  {
  }

  lemma StillHolds(k: Sock, k': Sock, m: map<int, Bytes>)
    requires Still(k, k')
    ensures Progress(k, k', [])
    ensures Holds(k, m) ==> Holds(k', m)
  {
  }

  // ---------------------------------------------------------------- delivering

  /** What draining delivers above `ack`. */
  function LogOf(m: map<int, Bytes>, lo: int, hi: int, shown: bool): seq<Delivery>
    decreases hi - lo
  {
    if lo >= hi || hi - 1 !in m then [] else LogOf(m, lo, hi - 1, shown) + [Delivery(hi - 1, m[hi - 1], shown)]
  }

  lemma {:induction false} LogNumbers(m: map<int, Bytes>, lo: int, hi: int, shown: bool)
    requires lo <= hi && forall n :: lo <= n < hi ==> n in m
    ensures |LogOf(m, lo, hi, shown)| == hi - lo
    ensures forall i :: 0 <= i < hi - lo ==> LogOf(m, lo, hi, shown)[i] == Delivery(lo + i, m[lo + i], shown)
    decreases hi - lo
  {
    if lo < hi {
      LogNumbers(m, lo, hi - 1, shown);
    }
  }

  lemma {:induction false} ReadsSplit(m: map<int, Bytes>, lo: int, hi: int, shut: bool)
    requires lo < hi && forall n :: lo <= n < hi ==> n in m
    ensures Reads(m, lo, hi, shut) == Reads(m, lo, hi - 1, shut) + ReadEvent(m[hi - 1], shut)
    decreases hi - lo
  {
    if lo < hi - 1 {
      ReadsSplit(m, lo + 1, hi, shut);
    }
  }

  lemma {:induction false} ReadsShowLog(events: seq<Event>, m: map<int, Bytes>, lo: int, hi: int, shut: bool)
    requires lo <= hi && forall n :: lo <= n < hi ==> n in m
    ensures Delivered(events + Reads(m, lo, hi, shut)) == Delivered(events) + Shown(LogOf(m, lo, hi, !shut))
    decreases hi - lo
  {
    if lo == hi {
      assert events + [] == events;
    } else {
      ReadsSplit(m, lo, hi, shut);
      var low, last := Reads(m, lo, hi - 1, shut), ReadEvent(m[hi - 1], shut);
      assert events + (low + last) == (events + low) + last;
      ReadsShowLog(events, m, lo, hi - 1, shut);
      DeliveredRead(events + low, m[hi - 1], shut);
      var log := LogOf(m, lo, hi - 1, !shut);
      assert (log + [Delivery(hi - 1, m[hi - 1], !shut)])[..|log|] == log;
    }
  }

  lemma {:induction false} ShownJoin(a: seq<Delivery>, b: seq<Delivery>)
    ensures Shown(a + b) == Shown(a) + Shown(b)
    decreases |b|
  {
    if b == [] {
      assert a + b == a;
    } else {
      var b' := b[..|b| - 1];
      assert (a + b)[..|a + b| - 1] == a + b';
      ShownJoin(a, b');
    }
  }

  lemma ProgressThen(k: Sock, k1: Sock, k2: Sock, log1: seq<Delivery>, log2: seq<Delivery>)
    requires Progress(k, k1, log1) && Progress(k1, k2, log2)
    ensures Progress(k, k2, log1 + log2)
  {
    ShownJoin(log1, log2);
  }

  function DrainLog(r: RecvState, m: map<int, Bytes>): seq<Delivery> {
    LogOf(m, r.ack + 1, StopAt(r, m, r.ack) + 1, !r.readShutdown)
  }

  lemma DrainLogNumbers(r: RecvState, m: map<int, Bytes>, log: seq<Delivery>)
    requires log == DrainLog(r, m)
    ensures |log| == StopAt(r, m, r.ack) - r.ack
    ensures forall i :: 0 <= i < |log| ==> log[i].n == r.ack + 1 + i && log[i].n in m && log[i].data == m[log[i].n]
    ensures forall i :: 0 <= i < |log| ==> log[i].shown == !r.readShutdown
  {
    StopAtContiguous(r, m, r.ack);
    LogNumbers(m, r.ack + 1, StopAt(r, m, r.ack) + 1, !r.readShutdown);
  }

  lemma DrainShows(events: seq<Event>, events': seq<Event>, m: map<int, Bytes>, lo: int, hi: int, shut: bool, eof: bool,
                   log: seq<Delivery>)
    requires lo <= hi && forall n :: lo <= n < hi ==> n in m
    requires events' == events + (Reads(m, lo, hi, shut) + if eof then [OnEof] else [])
    requires log == LogOf(m, lo, hi, !shut)
    ensures Delivered(events') == Delivered(events) + Shown(log)
  {
    ReadsShowLog(events, m, lo, hi, shut);
    HandedThenEof(events, Reads(m, lo, hi, shut), eof);
  }

  lemma HandedThenEof(events: seq<Event>, handed: seq<Event>, eof: bool)
    ensures Delivered(events + (handed + if eof then [OnEof] else [])) == Delivered(events + handed)
  {
    EofShowsNothing(events + handed);
    var last := if eof then [OnEof] else [];
    assert events + (handed + last) == (events + handed) + last;
  }

  lemma DrainLeaves(k: Sock, k': Sock, env: Env, m: map<int, Bytes>)
    requires StoresMidway(k.recv, m) && DrainResult(k, k', env, m) && !k'.recv.gotFinReached
    ensures Stores(k'.recv, Above(m, k'.recv.ack))
  {
    StopAtContiguous(k.recv, m, k.recv.ack);
  }

  /** What one drain delivers, and what it leaves. */
  lemma DrainProgress(k: Sock, k': Sock, env: Env, m: map<int, Bytes>) returns (log: seq<Delivery>)
    requires StoresMidway(k.recv, m) && !k.recv.gotFinReached && DrainResult(k, k', env, m)
    ensures Progress(k, k', log)
    ensures forall i :: 0 <= i < |log| ==> log[i].n in m && log[i].data == m[log[i].n]
    ensures !k'.recv.gotFinReached ==> Stores(k'.recv, Above(m, k'.recv.ack))
  {
    log := DrainLog(k.recv, m);
    DrainLogNumbers(k.recv, m, log);
    StopAtContiguous(k.recv, m, k.recv.ack);
    var r, stop := k.recv, StopAt(k.recv, m, k.recv.ack);
    DrainShows(k.events, k'.events, m, r.ack + 1, stop + 1, r.readShutdown, AtEof(r, stop), log);
    if !k'.recv.gotFinReached {
      DrainLeaves(k, k', env, m);
    }
  }

  lemma EofShowsNothing(events: seq<Event>)
    ensures Delivered(events + [OnEof]) == Delivered(events) && Delivered(events + []) == Delivered(events)
  {
    DeliveredOne(events, OnEof);
    assert events + [] == events;
  }

  /** `m'` and `log` hold only what `m` held and the payload that came with the packet. */
  ghost predicate FromPacket(m: map<int, Bytes>, p: Packet, m': map<int, Bytes>, log: seq<Delivery>) {
    && (forall n :: n in m' ==> From(m, p, n, m'[n]))
    && (forall i :: 0 <= i < |log| ==> From(m, p, log[i].n, log[i].data))
  }

  predicate From(m: map<int, Bytes>, p: Packet, n: int, data: Bytes) {
    (n in m && m[n] == data) || (p.seqNr == W(n) && p.payload == data)
  }

  /** A packet in order is read first, and then whatever follows it in the ring. */
  lemma InOrderIs(k: Sock, k2: Sock, k': Sock, p: Packet, env: Env, m: map<int, Bytes>)
    requires Holds(k, m) && !k.recv.gotFinReached && k' == DeliverInOrder(k, p.payload, env)
    requires k2 == Read(k, p.payload).(recv := k.recv.(ack := k.recv.ack + 1))
    ensures StoresMidway(k2.recv, m) && !k2.recv.gotFinReached && DrainResult(k2, k', env, m)
    ensures k2.state == k.state && k'.state == k.state
  {
    DeliverInOrderExact(k, p.payload, env, m);
    assert Read(k, p.payload).recv == k.recv;
  }

  lemma InOrderProgress(k: Sock, k': Sock, p: Packet, env: Env, m: map<int, Bytes>)
    returns (m': map<int, Bytes>, log: seq<Delivery>)
    requires Holds(k, m) && !k.recv.gotFinReached && k.state != SynSent && p.seqNr == W(k.recv.ack + 1)
    requires k' == DeliverInOrder(k, p.payload, env)
    ensures Progress(k, k', log) && FromPacket(m, p, m', log)
    ensures !k'.recv.gotFinReached ==> Holds(k', m')
  {
    var k2 := Read(k, p.payload).(recv := k.recv.(ack := k.recv.ack + 1));
    InOrderIs(k, k2, k', p, env, m);
    var rest := DrainProgress(k2, k', env, m);
    var first := ReadProgress(k, k2, p.payload);
    log := JoinFirst(k, k2, k', p, m, first, rest);
    m' := Above(m, k'.recv.ack);
  }

  lemma JoinFirst(k: Sock, k2: Sock, k': Sock, p: Packet, m: map<int, Bytes>, first: seq<Delivery>, rest: seq<Delivery>)
    returns (log: seq<Delivery>)
    requires Progress(k, k2, first) && Progress(k2, k', rest) && |first| == 1
    requires first[0].data == p.payload && p.seqNr == W(k.recv.ack + 1)
    requires forall i :: 0 <= i < |rest| ==> rest[i].n in m && rest[i].data == m[rest[i].n]
    ensures Progress(k, k', log) && FromPacket(m, p, Above(m, k'.recv.ack), log)
  {
    ProgressThen(k, k2, k', first, rest);
    log := first + rest;
  }

  lemma ReadProgress(k: Sock, k2: Sock, data: Bytes) returns (first: seq<Delivery>)
    requires k2.recv.ack == k.recv.ack + 1 && k2.recv.readShutdown == k.recv.readShutdown
    requires k2.events == Read(k, data).events
    ensures Progress(k, k2, first) && |first| == 1 && first[0].data == data
  {
    var d := Delivery(k.recv.ack + 1, data, !k.recv.readShutdown);
    first := [d];
    ReadIsEvent(k, data);
    DeliveredRead(k.events, data, k.recv.readShutdown);
    ShownOne(d);
  }

  lemma ReadIsEvent(k: Sock, data: Bytes)
    ensures Read(k, data).events == k.events + ReadEvent(data, k.recv.readShutdown)
  {
    assert k.events + [] == k.events;
  }

  lemma ShownOne(d: Delivery)
    ensures Shown([d]) == if d.shown then d.data else []
  {
    assert [d][..0] == [];
  }

  lemma BufferProgress(k: Sock, k': Sock, p: Packet, seqnr: nat, m: map<int, Bytes>) returns (m': map<int, Bytes>)
    requires Holds(k, m) && k.state != SynSent && 1 <= seqnr < REORDER_BUFFER_MAX_SIZE
    requires p.seqNr == W(k.recv.ack + 1 + seqnr)
    requires k' == Buffer(k, p, seqnr).0
    ensures Progress(k, k', []) && FromPacket(m, p, m', [])
    ensures Holds(k', m') && k'.recv.gotFinReached == k.recv.gotFinReached
  {
    var n := k.recv.ack + 1 + seqnr;
    StoreOutOfOrderExact(k.recv, p, seqnr, m);
    m' := if n in m then m else m[n := p.payload];
    assert k'.recv == StoreOutOfOrder(k.recv, p, seqnr).0;
  }

  lemma NoteFinStill(k: Sock, k1: Sock, p: Packet, m: map<int, Bytes>)
    requires Holds(k, m) && k1 == NoteFin(k, p)
    ensures Holds(k1, m) && k1.recv.ack == k.recv.ack && k1.events == k.events && k1.state == k.state
    ensures k1.recv.readShutdown == k.recv.readShutdown
    ensures k1.recv.gotFinReached == k.recv.gotFinReached
  {
    StoresRingOnly(k.recv, k1.recv, m);
  }

  lemma DeliverProgress(k: Sock, k': Sock, p: Packet, seqnr: nat, env: Env, m: map<int, Bytes>)
    returns (m': map<int, Bytes>, log: seq<Delivery>)
    requires Holds(k, m) && !k.recv.gotFinReached && k.state != SynSent && p.seqNr == W(k.recv.ack + 1 + seqnr)
    requires k' == DeliverAt(k, p, seqnr, env).0
    ensures Progress(k, k', log) && FromPacket(m, p, m', log)
    ensures !k'.recv.gotFinReached ==> Holds(k', m')
  {
    m', log := m, [];
    if seqnr == 0 {
      m', log := InOrderProgress(k, k', p, env, m);
    } else if !(k.recv.gotFin && seqnr > W(k.recv.eofPkt - k.recv.ack - 1)) && seqnr <= 0x3ff {
      m' := BufferProgress(k, k', p, seqnr, m);
    }
  }

  lemma NumberOfOffset(seqNr: U16, ack: int)
    ensures W(ack + 1 + W(seqNr - ack - 1)) == seqNr
  {
    WShift(ack + 1 + W(seqNr - ack - 1), (seqNr - ack - 1) / MOD16);
    WSmall(seqNr);
  }

  /** While connecting nothing is delivered or stored, so learning where the peer's numbers start
      loses nothing. */
  lemma LearnHolds(k: Sock, k0: Sock, p: Packet, m: map<int, Bytes>)
    requires Holds(k, m) && k0 == LearnPeerNumber(k, p)
    ensures Holds(k0, m) && k0.events == k.events && k0.state == k.state
    ensures k0.recv.gotFinReached == k.recv.gotFinReached
  {
    if k.state == SynSent {
      Ring.AgreesEmpty<Bytes>(k.recv.inbuf, k.recv.ack, k0.recv.ack);
    }
  }

  lemma IncomingProgress(k: Sock, k': Sock, p: Packet, env: Env, m: map<int, Bytes>)
    returns (m': map<int, Bytes>, log: seq<Delivery>)
    requires Holds(k, m) && !k.recv.gotFinReached && k' == ProcessIncoming(k, p, env).0
    ensures k.state != SynSent ==> Progress(k, k', log)
    ensures FromPacket(m, p, m', log) && (!k'.recv.gotFinReached ==> Holds(k', m'))
  {
    m', log := m, [];
    if (p.typ == StSyn && k.state == SynRecv) || AckAcceptable(W(k.send.next), k.send.count, p.ackNr) {
      var k0 := LearnPeerNumber(k, p);
      LearnHolds(k, k0, p, m);
      var seqnr := IncomingOffset(k0, p);
      if seqnr < REORDER_BUFFER_MAX_SIZE {
        m', log := InWindowProgress(k0, k', p, seqnr, env, m);
      }
    }
  }

  /** What remains of an arriving packet after its acknowledgements have been processed. */
  lemma InWindowIs(k: Sock, k1: Sock, k': Sock, p: Packet, seqnr: nat, env: Env)
    requires k1 == ReopenWindow(ProcessAcks(k, p, env), env) && k' == ProcessInWindow(k, p, seqnr, env).0
    ensures Spoke(k, k1)
    ensures k' == k1 || (k1.state != SynSent && k' == DeliverAt(NoteFin(k1, p), p, seqnr, env).0)
  {
    ProcessAcksSpoke(k, p, env);
  }

  lemma InWindowProgress(k: Sock, k': Sock, p: Packet, seqnr: nat, env: Env, m: map<int, Bytes>)
    returns (m': map<int, Bytes>, log: seq<Delivery>)
    requires Holds(k, m) && !k.recv.gotFinReached && seqnr == IncomingOffset(k, p)
    requires k' == ProcessInWindow(k, p, seqnr, env).0
    ensures Progress(k, k', log)
    ensures FromPacket(m, p, m', log) && (!k'.recv.gotFinReached ==> Holds(k', m'))
  {
    var k1 := ReopenWindow(ProcessAcks(k, p, env), env);
    InWindowIs(k, k1, k', p, seqnr, env);
    m', log := AfterAcksProgress(k, k1, k', p, seqnr, env, m);
  }

  lemma AfterAcksProgress(k: Sock, k1: Sock, k': Sock, p: Packet, seqnr: nat, env: Env, m: map<int, Bytes>)
    returns (m': map<int, Bytes>, log: seq<Delivery>)
    requires Holds(k, m) && !k.recv.gotFinReached && seqnr == IncomingOffset(k, p) && Spoke(k, k1)
    requires k' == k1 || (k1.state != SynSent && k' == DeliverAt(NoteFin(k1, p), p, seqnr, env).0)
    ensures Progress(k, k', log)
    ensures FromPacket(m, p, m', log) && (!k'.recv.gotFinReached ==> Holds(k', m'))
  {
    m', log := m, [];
    SpokeIsStill(k, k1);
    StillHolds(k, k1, m);
    if k' != k1 {
      var k2 := NoteFin(k1, p);
      NoteFinStill(k1, k2, p, m);
      NumberOfOffset(p.seqNr, k.recv.ack);
      m', log := DeliverProgress(k2, k', p, seqnr, env, m);
    }
  }

  // ---------------------------------------------------------------- the other calls

  lemma SendAckStill(k: Sock, env: Env)
    ensures Still(k, SendAck(k, env)) && Still(k, SendKeepAlive(k, env))
  {
  }

  lemma SendFinStill(k: Sock, env: Env)
    ensures Still(k, SendFin(k, env))
  {
    var k1 := k.(send := k.send.(finSent := true));
    WriteOutgoingPacketSpoke(k1, StFin, [], env);
    SpokeIsStill(k1, SendFin(k, env));
    StillThen(k, k1, SendFin(k, env));
  }

  lemma CheckTimeoutsStill(k: Sock, timers: Timers, before: Env, after: Env)
    ensures Still(k, CheckTimeouts(k, timers, before, after))
  {
    CheckTimeoutsSpoke(k, timers, before, after);
    var k0 := FlushUnlessDestroyed(k, before);
    var k1 := MaybeExpire(LiftZeroWindow(k0, timers), timers).0;
    var k2 := ReopenWindow(k1, after);
    SpokeIsStill(k, k0);
    SpokeIsStill(k, k1);
    SpokeIsStill(k, k2);
    SendAckStill(k2, after);
    StillThen(k, k2, SendKeepAlive(k2, after));
  }

  lemma AbortStill(k: Sock)
    ensures Still(k, Abort(k))
  {
    DeliveredOne(k.events, OnError);
  }

  lemma WritevStill(k: Sock, data: Bytes, env: Env)
    ensures Still(k, Do(k, CallWritev(data, env)))
  {
    WriteChunksSpoke(k, data, env);
    SpokeIsStill(k, Do(k, CallWritev(data, env)));
  }

  lemma CloseStill(k: Sock, env: Env)
    ensures Still(k, Do(k, CallClose(env)))
  {
    var k1 := MarkReadShutdown(k);
    SendFinStill(k1.(send := k1.send.(closeRequested := true)), env);
  }

  lemma ShutdownStill(k: Sock, how: How, env: Env)
    ensures Still(k, Do(k, CallShutdown(how, env)))
  {
    SendFinStill(if how != ShutWr then MarkReadShutdown(k) else k, env);
  }

  lemma OtherCallStill(k: Sock, k': Sock, c: Call)
    requires !c.CallIncoming? && k' == Do(k, c)
    ensures Still(k, k')
  {
    match c {
      case CallWritev(data, env) => WritevStill(k, data, env);
      case CallTimeouts(timers, before, after) => CheckTimeoutsStill(k, timers, before, after);
      case CallClose(env) => CloseStill(k, env);
      case CallShutdown(how, env) => ShutdownStill(k, how, env);
      case CallReadDrained(env) => SendAckStill(k, env);
      case CallDeferredAck(env) => SendAckStill(k, env);
      case _ => AbortStill(k);
    }
  }

  // ---------------------------------------------------------------- runs

  /** `data` came in a packet of the run that carried the number `n`. */
  ghost predicate Came(calls: seq<Call>, n: int, data: Bytes) {
    exists i :: 0 <= i < |calls| && Carried(calls[i], n, data)
  }

  predicate Carried(c: Call, n: int, data: Bytes) {
    c.CallIncoming? && c.p.seqNr == W(n) && c.p.payload == data
  }

  /** Everything stored and everything delivered came in. */
  ghost predicate AllCame(calls: seq<Call>, m: map<int, Bytes>, log: seq<Delivery>) {
    && (forall n :: n in m ==> Came(calls, n, m[n]))
    && (forall i :: 0 <= i < |log| ==> Came(calls, log[i].n, log[i].data))
  }

  lemma CameBefore(calls: seq<Call>, c: Call, n: int, data: Bytes)
    requires Came(calls, n, data) || Carried(c, n, data)
    ensures Came(calls + [c], n, data)
  {
    if Came(calls, n, data) {
      var i :| 0 <= i < |calls| && Carried(calls[i], n, data);
      assert Carried((calls + [c])[i], n, data);
    } else {
      assert Carried((calls + [c])[|calls|], n, data);
    }
  }

  lemma AllCameBefore(calls: seq<Call>, c: Call, m: map<int, Bytes>, log: seq<Delivery>, m': map<int, Bytes>,
                      log': seq<Delivery>)
    requires AllCame(calls, m, log)
    requires if c.CallIncoming? then FromPacket(m, c.p, m', log') else m' == m && log' == []
    ensures AllCame(calls + [c], m', log + log')
  {
    forall n | n in m'
      ensures Came(calls + [c], n, m'[n])
    {
      assert c.CallIncoming? ==> From(m, c.p, n, m'[n]);
      CameBefore(calls, c, n, m'[n]);
    }
    forall i | 0 <= i < |log + log'|
      ensures Came(calls + [c], (log + log')[i].n, (log + log')[i].data)
    {
      var d := (log + log')[i];
      if i < |log| {
        assert Came(calls, log[i].n, log[i].data);
      } else {
        assert d == log'[i - |log|];
        assert From(m, c.p, d.n, d.data);
      }
      CameBefore(calls, c, d.n, d.data);
    }
  }

  lemma CallProgress(k: Sock, k': Sock, c: Call, m: map<int, Bytes>) returns (m': map<int, Bytes>, log: seq<Delivery>)
    requires Holds(k, m) && !k.recv.gotFinReached && k' == Do(k, c)
    ensures k.state != SynSent ==> Progress(k, k', log)
    ensures if c.CallIncoming? then FromPacket(m, c.p, m', log) else m' == m && log == []
    ensures !k'.recv.gotFinReached ==> Holds(k', m')
    ensures k'.state == SynSent ==> k.state == SynSent
  {
    if c.CallIncoming? {
      m', log := IncomingProgress(k, k', c.p, c.env, m);
      IncomingState(k, k', c.p, c.env);
    } else {
      m', log := m, [];
      OtherCallStill(k, k', c);
      StillHolds(k, k', m);
    }
  }

  lemma IncomingState(k: Sock, k': Sock, p: Packet, env: Env)
    requires k' == ProcessIncoming(k, p, env).0
    ensures k'.state == SynSent ==> k.state == SynSent
  {
    var k0 := LearnPeerNumber(k, p);
    ProcessAcksSpoke(k0, p, env);
    DeliverDataKeepsSender(ReopenWindow(ProcessAcks(k0, p, env), env), p, IncomingOffset(k0, p), env);
  }

  /** The end of the stream had not been reached before the last call. */
  ghost predicate StillOpen(k: Sock, calls: seq<Call>)
    decreases |calls|
  {
    calls == [] || (StillOpen(k, calls[..|calls| - 1]) && !DoAll(k, calls[..|calls| - 1]).recv.gotFinReached)
  }

  /** While the end of the stream has not been reached, whatever arrives and in whatever order:
      the ring holds packets that came, above a gap, each under its own number; and the numbers
      are delivered one after the other, each once, each with the payload of a packet that
      carried it. */
  lemma {:induction false} DeliversInOrderOnce(k: Sock, k': Sock, calls: seq<Call>)
    returns (m: map<int, Bytes>, log: seq<Delivery>)
    requires Holds(k, map[]) && k.state != SynSent && k' == DoAll(k, calls)
    requires StillOpen(k, calls)
    ensures Progress(k, k', log) && AllCame(calls, m, log)
    ensures !k'.recv.gotFinReached ==> Holds(k', m)
    ensures k'.state != SynSent
    decreases |calls|
  {
    if calls == [] {
      m, log := NothingYet(k, k', calls);
    } else {
      var init, last := calls[..|calls| - 1], calls[|calls| - 1];
      var m1, log1 := DeliversInOrderOnce(k, DoAll(k, init), init);
      m, log := OneMoreCall(k, DoAll(k, init), k', init, last, calls, m1, log1);
    }
  }

  lemma NothingYet(k: Sock, k': Sock, calls: seq<Call>) returns (m: map<int, Bytes>, log: seq<Delivery>)
    requires k' == k && Holds(k, map[])
    ensures Progress(k, k', log) && AllCame(calls, m, log) && Holds(k', m)
  {
    m, log := map[], [];
    assert Shown(log) == [];
  }

  lemma OneMoreCall(k: Sock, k1: Sock, k': Sock, init: seq<Call>, last: Call, calls: seq<Call>,
                    m1: map<int, Bytes>, log1: seq<Delivery>)
    returns (m: map<int, Bytes>, log: seq<Delivery>)
    requires Progress(k, k1, log1) && AllCame(init, m1, log1) && Holds(k1, m1)
    requires k1.state != SynSent && !k1.recv.gotFinReached && k' == Do(k1, last) && calls == init + [last]
    ensures Progress(k, k', log) && AllCame(calls, m, log)
    ensures !k'.recv.gotFinReached ==> Holds(k', m)
    ensures k'.state != SynSent
  {
    var log2;
    m, log2 := CallProgress(k1, k', last, m1);
    ProgressThen(k, k1, k', log1, log2);
    AllCameBefore(init, last, m1, log1, m, log2);
    log := log1 + log2;
  }

  /** From either way of opening a connection the ring keeps its invariant in every run. */
  lemma {:induction false} RingOverRuns(k: Sock, calls: seq<Call>) returns (m: map<int, Bytes>)
    requires Holds(k, map[])
    requires StillOpen(k, calls)
    ensures !DoAll(k, calls).recv.gotFinReached ==> Holds(DoAll(k, calls), m)
    decreases |calls|
  {
    if calls == [] {
      m := map[];
    } else {
      var init, last := calls[..|calls| - 1], calls[|calls| - 1];
      var m1 := RingOverRuns(k, init);
      var log;
      m, log := CallProgress(DoAll(k, init), DoAll(k, calls), last, m1);
    }
  }

  lemma OpensHolding(env: Env, seqNr: U16, peerSeq: U16)
    ensures Holds(Connect(Fresh(), seqNr, env), map[]) && Holds(AcceptSyn(Fresh(), peerSeq, seqNr), map[])
  {
    Ring.FreshAgrees<Bytes>(UNKNOWN);
    Ring.FreshAgrees<Bytes>(peerSeq);
  }
}
