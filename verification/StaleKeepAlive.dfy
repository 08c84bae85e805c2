/** A run over an honest network in which one packet is resent fast twice.

    A keep-alive is one number out of date. When the number it says is still the client's mark
    although the window has moved past it, `selective_ack` looks that number up in the ring and
    finds the packet of another number, 16 above it: that packet is resent, and the mark does not
    move past it. Later it is lost and rightly resent again. */
module StaleKeepAlive {
  import opened Serial
  import opened Protocol
  import opened Conservation
  import opened Sack
  import opened FastResending
  import opened CalmPeers
  import opened Network
  import opened Traces
  import Ring

  function Start(): System {
    Accepted(0, 500, CALM)
  }

  lemma StartClient(k: Sock)
    requires k == Start().a
    ensures Opening(k)
  {
    AcceptedSender(0, 500, CALM);
    WSmall(0);
  }

  lemma StartServer(k: Sock)
    requires k == Start().b
    ensures Server(k, 0, map[]) && k.state == SynRecv && |k.out| == 1
    ensures k.out[0] == Packet(StState, 500, 0, ROOM, None, []) && k.tags[0] == Tag(500, 0)
  {
    AcceptedReceiver(0, 500, CALM);
    WSmall(0);
    WSmall(500);
  }

  lemma ClientAnswered(k: Sock, k': Sock, p: Packet)
    requires Opening(k) && p == Packet(StState, 500, 0, ROOM, None, []) && k' == Arrive(k, p, CALM)
    ensures Opened(k, k')
  {
    WSmall(0);
    FirstAnswer(k, k', p, 0, CALM);
    IncomingKeeps(k, p, CALM);
  }

  lemma MarkStays(k: Sock, k': Sock)
    requires Opening(k) && Opened(k, k')
    ensures k'.ctl.fastResend == 1 && Reports(k'.events) == []
  {
    SmallRaise(k, 1, 0);
    ReportOne(k, OnConnect);
  }

  lemma NothingCharged(k: Sock)
    requires WindowInv(k) && k.send.count == 0
    ensures k.ctl.curWindow == 0
  {
  }

  lemma EmptyClient(k: Sock)
    requires SenderInv(k) && Aligned(k) && k.state == Connected && k.recv.ack == 499 && !k.send.finSent
    requires k.send.next == 1 && k.send.count == 0 && k.send.win == map[] && k.send.flushScanStart == 1
    requires k.send.maxWindowUser == ROOM && !k.ctl.fastTimeout && k.ctl.fastResend == 1 && k.ctl.curWindow == 0
    ensures Client(k, 1, 1, {}, 1)
  {
  }

  lemma ClientOpens(k: Sock, k': Sock)
    requires Opening(k) && Opened(k, k')
    ensures Client(k', 1, 1, {}, 1) && k'.send.ringSize == 16 && |k'.out| == 1 && Reports(k'.events) == []
  {
    MarkStays(k, k');
    NothingCharged(k');
    EmptyClient(k');
  }

  /** The SYN and its answer have been sent. */
  ghost predicate Ready(s: System) {
    && Opening(s.a) && Server(s.b, 0, map[]) && |s.b.out| == 1
    && s.b.out[0] == Packet(StState, 500, 0, ROOM, None, []) && s.b.tags[0] == Tag(500, 0)
  }

  lemma Delivers(s0: System) returns (t: Trace, s: System)
    requires Ready(s0)
    ensures At(t, s) && t.start == s0 && t.steps == [ToA(0, CALM)]
    ensures s.b == s0.b && s.a == Arrive(s0.a, s0.b.out[0], CALM)
  {
    t, s := Goes(Trace(s0, [], [s0]), s0, ToA(0, CALM));
  }

  /** The first answer connects the client. */
  lemma Opens(s0: System) returns (t: Trace, s: System)
    requires Ready(s0)
    ensures At(t, s) && t.start == s0 && t.steps == [ToA(0, CALM)] && Scene(s, 1, 1, {}, 1, 0, map[])
    ensures s.a.send.ringSize == 16 && |s.a.out| == 1 && Reports(s.a.events) == [] && |s.b.out| == 1
  {
    t, s := Delivers(s0);
    ClientAnswered(s0.a, s.a, s0.b.out[0]);
    ClientOpens(s0.a, s.a);
  }

  // ---------------------------------------------------------------- the story

  /** The client has sent `next - 1` packets, one frame each, and resent none. */
  ghost predicate Sending(s: System, next: int) {
    && |s.a.out| == next && SentFrom(s.a, 0, 1, next) && Reports(s.a.events) == []
    && s.a.send.ringSize == 16
  }

  function Steps0(): seq<Step> {
    [ToA(0, CALM), AtA(CallWritev(Data(6), CALM))]
  }

  lemma Story0(s0: System) returns (t: Trace, s: System, keys: set<int>)
    requires Ready(s0)
    ensures At(t, s) && t.start == s0 && t.steps == Steps0()
    ensures Scene(s, 1, 7, keys, 1, 0, map[]) && |s.b.out| == 1 && Sending(s, 7)
    ensures forall n :: n in keys <==> 1 <= n < 7
  {
    t, s := Opens(s0);
    t, s, keys := Writes(t, s, 6, 1, 1, {}, 1, 0, map[]);
  }

  /** Packet 2 arrives first and is acknowledged. */
  function Steps1(): seq<Step> {
    [ToB(2, CALM), AtB(CallDeferredAck(CALM)), ToA(1, CALM)]
  }

  lemma Joined(steps: seq<Step>, a: Step, b: Step, c: Step)
    ensures steps + [a] + [b] + [c] == steps + [a, b, c]
  {
  }

  lemma Story1(t0: Trace, s0: System, keys0: set<int>) returns (t: Trace, s: System, keys: set<int>, m: map<int, Bytes>)
    requires At(t0, s0) && Scene(s0, 1, 7, keys0, 1, 0, map[]) && |s0.b.out| == 1 && Sending(s0, 7)
    requires forall n :: n in keys0 <==> 1 <= n < 7
    ensures At(t, s) && t.start == t0.start && t.steps == t0.steps + Steps1()
    ensures Scene(s, 1, 7, keys, 1, 0, m) && Spans(m, 2, 3) && |s.b.out| == 2 && Sending(s, 7)
    ensures forall n :: n in keys <==> 1 <= n < 7 && n != 2
  {
    assert SentAt(s0.a, 0, 2);
    t, s, m := ArrivesAbove(t0, s0, 2, 2, 1, 7, keys0, 1, 0, map[]);
    t, s := SendsAck(t, s, 1, 7, keys0, 1, 0, m, 0, 1);
    t, s, keys := AnswerArrives(t, s, 1, 0, 0, 1, 1, 7, keys0, 1, 0, m);
    Stay(s0.a, s.a, 0, 1, 7);
    Joined(t0.steps, ToB(2, CALM), AtB(CallDeferredAck(CALM)), ToA(1, CALM));
  }

  /** Then 1, 4, 5 and 6 arrive, and the server's timer sends a keep-alive. */
  function Steps2(): seq<Step> {
    [ToB(1, CALM), ToB(4, CALM), ToB(5, CALM), ToB(6, CALM), AtB(CallTimeouts(ALIVE, CALM, CALM))]
  }

  lemma Joined2(steps: seq<Step>, a: Step, b: Step)
    ensures steps + [a] + [b] == steps + [a, b]
  {
  }

  lemma Joined5(steps: seq<Step>, a: Step, b: Step, c: Step, d: Step, e: Step)
    ensures steps + [a] + [b] + [c] + [d] + [e] == steps + [a, b, c, d, e]
  {
  }

  lemma FourArrive(t0: Trace, s0: System, keys: set<int>, m0: map<int, Bytes>)
    returns (t: Trace, s: System, m: map<int, Bytes>)
    requires At(t0, s0) && Scene(s0, 1, 7, keys, 1, 0, m0) && Spans(m0, 2, 3) && SentFrom(s0.a, 0, 1, 7)
    ensures At(t, s) && t.start == t0.start && s.a == s0.a && s.b.out == s0.b.out
    ensures t.steps == t0.steps + [ToB(1, CALM)] + [ToB(4, CALM)] + [ToB(5, CALM)] + [ToB(6, CALM)]
    ensures Scene(s, 1, 7, keys, 1, 2, m) && Spans(m, 4, 7) && s.b.state == Connected
  {
    assert SentAt(s0.a, 0, 1) && SentAt(s0.a, 0, 4) && SentAt(s0.a, 0, 5) && SentAt(s0.a, 0, 6);
    t, s, m := ArrivesNext(t0, s0, 1, 1, 7, keys, 1, 0, m0, 2);
    t, s, m := ArrivesAbove(t, s, 4, 4, 1, 7, keys, 1, 2, m);
    t, s, m := ArrivesAbove(t, s, 5, 5, 1, 7, keys, 1, 2, m);
    t, s, m := ArrivesAbove(t, s, 6, 6, 1, 7, keys, 1, 2, m);
  }

  lemma Story2(t0: Trace, s0: System, keys: set<int>, m0: map<int, Bytes>)
    returns (t: Trace, s: System, m: map<int, Bytes>)
    requires At(t0, s0) && Scene(s0, 1, 7, keys, 1, 0, m0) && Spans(m0, 2, 3) && |s0.b.out| == 2 && Sending(s0, 7)
    ensures At(t, s) && t.start == t0.start && t.steps == t0.steps + Steps2() && s.a == s0.a
    ensures Scene(s, 1, 7, keys, 1, 2, m) && Spans(m, 4, 7) && |s.b.out| == 3 && Answer(s.b, 2, 1, 1, 4)
  {
    t, s, m := FourArrive(t0, s0, keys, m0);
    t, s := SendsKeepAlive(t, s, 1, 7, keys, 1, 2, m, 0, 3);
    Joined5(t0.steps, ToB(1, CALM), ToB(4, CALM), ToB(5, CALM), ToB(6, CALM), AtB(CallTimeouts(ALIVE, CALM, CALM)));
  }

  /** The keep-alive arrives, and packets 7 to 18 are written. */
  function Steps3(): seq<Step> {
    [ToA(2, CALM), AtA(CallWritev(Data(12), CALM))]
  }

  lemma SixteenAbove()
    ensures Ring.Alias(2, 3, 16) == 18
  {
  }

  lemma Story3(t0: Trace, s0: System, keys0: set<int>, m: map<int, Bytes>) returns (t: Trace, s: System, keys: set<int>)
    requires At(t0, s0) && Scene(s0, 1, 7, keys0, 1, 2, m) && Answer(s0.b, 2, 1, 1, 4) && Sending(s0, 7)
    requires forall n :: n in keys0 <==> 1 <= n < 7 && n != 2
    ensures At(t, s) && t.start == t0.start && t.steps == t0.steps + Steps3() && s.b == s0.b
    ensures Scene(s, 3, 19, keys, 2, 2, m) && Sending(s, 19) && forall n :: n in keys <==> n == 3 || 7 <= n < 19
  {
    SixteenAbove();
    t, s, keys := AnswerResends(t0, s0, 2, 1, 1, 1, 7, keys0, 1, 2, m, 3, 18);
    var k := s.a;
    t, s, keys := Writes(t, s, 12, 3, 7, keys, 2, 2, m);
    Stay(s0.a, s.a, 0, 1, 7);
    Spliced(s.a, 0, 1, 7, 19);
    Joined2(t0.steps, ToA(2, CALM), AtA(CallWritev(Data(12), CALM)));
  }

  lemma Spliced(k: Sock, shift: int, lo: int, mid: int, hi: int)
    requires SentFrom(k, shift, lo, mid) && SentFrom(k, shift, mid, hi)
    ensures SentFrom(k, shift, lo, hi)
  {
  }

  /** The same keep-alive arrives again: packet 18 goes out for number 2. Packets 19 to 21 are
      written. */
  function Steps4(): seq<Step> {
    [ToA(2, CALM), AtA(CallWritev(Data(3), CALM))]
  }

  /** Packet 18 has been resent for number 2, as frame 19. */
  ghost predicate Resent(s: System) {
    && |s.a.out| == 23 && SentFrom(s.a, 0, 1, 19) && SentAt(s.a, 1, 18) && SentFrom(s.a, 1, 19, 22)
    && Reports(s.a.events) == [Resend(2, 19)]
  }

  lemma MisfiresOnce(t0: Trace, s0: System, keys0: set<int>, m: map<int, Bytes>)
    returns (t: Trace, s: System, keys: set<int>)
    requires At(t0, s0) && Scene(s0, 3, 19, keys0, 2, 2, m) && Answer(s0.b, 2, 1, 1, 4) && Sending(s0, 19)
    requires forall n :: n in keys0 <==> n == 3 || 7 <= n < 19
    ensures At(t, s) && t.start == t0.start && t.steps == t0.steps + [ToA(2, CALM)] && s.b == s0.b
    ensures Scene(s, 3, 19, keys, 3, 2, m) && forall n :: n in keys <==> n == 3 || 7 <= n < 19
    ensures |s.a.out| == 20 && SentFrom(s.a, 0, 1, 19) && SentAt(s.a, 1, 18) && Reports(s.a.events) == [Resend(2, 19)]
  {
    SixteenAbove();
    t, s, keys := AnswerResends(t0, s0, 2, 1, 1, 3, 19, keys0, 2, 2, m, 3, 18);
    ReportOne(s0.a, FastResend(2, 19));
    Stay(s0.a, s.a, 0, 1, 19);
  }

  lemma Story4(t0: Trace, s0: System, keys0: set<int>, m: map<int, Bytes>) returns (t: Trace, s: System, keys: set<int>)
    requires At(t0, s0) && Scene(s0, 3, 19, keys0, 2, 2, m) && Answer(s0.b, 2, 1, 1, 4) && Sending(s0, 19)
    requires forall n :: n in keys0 <==> n == 3 || 7 <= n < 19
    ensures At(t, s) && t.start == t0.start && t.steps == t0.steps + Steps4() && s.b == s0.b
    ensures Scene(s, 3, 22, keys, 3, 2, m) && Resent(s) && forall n :: n in keys <==> n == 3 || 7 <= n < 22
  {
    t, s, keys := MisfiresOnce(t0, s0, keys0, m);
    var s1 := s;
    t, s, keys := Writes(t, s1, 3, 3, 19, keys, 3, 2, m);
    ThreeMore(s1, s);
    Joined2(t0.steps, ToA(2, CALM), AtA(CallWritev(Data(3), CALM)));
  }

  lemma ThreeMore(s: System, s': System)
    requires |s.a.out| == 20 && SentFrom(s.a, 0, 1, 19) && SentAt(s.a, 1, 18) && Reports(s.a.events) == [Resend(2, 19)]
    requires Wrote(s.a, s'.a, 3) && s.a.send.next == 19
    ensures Resent(s')
  {
    Stay(s.a, s'.a, 0, 1, 19);
  }

  function Arrivals(lo: int, hi: int): seq<Step>
    requires 0 <= lo <= hi
  {
    seq(hi - lo, i requires 0 <= i < hi - lo => ToB(lo + i, CALM))
  }

  lemma OneMoreArrival(steps: seq<Step>, hi: int)
    requires 7 < hi
    ensures steps + Arrivals(7, hi - 1) + [ToB(hi - 1, CALM)] == steps + Arrivals(7, hi)
  {
    assert Arrivals(7, hi - 1) + [ToB(hi - 1, CALM)] == Arrivals(7, hi);
  }

  lemma {:induction false} NextArrive(t0: Trace, s0: System, hi: int, keys: set<int>, m0: map<int, Bytes>)
    returns (t: Trace, s: System, m: map<int, Bytes>)
    requires At(t0, s0) && Scene(s0, 3, 22, keys, 3, 6, m0) && Spans(m0, 0, 0)
    requires SentFrom(s0.a, 0, 1, 19) && 7 <= hi <= 18
    ensures At(t, s) && t.start == t0.start && t.steps == t0.steps + Arrivals(7, hi)
    ensures Scene(s, 3, 22, keys, 3, hi - 1, m) && Spans(m, 0, 0) && s.a == s0.a && s.b.out == s0.b.out
    decreases hi
  {
    if hi == 7 {
      t, s, m := t0, s0, m0;
    } else {
      t, s, m := NextArrive(t0, s0, hi - 1, keys, m0);
      assert SentAt(s0.a, 0, hi - 1);
      t, s, m := ArrivesNext(t, s, hi - 1, 3, 22, keys, 3, hi - 2, m, hi - 1);
      OneMoreArrival(t0.steps, hi);
    }
  }

  /** The server gets 3 and then all of them but 18, and says so. */
  function Steps5(): seq<Step> {
    [ToB(3, CALM)] + Arrivals(7, 18) + Steps6()
  }

  function Steps6(): seq<Step> {
    [ToB(20, CALM), ToB(21, CALM), ToB(22, CALM), AtB(CallDeferredAck(CALM))]
  }

  lemma ThreeArrive(t0: Trace, s0: System, keys: set<int>, m0: map<int, Bytes>)
    returns (t: Trace, s: System, m: map<int, Bytes>)
    requires At(t0, s0) && Scene(s0, 3, 22, keys, 3, 17, m0) && Spans(m0, 0, 0) && SentFrom(s0.a, 1, 19, 22)
    ensures At(t, s) && t.start == t0.start && s.a == s0.a && s.b.out == s0.b.out && s.b.ackPending
    ensures t.steps == t0.steps + [ToB(20, CALM)] + [ToB(21, CALM)] + [ToB(22, CALM)]
    ensures Scene(s, 3, 22, keys, 3, 17, m) && Spans(m, 19, 22)
  {
    assert SentAt(s0.a, 1, 19) && SentAt(s0.a, 1, 20) && SentAt(s0.a, 1, 21);
    t, s, m := ArrivesAbove(t0, s0, 20, 19, 3, 22, keys, 3, 17, m0);
    t, s, m := ArrivesAbove(t, s, 21, 20, 3, 22, keys, 3, 17, m);
    t, s, m := ArrivesAbove(t, s, 22, 21, 3, 22, keys, 3, 17, m);
  }

  lemma Joined4(steps: seq<Step>, a: Step, b: Step, c: Step, d: Step)
    ensures steps + [a] + [b] + [c] + [d] == steps + [a, b, c, d]
  {
  }

  lemma Story6(t0: Trace, s0: System, keys: set<int>, m0: map<int, Bytes>)
    returns (t: Trace, s: System, m: map<int, Bytes>)
    requires At(t0, s0) && Scene(s0, 3, 22, keys, 3, 17, m0) && Spans(m0, 0, 0)
    requires SentFrom(s0.a, 1, 19, 22) && |s0.b.out| == 3
    ensures At(t, s) && t.start == t0.start && t.steps == t0.steps + Steps6() && s.a == s0.a
    ensures Scene(s, 3, 22, keys, 3, 17, m) && |s.b.out| == 4 && Answer(s.b, 3, 17, 0, 3)
  {
    t, s, m := ThreeArrive(t0, s0, keys, m0);
    t, s := SendsAck(t, s, 3, 22, keys, 3, 17, m, 0, 3);
    Joined4(t0.steps, ToB(20, CALM), ToB(21, CALM), ToB(22, CALM), AtB(CallDeferredAck(CALM)));
  }

  lemma ThirdArrives(t0: Trace, s0: System, keys: set<int>, m0: map<int, Bytes>)
    returns (t: Trace, s: System, m: map<int, Bytes>)
    requires At(t0, s0) && Scene(s0, 3, 22, keys, 3, 2, m0) && Spans(m0, 4, 7) && Resent(s0)
    ensures At(t, s) && t.start == t0.start && t.steps == t0.steps + [ToB(3, CALM)] && s.a == s0.a
    ensures Scene(s, 3, 22, keys, 3, 6, m) && Spans(m, 0, 0) && s.b.out == s0.b.out
  {
    assert SentAt(s0.a, 0, 3);
    t, s, m := ArrivesNext(t0, s0, 3, 3, 22, keys, 3, 2, m0, 6);
  }

  lemma Story5(t0: Trace, s0: System, keys: set<int>, m0: map<int, Bytes>)
    returns (t: Trace, s: System, m: map<int, Bytes>)
    requires At(t0, s0) && Scene(s0, 3, 22, keys, 3, 2, m0) && Spans(m0, 4, 7) && |s0.b.out| == 3 && Resent(s0)
    ensures At(t, s) && t.start == t0.start && t.steps == t0.steps + Steps5() && s.a == s0.a
    ensures Scene(s, 3, 22, keys, 3, 17, m) && Answer(s.b, 3, 17, 0, 3)
  {
    t, s, m := ThirdArrives(t0, s0, keys, m0);
    t, s, m := NextArrive(t, s, 18, keys, m);
    t, s, m := Story6(t, s, keys, m);
    JoinedAll(t0.steps, [ToB(3, CALM)], Arrivals(7, 18), Steps6());
  }

  lemma JoinedAll(steps: seq<Step>, a: seq<Step>, b: seq<Step>, c: seq<Step>)
    ensures steps + a + b + c == steps + (a + b + c)
  {
  }

  /** That acknowledgement has packet 18 resent once more. */
  lemma Story7(t0: Trace, s0: System, keys0: set<int>, m: map<int, Bytes>) returns (t: Trace, s: System)
    requires At(t0, s0) && Scene(s0, 3, 22, keys0, 3, 17, m) && Answer(s0.b, 3, 17, 0, 3) && Resent(s0)
    requires forall n :: n in keys0 <==> n == 3 || 7 <= n < 22
    ensures At(t, s) && t.start == t0.start && t.steps == t0.steps + [ToA(3, CALM)]
    ensures Reports(s.a.events) == [Resend(2, 19), Resend(18, 23)]
    ensures Seqno(s.a.tags, Resend(2, 19)) == 18 && Seqno(s.a.tags, Resend(18, 23)) == 18
  {
    Ring.AliasSharesSlot(18, 18, s0.a.send.ringSize);
    var keys;
    t, s, keys := AnswerResends(t0, s0, 3, 17, 0, 3, 22, keys0, 3, 17, m, 18, 18);
    ReportOne(s0.a, FastResend(18, 23));
    assert SentAt(s.a, 5, 18);
    assert SentAt(s0.a, 1, 18);
  }

  /** The whole run. */
  function Story(): seq<Step> {
    Steps0() + Steps1() + Steps2() + Steps3() + Steps4() + Steps5() + [ToA(3, CALM)]
  }

  lemma StartIsReady()
    ensures Ready(Start())
  {
    StartServer(Start().b);
    StartClient(Start().a);
  }

  lemma Stories(s0: System) returns (t: Trace, s: System)
    requires Ready(s0)
    ensures At(t, s) && t.start == s0 && t.steps == Story()
    ensures Reports(s.a.events) == [Resend(2, 19), Resend(18, 23)]
    ensures Seqno(s.a.tags, Resend(2, 19)) == 18 && Seqno(s.a.tags, Resend(18, 23)) == 18
  {
    var keys;
    var m;
    t, s, keys := Story0(s0);
    t, s, keys, m := Story1(t, s, keys);
    t, s, m := Story2(t, s, keys, m);
    t, s, keys := Story3(t, s, keys, m);
    t, s, keys := Story4(t, s, keys, m);
    t, s, m := Story5(t, s, keys, m);
    t, s := Story7(t, s, keys, m);
  }

  /** In this run, in which nothing arrives late and both sides behave, packet 18 is resent fast
      twice: first for the number 2, then for its own. */
  lemma ResentTwice()
    ensures TimelyRun(Accepted(0, 500, CALM), Story())
    ensures var k := Run(Accepted(0, 500, CALM), Story()).a;
            && Reports(k.events) == [Resend(2, 19), Resend(18, 23)]
            && Seqno(k.tags, Resend(2, 19)) == Seqno(k.tags, Resend(18, 23)) == 18
            && !Own(k) && !NoneTwice(k)
  {
    StartIsReady();
    var t, s := Stories(Start());
    IsRun(t, s);
    IsRepeat(s.a);
  }

  lemma IsRepeat(k: Sock)
    requires Reports(k.events) == [Resend(2, 19), Resend(18, 23)]
    requires Seqno(k.tags, Resend(2, 19)) == 18 && Seqno(k.tags, Resend(18, 23)) == 18
    ensures !Own(k) && !NoneTwice(k)
  {
    var log := Reports(k.events);
    assert log[0] == Resend(2, 19) && log[1] == Resend(18, 23);
    WSmall(18);
  }
}
