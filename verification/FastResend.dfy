/** Fast retransmission: which packets are sent again before their timer expires, and in which
    order. `fastResend` marks how far this has got; the proofs follow the unbounded number
    behind it. */
module FastResending {
  import opened Serial
  import opened Protocol
  import opened Conservation
  import opened Sack
  import Ring

  /** A fast resend as reported: the packet in the slot of `v` went out as frame `at`. */
  datatype Resend = Resend(v: U16, at: nat)

  /** The fast resends reported, oldest first. */
  function Reports(events: seq<Event>): seq<Resend> {
    if events == [] then []
    else
      var last := events[|events| - 1];
      Reports(events[..|events| - 1]) + if last.FastResend? then [Resend(last.v, last.at)] else []
  }

  /** The number of the packet that went on the wire for `r`. */
  function Seqno(tags: seq<Tag>, r: Resend): int {
    if r.at < |tags| then tags[r.at].seqno else 0
  }

  /** The number the mark stands for: the highest one that wraps to it and is not above `next`. */
  function Mark(k: Sock): int {
    k.send.next - W(k.send.next - k.ctl.fastResend)
  }

  ghost predicate Aligned(k: Sock) {
    |k.out| == |k.tags|
  }

  /** Nothing sent or reported is forgotten. */
  ghost predicate Later(k: Sock, k': Sock) {
    && k.tags <= k'.tags
    && (Aligned(k) ==> Aligned(k'))
    && k.send.next <= k'.send.next
    && Reports(k.events) <= Reports(k'.events)
  }

  /** What was resent fast between `k` and `k'`. */
  ghost function ResentBy(k: Sock, k': Sock): seq<Resend>
    requires Later(k, k')
  {
    Reports(k'.events)[|Reports(k.events)|..]
  }

  /** The packets that went out for `log` strictly ascend within `[lo, hi)`. */
  ghost predicate Rising(log: seq<Resend>, tags: seq<Tag>, lo: int, hi: int) {
    && (forall i :: 0 <= i < |log| ==> log[i].at < |tags| && lo <= Seqno(tags, log[i]) < hi)
    && (forall i, j :: 0 <= i < j < |log| ==> Seqno(tags, log[i]) < Seqno(tags, log[j]))
  }

  /** From `k` to `k'` the mark does not move back, and the packets resent fast in between went out
      in strictly ascending order, all from the old mark on and below the new one. */
  ghost predicate Climbs(k: Sock, k': Sock) {
    Later(k, k') && Mark(k) <= Mark(k') && Rising(ResentBy(k, k'), k'.tags, Mark(k), Mark(k'))
  }

  /** Each packet that went out for `log` has the number that was looked up. */
  ghost predicate OwnIn(log: seq<Resend>, tags: seq<Tag>) {
    forall i :: 0 <= i < |log| ==> log[i].at < |tags| && W(Seqno(tags, log[i])) == log[i].v
  }

  /** Every fast resend so far has sent the packet whose number was looked up. */
  ghost predicate Own(k: Sock) {
    OwnIn(Reports(k.events), k.tags)
  }

  /** Nothing is resent and the mark stays. */
  ghost predicate Quiet(k: Sock, k': Sock) {
    Later(k, k') && k'.ctl.fastResend == k.ctl.fastResend && Reports(k'.events) == Reports(k.events)
  }

  lemma MarkIs(k: Sock, f: int)
    requires W(f) == k.ctl.fastResend && k.send.next - MOD16 < f <= k.send.next
    ensures Mark(k) == f
  {
    WDistance(k.send.next, f);
    WSmall(k.send.next - f);
  }

  lemma MarkWraps(k: Sock)
    ensures W(Mark(k)) == k.ctl.fastResend && k.send.next - MOD16 < Mark(k) <= k.send.next
  {
    WDistance(k.send.next, k.send.next - k.ctl.fastResend);
    WSmall(k.ctl.fastResend);
  }

  lemma ResentThen(k: Sock, k1: Sock, k2: Sock)
    requires Later(k, k1) && Later(k1, k2)
    ensures Later(k, k2) && ResentBy(k, k2) == ResentBy(k, k1) + ResentBy(k1, k2)
  {
  }

  lemma RisingThen(log1: seq<Resend>, log2: seq<Resend>, tags1: seq<Tag>, tags2: seq<Tag>, lo: int, mid: int, hi: int)
    requires tags1 <= tags2 && lo <= mid <= hi
    requires Rising(log1, tags1, lo, mid) && Rising(log2, tags2, mid, hi)
    ensures Rising(log1 + log2, tags2, lo, hi)
  {
    var log := log1 + log2;
    forall i | 0 <= i < |log|
      ensures log[i].at < |tags2|
      ensures i < |log1| ==> Seqno(tags2, log[i]) == Seqno(tags1, log1[i]) && lo <= Seqno(tags2, log[i]) < mid
      ensures i >= |log1| ==> log[i] == log2[i - |log1|] && mid <= Seqno(tags2, log[i]) < hi
    {
    }
  }

  lemma ClimbsThen(k: Sock, k1: Sock, k2: Sock)
    requires Climbs(k, k1) && Climbs(k1, k2)
    ensures Climbs(k, k2)
  {
    ResentThen(k, k1, k2);
    RisingThen(ResentBy(k, k1), ResentBy(k1, k2), k1.tags, k2.tags, Mark(k), Mark(k1), Mark(k2));
  }

  lemma QuietClimbs(k: Sock, k': Sock)
    requires Quiet(k, k')
    ensures Climbs(k, k')
  {
    MarkWraps(k);
    if k'.send.next - MOD16 < Mark(k) {
      MarkIs(k', Mark(k));
    } else {
      MarkWraps(k');
    }
  }

  lemma ReportOne(k: Sock, e: Event)
    ensures Reports(Report(k, e).events) == Reports(k.events) + if e.FastResend? then [Resend(e.v, e.at)] else []
  {
    assert (k.events + [e])[..|k.events + [e]| - 1] == k.events;
  }

  // ---------------------------------------------------------------- resending from the list

  /** What the scan does not change. */
  ghost predicate SameBounds(s: SendState, s': SendState) {
    s'.next == s.next && s'.count == s.count && s'.ringSize == s.ringSize
  }

  /** One resend is one report and one frame, of the packet `n` found in the slot. */
  lemma ResendOneReports(k: Sock, v: U16, n: int)
    requires n in k.send.win && Aligned(k)
    ensures var k1 := ResendOne(k, v, n);
            && Later(k, k1) && ResentBy(k, k1) == [Resend(v, |k.out|)]
            && Seqno(k1.tags, Resend(v, |k.out|)) == n
            && SameBounds(k.send, k1.send) && k1.send.win.Keys == k.send.win.Keys
  {
    ReportOne(k, FastResend(v, |k.out|));
  }

  ghost predicate RingOk(s: SendState) {
    0 < s.ringSize && s.count <= s.ringSize <= 1024 && Ring.RingSize(s.ringSize)
  }

  /** The list stands for the numbers `ns` of the window, highest first, none below `low`. */
  ghost predicate Names(s: SendState, list: seq<U16>, ns: seq<int>, low: int) {
    && |list| == |ns|
    && (forall i :: 0 <= i < |ns| ==> low <= ns[i] && Head(s) <= ns[i] < s.next && W(ns[i]) == list[i])
    && (forall i, j :: 0 <= i < j < |ns| ==> ns[i] > ns[j])
  }

  lemma ResendOneClimbs(k: Sock, v: U16, n: int)
    requires n in k.send.win && Aligned(k) && W(n) == v && Mark(k) <= n < k.send.next
    ensures var k1 := ResendOne(k, v, n);
            Climbs(k, k1) && Mark(k1) == n + 1
  {
    ResendOneReports(k, v, n);
    MarkWraps(k);
    WDistance(n, -1);
    MarkIs(ResendOne(k, v, n), n + 1);
  }

  /** Resending in order: climbing, `budget` packets at most, all of the window. */
  ghost predicate ClimbsWithin(k: Sock, k': Sock, budget: nat) {
    && Climbs(k, k') && |ResentBy(k, k')| <= budget
    && forall r :: r in ResentBy(k, k') ==> Head(k.send) <= Seqno(k'.tags, r) < k.send.next
  }

  lemma ClimbsOneMore(k: Sock, k1: Sock, k': Sock, r: Resend, n: int, budget: nat)
    requires Climbs(k, k1) && ResentBy(k, k1) == [r] && Seqno(k1.tags, r) == n && r.at < |k1.tags|
    requires Head(k.send) <= n < k.send.next && SameBounds(k.send, k1.send)
    requires budget > 0 && ClimbsWithin(k1, k', budget - 1)
    ensures ClimbsWithin(k, k', budget)
  {
    ClimbsThen(k, k1, k');
    ResentThen(k, k1, k');
    assert Seqno(k'.tags, r) == n;
  }

  lemma NamesRest(s: SendState, s1: SendState, list: seq<U16>, ns: seq<int>, low: int)
    requires list != [] && Names(s, list, ns, low) && SameBounds(s, s1)
    ensures Names(s1, list[..|list| - 1], ns[..|ns| - 1], ns[|ns| - 1] + 1)
    ensures Names(s, list[..|list| - 1], ns[..|ns| - 1], low)
  {
  }

  /** Resending takes numbers off the end of the list: the lowest first, `budget` at most, each the
      number of the packet that goes out. */
  lemma {:induction false} ResendLastClimbs(k: Sock, k': Sock, list: seq<U16>, ns: seq<int>, budget: nat)
    requires Aligned(k) && RingOk(k.send) && Names(k.send, list, ns, Mark(k)) && k' == ResendLast(k, list, budget)
    ensures ClimbsWithin(k, k', budget)
    decreases |list|
  {
    if list == [] || budget == 0 {
      QuietClimbs(k, k);
    } else {
      var v, rest := list[|list| - 1], list[..|list| - 1];
      var n, ns' := ns[|ns| - 1], ns[..|ns| - 1];
      AliasOfNumber(n, v, Head(k.send), k.send.ringSize);
      if n in k.send.win {
        var k1 := ResendOne(k, v, n);
        ResendOneReports(k, v, n);
        ResendOneClimbs(k, v, n);
        NamesRest(k.send, k1.send, list, ns, Mark(k));
        ResendLastClimbs(k1, k', rest, ns', budget - 1);
        ClimbsOneMore(k, k1, k', Resend(v, |k.out|), n, budget);
      } else {
        NamesRest(k.send, k.send, list, ns, Mark(k));
        ResendLastClimbs(k, k', rest, ns', budget);
      }
    }
  }

  lemma AliasOfNumber(n: int, v: int, lo: int, size: nat)
    requires 0 < size && Ring.RingSize(size) && lo <= n < lo + size && W(n) == W(v)
    ensures Ring.Alias(W(v), lo, size) == n
  {
    WSmall(W(v));
    WDistance(n, lo);
    WDistance(W(v), lo);
    Ring.SameSlot(n - lo, W(v) - lo, size);
    Ring.AliasSharesSlot(n, lo, size);
  }

  // ---------------------------------------------------------------- the scan

  /** `b` is a bit of the mask between `low` and `high` that speaks about a packet above the head
      of the window, with the number `v`, less than 1,025 above the mark. */
  predicate Candidate(v: U16, s: SendState, mark: U16, base: int, b: int, low: int, high: int) {
    && low <= b < high && v == W(base + b)
    && SackNumber(s, base, b).Some? && W(base + b - mark) <= OUTGOING_BUFFER_MAX_SIZE
  }

  /** The candidates are the numbers of the bits `bs`, in the order of the scan. */
  ghost predicate Listed(list: seq<U16>, s: SendState, mark: U16, base: int, bs: seq<int>, low: int, high: int) {
    && |list| == |bs|
    && (forall i :: 0 <= i < |bs| ==> Candidate(list[i], s, mark, base, bs[i], low, high))
    && (forall i, j :: 0 <= i < j < |bs| ==> bs[i] > bs[j])
  }

  lemma ListedPush(list: seq<U16>, s: SendState, mark: U16, base: int, bs: seq<int>, bits: int, high: int)
    requires Listed(list, s, mark, base, bs, bits + 1, high)
    requires Candidate(W(base + bits), s, mark, base, bits, bits, high)
    ensures Listed(PushResend(list, W(base + bits)), s, mark, base, Pushed(bs, bits), bits, high)
  {
    var bs0 := if |bs| >= MAX_EACK - 2 then bs[MAX_EACK / 2..] else bs;
    var list0 := if |list| >= MAX_EACK - 2 then list[MAX_EACK / 2..] else list;
    assert Listed(list0, s, mark, base, bs0, bits + 1, high);
    forall i | 0 <= i < |bs0|
      ensures Candidate(list0[i], s, mark, base, bs0[i], bits, high)
    {
      assert Candidate(list0[i], s, mark, base, bs0[i], bits + 1, high);
    }
  }

  lemma ListedLower(list: seq<U16>, s: SendState, mark: U16, base: int, bs: seq<int>, low: int, low': int, high: int)
    requires Listed(list, s, mark, base, bs, low, high) && low' <= low
    ensures Listed(list, s, mark, base, bs, low', high)
  {
    forall i | 0 <= i < |bs|
      ensures Candidate(list[i], s, mark, base, bs[i], low', high)
    {
      assert Candidate(list[i], s, mark, base, bs[i], low, high);
    }
  }

  function Pushed(bs: seq<int>, bits: int): seq<int> {
    (if |bs| >= MAX_EACK - 2 then bs[MAX_EACK / 2..] else bs) + [bits]
  }

  /** Does the bit `bits` put its packet on the list? */
  predicate Lists(c: Scan, base: int, mask: Mask, bits: int)
    requires -1 <= bits < 8 * |mask|
  {
    var k := c.sock;
    match SackNumber(k.send, base, bits)
    case None => false
    case Some(n) =>
      && n in k.send.win && k.send.win[n].transmissions > 0
      && !SackBitSet(mask, bits)
      && Resendable(k, base + bits, c.found)
  }

  lemma AckPacketQuiet(k: Sock, n: int, env: Env)
    ensures Quiet(k, AckPacket(k, n, env).0)
  {
  }

  lemma SackVisitIs(c: Scan, base: int, mask: Mask, bits: int, env: Env)
    requires -1 <= bits < 8 * |mask|
    ensures var c' := SackVisit(c, base, mask, bits, env);
            && Quiet(c.sock, c'.sock) && SameBounds(c.sock.send, c'.sock.send)
            && c'.resends == (if Lists(c, base, mask, bits) then PushResend(c.resends, W(base + bits)) else c.resends)
            && c'.found == c.found + BoolBit(SackNumber(c.sock.send, base, bits).Some? && SackBitSet(mask, bits))
            && c'.sock.out == c.sock.out && c'.sock.tags == c.sock.tags
  {
    match SackNumber(c.sock.send, base, bits) {
      case None =>
      case Some(n) => AckPacketQuiet(c.sock, n, env);
    }
  }

  /** What the scan leaves: a list of candidates without repetition, a socket that differs in its
      window only. */
  ghost predicate ScanOf(c: Scan, c': Scan, base: int, bs: seq<int>, low: int, high: int) {
    && Quiet(c.sock, c'.sock) && SameBounds(c.sock.send, c'.sock.send)
    && c'.sock.out == c.sock.out && c'.sock.tags == c.sock.tags
    && Listed(c'.resends, c'.sock.send, c.sock.ctl.fastResend, base, bs, low, high)
  }

  lemma ListedSame(list: seq<U16>, s: SendState, s': SendState, mark: U16, base: int, bs: seq<int>, low: int, high: int)
    requires Listed(list, s, mark, base, bs, low, high) && SameBounds(s, s')
    ensures Listed(list, s', mark, base, bs, low, high)
  {
    forall i | 0 <= i < |bs|
      ensures Candidate(list[i], s', mark, base, bs[i], low, high)
    {
      assert Candidate(list[i], s, mark, base, bs[i], low, high);
    }
  }

  lemma SackVisitLists(c: Scan, c1: Scan, c': Scan, base: int, mask: Mask, bits: int, env: Env, bs: seq<int>, high: int)
    returns (bs': seq<int>)
    requires -1 <= bits < 8 * |mask| && bits < high && ScanOf(c, c1, base, bs, bits + 1, high)
    requires c' == SackVisit(c1, base, mask, bits, env)
    ensures ScanOf(c, c', base, bs', bits, high)
    ensures bs' == if Lists(c1, base, mask, bits) then Pushed(bs, bits) else bs
  {
    SackVisitIs(c1, base, mask, bits, env);
    var mark := c.sock.ctl.fastResend;
    if Lists(c1, base, mask, bits) {
      ListedPush(c1.resends, c1.sock.send, mark, base, bs, bits, high);
      bs' := Pushed(bs, bits);
    } else {
      ListedLower(c1.resends, c1.sock.send, mark, base, bs, bits + 1, bits, high);
      bs' := bs;
    }
    ListedSame(c'.resends, c1.sock.send, c'.sock.send, mark, base, bs', bits, high);
  }

  /** The scan of the bits of the mask proper; the scan of `selective_ack` goes one further, to
      the number just below `base`. */
  function ScanMask(c: Scan, base: int, mask: Mask, bits: int, env: Env): Scan
    requires -1 <= bits < 8 * |mask|
    decreases bits + 1
  {
    if bits == -1 then c else ScanMask(SackVisit(c, base, mask, bits, env), base, mask, bits - 1, env)
  }

  lemma {:induction false} ScanIsMaskAndOne(c: Scan, base: int, mask: Mask, bits: int, env: Env)
    requires -1 <= bits < 8 * |mask|
    ensures SackScan(c, base, mask, bits, env) == SackVisit(ScanMask(c, base, mask, bits, env), base, mask, -1, env)
    decreases bits + 1
  {
    if bits == -1 {
      var c1 := SackVisit(c, base, mask, -1, env);
      assert SackScan(c1, base, mask, -2, env) == c1;
    } else {
      ScanIsMaskAndOne(SackVisit(c, base, mask, bits, env), base, mask, bits - 1, env);
    }
  }

  /** How many set bits up to `top` speak about a number of the window above its head. */
  function SetBits(s: SendState, base: int, mask: Mask, top: int): nat
    requires -1 <= top < 8 * |mask|
    decreases top + 1
  {
    if top == -1 then 0
    else BoolBit(SackNumber(s, base, top).Some? && MaskBit(mask, top)) + SetBits(s, base, mask, top - 1)
  }

  lemma {:induction false} SetBitsSame(s: SendState, s': SendState, base: int, mask: Mask, top: int)
    requires -1 <= top < 8 * |mask| && SameBounds(s, s')
    ensures SetBits(s', base, mask, top) == SetBits(s, base, mask, top)
    decreases top + 1
  {
    if top != -1 {
      SetBitsSame(s, s', base, mask, top - 1);
    }
  }

  /** The scan finds the set bits and lists every candidate of the mask once, highest first. */
  lemma {:induction false} ScanMaskLists(c: Scan, c1: Scan, c': Scan, base: int, mask: Mask, bits: int, env: Env,
                                         bs: seq<int>, high: int) returns (bs': seq<int>)
    requires -1 <= bits < 8 * |mask| && bits < high && ScanOf(c, c1, base, bs, bits + 1, high)
    requires c' == ScanMask(c1, base, mask, bits, env)
    ensures ScanOf(c, c', base, bs', 0, high)
    ensures c'.found == c1.found + SetBits(c.sock.send, base, mask, bits)
    decreases bits + 1
  {
    bs' := bs;
    if bits != -1 {
      var c2 := SackVisit(c1, base, mask, bits, env);
      bs' := SackVisitLists(c, c1, c2, base, mask, bits, env, bs, high);
      SackVisitIs(c1, base, mask, bits, env);
      bs' := ScanMaskLists(c, c2, c', base, mask, bits - 1, env, bs', high);
    }
  }

  /** The packet `n` is in the window before exactly if it is after. */
  ghost predicate Untouched(s: SendState, s': SendState, n: int) {
    Ring.Lookup(s.win, n) == Ring.Lookup(s'.win, n)
  }

  lemma VisitSpares(c: Scan, base: int, mask: Mask, bits: int, env: Env, n: int)
    requires -1 <= bits < 8 * |mask| && SackNumber(c.sock.send, base, bits) != Some(n)
    ensures var s' := SackVisit(c, base, mask, bits, env).sock.send;
            SameBounds(c.sock.send, s') && Untouched(c.sock.send, s', n)
  {
  }

  /** Bits of one mask that speak about numbers of the window do so in their order. */
  lemma BitsDiffer(s: SendState, base: int, bits: int, bits': int)
    requires bits < bits' < bits + 0x8000 && s.count <= 1024
    requires SackNumber(s, base, bits).Some? && SackNumber(s, base, bits').Some?
    ensures SackNumber(s, base, bits').value - SackNumber(s, base, bits).value == bits' - bits
  {
    var x, x' := s.next - (base + bits) - 1, s.next - (base + bits') - 1;
    assert x - x' == bits' - bits;
    WDistance(x, x');
    WSmall(x - x');
    WSmall(W(x) - W(x'));
  }

  lemma {:induction false} ScanMaskSpares(c: Scan, base: int, mask: Mask, bits: int, env: Env, n: int)
    requires -1 <= bits < 8 * |mask| <= 2040 && SackNumber(c.sock.send, base, -1) == Some(n)
    requires c.sock.send.count <= 1024
    ensures Untouched(c.sock.send, ScanMask(c, base, mask, bits, env).sock.send, n)
    decreases bits + 1
  {
    if bits != -1 {
      if SackNumber(c.sock.send, base, bits).Some? {
        BitsDiffer(c.sock.send, base, -1, bits);
      }
      VisitSpares(c, base, mask, bits, env, n);
      ScanMaskSpares(SackVisit(c, base, mask, bits, env), base, mask, bits - 1, env, n);
    }
  }

  // ---------------------------------------------------------------- one selective acknowledgement

  /** The set bits of the whole mask. */
  function AllSetBits(s: SendState, base: int, mask: Mask): nat {
    SetBits(s, base, mask, 8 * |mask| - 1)
  }

  /** The number just below the mask lies in the window above its head, has been sent, and
      qualifies for resending: it is listed by the scan and then once more. That takes a
      cumulative acknowledgement that reaches past a packet never sent. */
  predicate ListedTwice(k: Sock, base: int, mask: Mask) {
    match SackNumber(k.send, base, -1)
    case None => false
    case Some(n) =>
      && n in k.send.win && k.send.win[n].transmissions > 0
      && Resendable(k, base - 1, AllSetBits(k.send, base, mask))
  }

  /** The number just below the mask is still at the mark although the window has moved past it,
      three bits are set, and its slot holds the packet of another number, which the mask does not
      acknowledge: that packet is sent. */
  predicate Misfires(k: Sock, base: int, mask: Mask) {
    && k.send.ringSize > 0
    && Resendable(k, base - 1, AllSetBits(k.send, base, mask))
    && var n := Ring.Alias(W(base - 1), Head(k.send), k.send.ringSize);
       n in k.send.win && W(n) != W(base - 1) && !TakenOff(k.send, base, mask, 8 * |mask| - 1, n)
  }

  /** Does the number below the mask name the same packet before and after? */
  ghost predicate SparesBelow(s: SendState, s': SendState, base: int) {
    match SackNumber(s, base, -1)
    case None => true
    case Some(n) => Untouched(s, s', n)
  }

  lemma ScanSparesBelow(k: Sock, c: Scan, base: int, mask: Mask, env: Env)
    requires SenderInv(k) && |mask| <= 255 && c == ScanMask(Scan(k, 0, []), base, mask, 8 * |mask| - 1, env)
    ensures SparesBelow(k.send, c.sock.send, base)
  {
    match SackNumber(k.send, base, -1) {
      case None =>
      case Some(n) => ScanMaskSpares(Scan(k, 0, []), base, mask, 8 * |mask| - 1, env, n);
    }
  }

  lemma ListedBelow(k: Sock, c: Scan, base: int, mask: Mask)
    requires c.sock.ctl.fastResend == k.ctl.fastResend && SameBounds(k.send, c.sock.send)
    requires c.found == AllSetBits(k.send, base, mask) && SparesBelow(k.send, c.sock.send, base)
    ensures Lists(c, base, mask, -1) == ListedTwice(k, base, mask)
  {
    assert SackNumber(c.sock.send, base, -1) == SackNumber(k.send, base, -1);
  }

  /** The whole scan: `bs` are the bits listed. */
  lemma ScanLists(k: Sock, c: Scan, base: int, mask: Mask, env: Env) returns (bs: seq<int>)
    requires SenderInv(k) && |mask| <= 255 && c == SackScan(Scan(k, 0, []), base, mask, 8 * |mask| - 1, env)
    ensures ScanOf(Scan(k, 0, []), c, base, bs, -1, 8 * |mask|)
    ensures (-1 in bs) ==> ListedTwice(k, base, mask)
    ensures c.found == AllSetBits(k.send, base, mask)
  {
    var top := 8 * |mask| - 1;
    var c0 := Scan(k, 0, []);
    var c1 := ScanMask(c0, base, mask, top, env);
    ScanIsMaskAndOne(c0, base, mask, top, env);
    var bs1 := ScanMaskLists(c0, c0, c1, base, mask, top, env, [], top + 1);
    assert forall i :: 0 <= i < |bs1| ==> Candidate(c1.resends[i], c1.sock.send, k.ctl.fastResend, base, bs1[i], 0,
           top + 1);
    bs := SackVisitLists(c0, c1, c, base, mask, -1, env, bs1, top + 1);
    SackVisitIs(c1, base, mask, -1, env);
    ScanSparesBelow(k, c1, base, mask, env);
    ListedBelow(k, c1, base, mask);
  }

  lemma ScanWindow(k: Sock, c: Scan, base: int, mask: Mask, env: Env)
    requires SenderInv(k) && |mask| <= 255 && c == SackScan(Scan(k, 0, []), base, mask, 8 * |mask| - 1, env)
    ensures c.sock.send == k.send.(win := Without(k.send, base, mask, 8 * |mask| - 1))
  {
    SackScanTakesOff(Scan(k, 0, []), base, mask, 8 * |mask| - 1, env);
  }

  /** The numbers of the window that a list of candidates names. */
  lemma ListedNames(list: seq<U16>, s: SendState, k: Sock, base: int, bs: seq<int>, high: int) returns (ns: seq<int>)
    requires Listed(list, s, k.ctl.fastResend, base, bs, -1, high) && high <= 2040
    requires s.count <= 1024 && SameBounds(s, k.send)
    ensures Names(s, list, ns, Mark(k))
    ensures |ns| == |bs| && forall i :: 0 <= i < |bs| ==> SackNumber(s, base, bs[i]) == Some(ns[i])
  {
    forall i | 0 <= i < |bs|
      ensures SackNumber(s, base, bs[i]).Some?
    {
      assert Candidate(list[i], s, k.ctl.fastResend, base, bs[i], -1, high);
    }
    ns := seq(|bs|, i requires 0 <= i < |bs| => SackNumber(s, base, bs[i]).value);
    forall i | 0 <= i < |ns|
      ensures Mark(k) <= ns[i] && Head(s) <= ns[i] < s.next && W(ns[i]) == list[i]
    {
      assert Candidate(list[i], s, k.ctl.fastResend, base, bs[i], -1, high);
      NumberOfCandidate(s, k, base + bs[i]);
    }
    forall i, j | 0 <= i < j < |ns|
      ensures ns[i] > ns[j]
    {
      assert Candidate(list[i], s, k.ctl.fastResend, base, bs[i], -1, high);
      assert Candidate(list[j], s, k.ctl.fastResend, base, bs[j], -1, high);
      BitsDiffer(s, base, bs[j], bs[i]);
    }
  }

  lemma NumberOfCandidate(s: SendState, k: Sock, v: int)
    requires s.count <= 1024 && s.next == k.send.next && W(s.next - v - 1) < s.count
    requires W(v - k.ctl.fastResend) <= OUTGOING_BUFFER_MAX_SIZE
    ensures var n := s.next - 1 - W(s.next - v - 1); W(n) == W(v) && Mark(k) <= n
  {
    var n := s.next - 1 - W(s.next - v - 1);
    WDistance(s.next - 1, s.next - 1 - v);
    assert W(n) == W(v);
    MarkWraps(k);
    assert W(n - Mark(k)) == W(v - k.ctl.fastResend) by {
      WDistance(n, Mark(k));
      WDistance(v, k.ctl.fastResend);
      WDistance(W(v), k.ctl.fastResend);
    }
    WSmall(n - Mark(k));
  }

  /** The list with the number below the mask at its end: the head of the window if any. */
  lemma LastNames(k: Sock, c: Scan, base: int, bs: seq<int>, ns: seq<int>, n: int)
    requires Names(c.sock.send, c.resends, ns, Mark(k)) && |ns| == |bs| && -1 !in bs && c.sock.send.count <= 1024
    requires forall i :: 0 <= i < |bs| ==> -1 <= bs[i] < 2040 && SackNumber(c.sock.send, base, bs[i]) == Some(ns[i])
    requires SameBounds(c.sock.send, k.send) && Head(k.send) <= n < k.send.next && W(n) == W(base - 1)
    requires W(base - 1 - k.ctl.fastResend) <= OUTGOING_BUFFER_MAX_SIZE
    ensures Names(c.sock.send, c.resends + [W(base - 1)], ns + [n], Mark(k))
  {
    var s := c.sock.send;
    assert W(s.next - (base - 1) - 1) == s.next - 1 - n by {
      WDistance(s.next - 1, n);
      WDistance(s.next - 1, base - 1);
      WSmall(s.next - 1 - n);
    }
    NumberOfCandidate(s, k, base - 1);
    forall i | 0 <= i < |ns|
      ensures ns[i] > n
    {
      if SackNumber(s, base, -1).Some? {
        BitsDiffer(s, base, -1, bs[i]);
      }
    }
  }

  /** The candidates of a scan, each with its number of the window. */
  ghost predicate Chosen(k: Sock, c: Scan, base: int, bs: seq<int>, ns: seq<int>) {
    && c.sock.send.count <= 1024 && SameBounds(c.sock.send, k.send) && RingOk(c.sock.send)
    && Names(c.sock.send, c.resends, ns, Mark(k)) && |ns| == |bs| && -1 !in bs
    && forall i :: 0 <= i < |bs| ==> -1 <= bs[i] < 2040 && SackNumber(c.sock.send, base, bs[i]) == Some(ns[i])
  }

  lemma ScanChoice(k: Sock, c: Scan, base: int, mask: Mask, env: Env) returns (bs: seq<int>, ns: seq<int>)
    requires SenderInv(k) && |mask| <= 255 && c == SackScan(Scan(k, 0, []), base, mask, 8 * |mask| - 1, env)
    requires !ListedTwice(k, base, mask)
    ensures Chosen(k, c, base, bs, ns) && Quiet(k, c.sock)
    ensures c.sock.out == k.out && c.sock.tags == k.tags && c.found == AllSetBits(k.send, base, mask)
  {
    bs := ScanLists(k, c, base, mask, env);
    ns := ListedNames(c.resends, c.sock.send, k, base, bs, 8 * |mask|);
    forall i | 0 <= i < |bs|
      ensures -1 <= bs[i] < 2040
    {
      assert Candidate(c.resends[i], c.sock.send, k.ctl.fastResend, base, bs[i], -1, 8 * |mask|);
    }
  }

  /** One selective acknowledgement resends at most four packets, lowest number first, each at
      most once, none below the mark, and moves the mark up past them, unless the number below the
      mask is listed twice or its slot holds another packet. */
  lemma SelectiveAckClimbs(k: Sock, k': Sock, base: int, mask: Mask, env: Env)
    requires SenderInv(k) && Aligned(k) && |mask| <= 255 && k' == SelectiveAck(k, base, mask, env)
    requires !ListedTwice(k, base, mask) && !Misfires(k, base, mask)
    ensures Climbs(k, k') && |ResentBy(k, k')| <= MAX_RESENDS
    ensures forall r :: r in ResentBy(k, k') ==> Head(k.send) <= Seqno(k'.tags, r) < k.send.next
  {
    if k.send.count == 0 {
      QuietClimbs(k, k);
    } else {
      var c := SackScan(Scan(k, 0, []), base, mask, 8 * |mask| - 1, env);
      var bs, ns := ScanChoice(k, c, base, mask, env);
      ScanWindow(k, c, base, mask, env);
      ChosenClimb(k, k', c, base, mask, bs, ns);
    }
  }

  lemma ChosenClimb(k: Sock, k': Sock, c: Scan, base: int, mask: Mask, bs: seq<int>, ns: seq<int>)
    requires SenderInv(k) && Aligned(k) && !Misfires(k, base, mask)
    requires Chosen(k, c, base, bs, ns) && Quiet(k, c.sock)
    requires c.sock.out == k.out && c.sock.tags == k.tags && c.found == AllSetBits(k.send, base, mask)
    requires c.sock.send == k.send.(win := Without(k.send, base, mask, 8 * |mask| - 1))
    requires k' == ResendLast(c.sock, SackCandidates(c, base), MAX_RESENDS)
    ensures Climbs(k, k') && |ResentBy(k, k')| <= MAX_RESENDS
    ensures forall r :: r in ResentBy(k, k') ==> Head(k.send) <= Seqno(k'.tags, r) < k.send.next
  {
    if Resendable(k, base - 1, c.found) {
      SlotIsOwn(k, c.sock.send, base, mask);
      assert SackCandidates(c, base) == c.resends + [W(base - 1)];
      LastClimbs(k, k', c, base, Ring.Alias(W(base - 1), Head(k.send), k.send.ringSize), bs, ns);
    } else {
      OthersClimb(k, k', c, base, bs, ns);
    }
    QuietThenClimbs(k, c.sock, k');
  }

  lemma OthersClimb(k: Sock, k': Sock, c: Scan, base: int, bs: seq<int>, ns: seq<int>)
    requires Chosen(k, c, base, bs, ns) && Aligned(c.sock) && c.sock.ctl.fastResend == k.ctl.fastResend
    requires !Resendable(k, base - 1, c.found)
    requires k' == ResendLast(c.sock, SackCandidates(c, base), MAX_RESENDS)
    ensures ClimbsWithin(c.sock, k', MAX_RESENDS)
  {
    ResendLastClimbs(c.sock, k', c.resends, ns, MAX_RESENDS);
  }

  /** A quiet step that sends nothing adds nothing to what is resent after it. */
  lemma QuietThenClimbs(k: Sock, k1: Sock, k2: Sock)
    requires Quiet(k, k1) && Climbs(k1, k2)
    ensures Climbs(k, k2) && ResentBy(k, k2) == ResentBy(k1, k2)
  {
    QuietClimbs(k, k1);
    ClimbsThen(k, k1, k2);
    ResentThen(k, k1, k2);
  }

  /** Without a misfire the slot of the number below the mask is empty or its own. */
  lemma SlotIsOwn(k: Sock, s: SendState, base: int, mask: Mask)
    requires SenderInv(k) && s == k.send.(win := Without(k.send, base, mask, 8 * |mask| - 1))
    requires Resendable(k, base - 1, AllSetBits(k.send, base, mask)) && !Misfires(k, base, mask)
    ensures var n := Ring.Alias(W(base - 1), Head(s), s.ringSize);
            n in s.win ==> W(n) == W(base - 1) && Head(s) <= n < s.next
  {
  }

  /** The last number of the list has no packet any more. */
  lemma LastIsGone(k: Sock, k': Sock, list: seq<U16>, v: U16, ns: seq<int>)
    requires Aligned(k) && RingOk(k.send) && Names(k.send, list, ns, Mark(k))
    requires Ring.Alias(v, Head(k.send), k.send.ringSize) !in k.send.win
    requires k' == ResendLast(k, list + [v], MAX_RESENDS)
    ensures ClimbsWithin(k, k', MAX_RESENDS)
  {
    ResendStep(k, list, v, MAX_RESENDS, k, false);
    ResendLastClimbs(k, k', list, ns, MAX_RESENDS);
  }

  lemma LastIsSent(k: Sock, k': Sock, list: seq<U16>, ns: seq<int>)
    requires Aligned(k) && RingOk(k.send) && Names(k.send, list, ns, Mark(k)) && k' == ResendLast(k, list, MAX_RESENDS)
    ensures ClimbsWithin(k, k', MAX_RESENDS)
  {
    ResendLastClimbs(k, k', list, ns, MAX_RESENDS);
  }

  lemma SameMark(k: Sock, k': Sock)
    requires k'.ctl.fastResend == k.ctl.fastResend && k'.send.next == k.send.next
    ensures Mark(k') == Mark(k)
  {
  }

  lemma LastClimbs(k: Sock, k': Sock, c: Scan, base: int, n: int, bs: seq<int>, ns: seq<int>)
    requires Chosen(k, c, base, bs, ns) && Aligned(c.sock) && c.sock.ctl.fastResend == k.ctl.fastResend
    requires Resendable(k, base - 1, c.found)
    requires n == Ring.Alias(W(base - 1), Head(c.sock.send), c.sock.send.ringSize)
    requires n in c.sock.send.win ==> W(n) == W(base - 1) && Head(k.send) <= n < k.send.next
    requires k' == ResendLast(c.sock, c.resends + [W(base - 1)], MAX_RESENDS)
    ensures ClimbsWithin(c.sock, k', MAX_RESENDS)
  {
    SameMark(k, c.sock);
    if n in c.sock.send.win {
      LastNames(k, c, base, bs, ns, n);
      LastIsSent(c.sock, k', c.resends + [W(base - 1)], ns + [n]);
    } else {
      LastIsGone(c.sock, k', c.resends, W(base - 1), ns);
    }
  }

  // ---------------------------------------------------------------- exactly when something else is sent

  /** Reports name frames that were sent. */
  ghost predicate Placed(log: seq<Resend>, tags: seq<Tag>) {
    forall i :: 0 <= i < |log| ==> log[i].at < |tags|
  }

  lemma {:induction false} ResendLastLater(k: Sock, k': Sock, list: seq<U16>, budget: nat)
    requires Aligned(k) && k.send.ringSize > 0 && k' == ResendLast(k, list, budget)
    ensures Later(k, k') && Placed(ResentBy(k, k'), k'.tags)
    decreases |list|
  {
    if list != [] && budget != 0 {
      var v, rest := list[|list| - 1], list[..|list| - 1];
      var n := Ring.Alias(v, Head(k.send), k.send.ringSize);
      if n in k.send.win {
        ResendOneReports(k, v, n);
        var k1 := ResendOne(k, v, n);
        ResendLastLater(k1, k', rest, budget - 1);
        ResentThen(k, k1, k');
      } else {
        ResendLastLater(k, k', rest, budget);
      }
    }
  }

  /** The slot of every number of the list holds its own packet or none. */
  ghost predicate OwnSlots(s: SendState, list: seq<U16>) {
    s.ringSize > 0 &&
    forall i :: 0 <= i < |list| ==>
      var n := Ring.Alias(list[i], Head(s), s.ringSize); n in s.win ==> W(n) == list[i]
  }

  lemma {:induction false} ResendLastOwn(k: Sock, k': Sock, list: seq<U16>, budget: nat)
    requires Aligned(k) && OwnSlots(k.send, list) && k' == ResendLast(k, list, budget)
    ensures Later(k, k') && OwnIn(ResentBy(k, k'), k'.tags)
    decreases |list|
  {
    ResendLastLater(k, k', list, budget);
    if list != [] && budget != 0 {
      var v, rest := list[|list| - 1], list[..|list| - 1];
      var n := Ring.Alias(v, Head(k.send), k.send.ringSize);
      if n in k.send.win {
        var k1 := ResendOne(k, v, n);
        ResendOneReports(k, v, n);
        assert OwnSlots(k1.send, rest);
        ResendLastOwn(k1, k', rest, budget - 1);
        ResentThen(k, k1, k');
        OwnThen(ResentBy(k, k1), ResentBy(k1, k'), k1.tags, k'.tags);
      } else {
        assert OwnSlots(k.send, rest);
        ResendLastOwn(k, k', rest, budget);
      }
    }
  }

  lemma OwnThen(log1: seq<Resend>, log2: seq<Resend>, tags1: seq<Tag>, tags2: seq<Tag>)
    requires tags1 <= tags2 && Placed(log1, tags1)
    ensures OwnIn(log1 + log2, tags2) <==> OwnIn(log1, tags1) && OwnIn(log2, tags2)
  {
    var log := log1 + log2;
    forall i | 0 <= i < |log1|
      ensures log[i] == log1[i] && Seqno(tags2, log1[i]) == Seqno(tags1, log1[i])
    {
    }
    forall i | 0 <= i < |log2|
      ensures log[|log1| + i] == log2[i]
    {
    }
  }

  lemma AliasOfSackNumber(s: SendState, base: int, bits: int, n: int)
    requires RingOk(s) && SackNumber(s, base, bits) == Some(n)
    ensures Ring.Alias(W(base + bits), Head(s), s.ringSize) == n && W(n) == W(base + bits)
  {
    var x := s.next - (base + bits) - 1;
    assert W(n) == W(base + bits) by {
      WDistance(s.next - 1, x);
      assert s.next - 1 - x == base + bits;
    }
    AliasOfNumber(n, base + bits, Head(s), s.ringSize);
  }

  lemma ListedOwnSlots(list: seq<U16>, s: SendState, mark: U16, base: int, bs: seq<int>, high: int)
    requires RingOk(s) && Listed(list, s, mark, base, bs, -1, high)
    ensures OwnSlots(s, list)
  {
    forall i | 0 <= i < |list|
      ensures W(Ring.Alias(list[i], Head(s), s.ringSize)) == list[i]
    {
      assert Candidate(list[i], s, mark, base, bs[i], -1, high);
      AliasOfSackNumber(s, base, bs[i], SackNumber(s, base, bs[i]).value);
    }
  }

  /** Every fast resend of a selective acknowledgement sends the packet whose number was looked
      up, exactly unless it misfires. */
  lemma SendsOwnExactly(k: Sock, k': Sock, base: int, mask: Mask, env: Env)
    requires SenderInv(k) && Aligned(k) && |mask| <= 255 && k' == SelectiveAck(k, base, mask, env)
    ensures Later(k, k') && Placed(ResentBy(k, k'), k'.tags)
    ensures OwnIn(ResentBy(k, k'), k'.tags) <==> !Misfires(k, base, mask)
  {
    if k.send.count != 0 {
      var c := SackScan(Scan(k, 0, []), base, mask, 8 * |mask| - 1, env);
      var bs := ScanLists(k, c, base, mask, env);
      ScanWindow(k, c, base, mask, env);
      ListedOwnSlots(c.resends, c.sock.send, k.ctl.fastResend, base, bs, 8 * |mask|);
      ScanOwn(k, k', c, base, mask);
    }
  }

  /** What the scan hands over to the resending. */
  ghost predicate Scanned(k: Sock, c: Scan, base: int, mask: Mask) {
    && SenderInv(k) && Aligned(k) && Quiet(k, c.sock) && c.sock.out == k.out && c.sock.tags == k.tags
    && c.found == AllSetBits(k.send, base, mask) && OwnSlots(c.sock.send, c.resends)
    && c.sock.send == k.send.(win := Without(k.send, base, mask, 8 * |mask| - 1))
  }

  lemma ScanOwn(k: Sock, k': Sock, c: Scan, base: int, mask: Mask)
    requires Scanned(k, c, base, mask) && k' == ResendLast(c.sock, SackCandidates(c, base), MAX_RESENDS)
    ensures Later(k, k') && Placed(ResentBy(k, k'), k'.tags)
    ensures OwnIn(ResentBy(k, k'), k'.tags) <==> !Misfires(k, base, mask)
  {
    ResendLastLater(c.sock, k', SackCandidates(c, base), MAX_RESENDS);
    SameResent(k, c.sock, k');
    if Misfires(k, base, mask) {
      assert SackCandidates(c, base) == c.resends + [W(base - 1)];
      FirstIsWrong(c.sock, k', c.resends, W(base - 1));
    } else {
      AllSlotsOwn(k, c, base, mask);
      ResendLastOwn(c.sock, k', SackCandidates(c, base), MAX_RESENDS);
    }
  }

  lemma SameResent(k: Sock, k1: Sock, k': Sock)
    requires Quiet(k, k1) && Later(k1, k')
    ensures Later(k, k') && ResentBy(k, k') == ResentBy(k1, k')
  {
  }

  lemma AllSlotsOwn(k: Sock, c: Scan, base: int, mask: Mask)
    requires Scanned(k, c, base, mask) && !Misfires(k, base, mask)
    ensures OwnSlots(c.sock.send, SackCandidates(c, base))
  {
    if Resendable(k, base - 1, c.found) {
      SlotIsOwn(k, c.sock.send, base, mask);
    }
  }

  /** When the last slot of the list holds the packet of another number, the first resend is
      wrong. */
  lemma FirstIsWrong(k: Sock, k': Sock, list: seq<U16>, v: U16)
    requires Aligned(k) && k.send.ringSize > 0 && k' == ResendLast(k, list + [v], MAX_RESENDS)
    requires var n := Ring.Alias(v, Head(k.send), k.send.ringSize); n in k.send.win && W(n) != v
    ensures Later(k, k') && !OwnIn(ResentBy(k, k'), k'.tags)
  {
    var n := Ring.Alias(v, Head(k.send), k.send.ringSize);
    var k1 := ResendOne(k, v, n);
    ResendOneReports(k, v, n);
    ResendStep(k, list, v, MAX_RESENDS, k1, true);
    ResendLastLater(k1, k', list, MAX_RESENDS - 1);
    ResentThen(k, k1, k');
    assert ResentBy(k, k')[0] == Resend(v, |k.out|);
    assert Seqno(k'.tags, ResentBy(k, k')[0]) == n;
  }

  // ---------------------------------------------------------------- and exactly when one is repeated

  /** No packet went out twice for `log`. */
  ghost predicate NoRepeat(log: seq<Resend>, tags: seq<Tag>) {
    forall i, j :: 0 <= i < j < |log| ==> Seqno(tags, log[i]) != Seqno(tags, log[j])
  }

  /** The last number of the list is resent first. */
  lemma ResendsLastFirst(k: Sock, k1: Sock, k': Sock, rest: seq<U16>, v: U16, n: int, budget: nat)
    requires Aligned(k) && k.send.ringSize > 0 && n == Ring.Alias(v, Head(k.send), k.send.ringSize) && n in k.send.win
    requires budget > 0 && k1 == ResendOne(k, v, n) && k' == ResendLast(k, rest + [v], budget)
    ensures k' == ResendLast(k1, rest, budget - 1) && Later(k, k') && Aligned(k1)
    ensures SameBounds(k.send, k1.send) && n in k1.send.win
    ensures Later(k1, k') && ResentBy(k, k') == [Resend(v, |k.out|)] + ResentBy(k1, k')
    ensures Seqno(k'.tags, Resend(v, |k.out|)) == n
  {
    ResendOneReports(k, v, n);
    ResendStep(k, rest, v, budget, k1, true);
    ResendLastLater(k1, k', rest, budget - 1);
    ResentThen(k, k1, k');
  }

  /** A list that ends with the same number twice resends it twice. */
  lemma ResendsTwice(k: Sock, k': Sock, rest: seq<U16>, v: U16, n: int)
    requires Aligned(k) && k.send.ringSize > 0 && n == Ring.Alias(v, Head(k.send), k.send.ringSize) && n in k.send.win
    requires k' == ResendLast(k, rest + [v] + [v], MAX_RESENDS)
    ensures Later(k, k') && !NoRepeat(ResentBy(k, k'), k'.tags)
  {
    var k1 := ResendOne(k, v, n);
    ResendsLastFirst(k, k1, k', rest + [v], v, n, MAX_RESENDS);
    ResendsLastFirst(k1, ResendOne(k1, v, n), k', rest, v, n, MAX_RESENDS - 1);
    TwoAlike(ResentBy(k, k'), k'.tags, Resend(v, |k.out|), Resend(v, |k1.out|));
  }

  lemma TwoAlike(log: seq<Resend>, tags: seq<Tag>, a: Resend, b: Resend)
    requires |log| >= 2 && log[0] == a && log[1] == b && Seqno(tags, a) == Seqno(tags, b)
    ensures !NoRepeat(log, tags)
  {
  }

  lemma ListedLast(c: Scan, base: int, mask: Mask, env: Env) returns (rest: seq<U16>)
    requires |mask| <= 255 && Lists(c, base, mask, -1)
    ensures SackVisit(c, base, mask, -1, env).sock == c.sock
    ensures SackCandidates(SackVisit(c, base, mask, -1, env), base) == rest + [W(base - 1)] + [W(base - 1)]
  {
    var c1 := SackVisit(c, base, mask, -1, env);
    SackVisitIs(c, base, mask, -1, env);
    assert c1.sock == c.sock && c1.found == c.found;
    rest := c1.resends[..|c1.resends| - 1];
  }

  /** What is resent from when the number below the mask is listed twice. */
  lemma TwiceOnList(k: Sock, base: int, mask: Mask, env: Env, n: int) returns (k1: Sock, rest: seq<U16>)
    requires SenderInv(k) && |mask| <= 255 && ListedTwice(k, base, mask) && SackNumber(k.send, base, -1) == Some(n)
    ensures SelectiveAck(k, base, mask, env) == ResendLast(k1, rest + [W(base - 1)] + [W(base - 1)], MAX_RESENDS)
    ensures SameBounds(k.send, k1.send) && n in k1.send.win && Quiet(k, k1) && k1.out == k.out && k1.tags == k.tags
  {
    var top := 8 * |mask| - 1;
    var c := Scan(k, 0, []);
    var c0 := ScanMask(c, base, mask, top, env);
    ScanIsMaskAndOne(c, base, mask, top, env);
    ScanMaskSpares(c, base, mask, top, env, n);
    var _ := ScanMaskLists(c, c, c0, base, mask, top, env, [], top + 1);
    ScanSparesBelow(k, c0, base, mask, env);
    ListedBelow(k, c0, base, mask);
    k1 := c0.sock;
    rest := ListedLast(c0, base, mask, env);
  }

  /** When the number below the mask is listed twice, its packet is resent twice. */
  lemma ListedTwiceRepeats(k: Sock, k': Sock, base: int, mask: Mask, env: Env)
    requires SenderInv(k) && Aligned(k) && |mask| <= 255 && ListedTwice(k, base, mask)
    requires k' == SelectiveAck(k, base, mask, env)
    ensures Later(k, k') && !NoRepeat(ResentBy(k, k'), k'.tags)
  {
    var n := SackNumber(k.send, base, -1).value;
    var k1, rest := TwiceOnList(k, base, mask, env, n);
    AliasOfSackNumber(k.send, base, -1, n);
    ResendsTwice(k1, k', rest, W(base - 1), n);
    ResentThen(k, k1, k');
  }

  /** A selective acknowledgement that does not misfire resends no packet twice, exactly when the
      number below its mask is not listed twice. */
  lemma ResendsOnceExactly(k: Sock, k': Sock, base: int, mask: Mask, env: Env)
    requires SenderInv(k) && Aligned(k) && |mask| <= 255 && k' == SelectiveAck(k, base, mask, env)
    requires !Misfires(k, base, mask)
    ensures Later(k, k') && (NoRepeat(ResentBy(k, k'), k'.tags) <==> !ListedTwice(k, base, mask))
  {
    if ListedTwice(k, base, mask) {
      ListedTwiceRepeats(k, k', base, mask, env);
    } else {
      SelectiveAckClimbs(k, k', base, mask, env);
    }
  }

  // ---------------------------------------------------------------- every operation

  lemma QuietThen(k: Sock, k1: Sock, k2: Sock)
    requires Quiet(k, k1) && Quiet(k1, k2)
    ensures Quiet(k, k2)
  {
  }

  /** Nothing is resent, though the mark may move. */
  ghost predicate Silent(k: Sock, k': Sock) {
    Later(k, k') && Reports(k'.events) == Reports(k.events)
  }

  /** A mark that an acknowledgement raises is not above it. */
  lemma RaiseIsUp(next: int, mark: U16, target: U16)
    requires W(next - target) < 0x8000 && W(target - mark) < W(mark - target)
    ensures W(next - target) <= W(next - mark)
  {
    var x: int := W(next - mark);
    var y: int := W(next - target);
    WDistance(next - mark, next - target);
    WDistance(next - target, next - mark);
    assert W(target - mark) == W(x - y) && W(mark - target) == W(y - x);
    WSmall(x - y);
    WSmall(y - x);
  }

  lemma AcceptableIsNear(next: int, count: nat, nr: U16)
    requires count <= 1024 && AckAcceptable(W(next), count, nr)
    ensures W(next - W(nr + 1)) <= 1027
  {
    AckWindowExact(W(next), count, nr);
    WDistance(next, nr + 1);
  }

  /** An acknowledgement moves the mark up past what it covers, never down. */
  lemma RaiseClimbs(k: Sock, k': Sock, nr: U16)
    requires k.send.count <= 1024 && AckAcceptable(W(k.send.next), k.send.count, nr) && k' == RaiseFastResend(k, nr)
    ensures Silent(k, k') && Mark(k) <= Mark(k')
  {
    if WrappingLess(k.ctl.fastResend, W(nr + 1), MOD16) {
      AcceptableIsNear(k.send.next, k.send.count, nr);
      RaiseIsUp(k.send.next, k.ctl.fastResend, W(nr + 1));
    }
  }

  lemma {:induction false} AckCumulativeQuiet(k: Sock, acks: nat, env: Env)
    ensures Quiet(k, AckCumulative(k, acks, env))
    decreases acks
  {
    if acks != 0 && k.send.count != 0 {
      AckPacketQuiet(k, Head(k.send), env);
      var (k1, status) := AckPacket(k, Head(k.send), env);
      if status != NeverSent {
        AckCumulativeQuiet(k1.(send := k1.send.(count := k1.send.count - 1)), acks - 1, env);
      }
    }
  }

  lemma {:induction false} SkipAckedQuiet(k: Sock)
    ensures Quiet(k, SkipAcked(k))
    decreases k.send.count
  {
    if k.send.count > 0 && Head(k.send) !in k.send.win {
      SkipAckedQuiet(k.(send := k.send.(count := k.send.count - 1)));
    }
  }

  /** What one step resends, it sends under its own number, in order, from the mark on. */
  ghost predicate Orderly(k: Sock, k': Sock) {
    Climbs(k, k') && OwnIn(ResentBy(k, k'), k'.tags)
  }

  lemma QuietIsOrderly(k: Sock, k': Sock)
    requires Quiet(k, k')
    ensures Orderly(k, k')
  {
    QuietClimbs(k, k');
  }

  /** After a timeout the packet at the mark is resent, which is the head of the window, and the
      mark steps past it. */
  lemma FastTimeoutClimbs(k: Sock, k': Sock)
    requires SenderInv(k) && Aligned(k) && k' == FastTimeout(k)
    ensures Orderly(k, k')
    ensures var n := Head(k.send);
            if k.ctl.fastTimeout && W(n) == k.ctl.fastResend && n in k.send.win && k.send.win[n].transmissions > 0
            then ResentBy(k, k') == [Resend(W(n), |k.out|)] && Seqno(k'.tags, ResentBy(k, k')[0]) == n
                 && Mark(k) == n && Mark(k') == n + 1
            else ResentBy(k, k') == []
  {
    var n := Head(k.send);
    if k.ctl.fastTimeout && W(n) == k.ctl.fastResend && n in k.send.win && k.send.win[n].transmissions > 0 {
      ReportOne(k.(ctl := k.ctl.(fastResend := W(k.ctl.fastResend + 1))), FastResend(W(n), |k.out|));
      MarkIs(k, n);
      WDistance(n, -1);
      MarkIs(k', n + 1);
      assert ResentBy(k, k') == [Resend(W(n), |k.out|)];
    } else {
      QuietIsOrderly(k, k');
    }
  }

  lemma AdvanceStateQuiet(k: Sock, p: Packet, acks: nat)
    ensures Quiet(k, AdvanceState(k, p, acks))
    ensures AdvanceState(k, p, acks).send.next == k.send.next && AdvanceState(k, p, acks).send.count == k.send.count
  {
    var k1 := k.(send := k.send.(maxWindowUser := p.windowSize));
    ReportOne(k1.(state := Connected), OnConnect);
  }

  /** The window advances up to the point where the packet after a timeout is resent. */
  function BeforeRetry(k: Sock, p: Packet, acks: nat, env: Env): Sock {
    SendLoneUnsent(SkipAcked(AckCumulative(RaiseFastResend(AdvanceState(k, p, acks), p.ackNr), acks, env)))
  }

  lemma BeforeRetryKeeps(k: Sock, p: Packet, acks: nat, env: Env)
    requires SenderInv(k)
    ensures SenderInv(BeforeRetry(k, p, acks, env))
  {
    AdvanceStateKeeps(k, p, acks);
    var k1 := RaiseFastResend(AdvanceState(k, p, acks), p.ackNr);
    AckAndSkipKeeps(k1, acks, env);
    SendLoneUnsentKeeps(SkipAcked(AckCumulative(k1, acks, env)));
  }

  lemma BeforeRetryQuiet(k: Sock, p: Packet, acks: nat, env: Env)
    ensures Quiet(RaiseFastResend(AdvanceState(k, p, acks), p.ackNr), BeforeRetry(k, p, acks, env))
  {
    var k1 := RaiseFastResend(AdvanceState(k, p, acks), p.ackNr);
    var k2 := AckCumulative(k1, acks, env);
    AckCumulativeQuiet(k1, acks, env);
    SkipAckedQuiet(k2);
    QuietThen(k1, k2, SkipAcked(k2));
    assert Quiet(SkipAcked(k2), SendLoneUnsent(SkipAcked(k2)));
    QuietThen(k1, SkipAcked(k2), BeforeRetry(k, p, acks, env));
  }

  lemma BeforeRetryClimbs(k: Sock, k': Sock, p: Packet, acks: nat, env: Env)
    requires SenderInv(k) && k' == BeforeRetry(k, p, acks, env)
    ensures Silent(k, k')
    ensures AckAcceptable(W(k.send.next), k.send.count, p.ackNr) ==> Mark(k) <= Mark(k')
  {
    var k0 := AdvanceState(k, p, acks);
    var k1 := RaiseFastResend(k0, p.ackNr);
    AdvanceStateQuiet(k, p, acks);
    assert Silent(k0, k1);
    BeforeRetryQuiet(k, p, acks, env);
    if AckAcceptable(W(k.send.next), k.send.count, p.ackNr) {
      RaiseClimbs(k0, k1, p.ackNr);
      QuietClimbs(k, k0);
      QuietClimbs(k1, k');
    }
  }

  lemma AdvanceClimbs(k: Sock, k': Sock, p: Packet, acks: nat, env: Env)
    requires SenderInv(k) && Aligned(k) && k' == AdvanceSendWindow(k, p, acks, env)
    ensures Later(k, k') && OwnIn(ResentBy(k, k'), k'.tags)
    ensures AckAcceptable(W(k.send.next), k.send.count, p.ackNr) ==> Climbs(k, k')
  {
    var k1 := BeforeRetry(k, p, acks, env);
    BeforeRetryClimbs(k, k1, p, acks, env);
    BeforeRetryKeeps(k, p, acks, env);
    FastTimeoutClimbs(k1, k');
    ResentThen(k, k1, k');
    assert ResentBy(k, k') == ResentBy(k1, k');
  }

  // ---------------------------------------------------------------- honest acknowledgements

  /** The cumulative acknowledgement of `p` covers no packet of the window that was never sent. */
  ghost predicate CoversOnlySent(s: SendState, ackNr: U16) {
    forall n :: Head(s) <= n < Head(s) + AckCount(W(s.next), s.count, ackNr) && n in s.win ==>
      s.win[n].transmissions > 0
  }

  lemma {:induction false} AckCumulativeCounts(k: Sock, acks: nat, env: Env)
    requires acks <= k.send.count
    requires forall n :: Head(k.send) <= n < Head(k.send) + acks && n in k.send.win ==> k.send.win[n].transmissions > 0
    ensures AckCumulative(k, acks, env).send.next == k.send.next
    ensures AckCumulative(k, acks, env).send.count == k.send.count - acks
    decreases acks
  {
    if acks != 0 {
      var k1 := AckPacket(k, Head(k.send), env).0;
      AckCumulativeCounts(k1.(send := k1.send.(count := k1.send.count - 1)), acks - 1, env);
    }
  }

  lemma {:induction false} SkipAckedCounts(k: Sock)
    ensures SkipAcked(k).send.next == k.send.next && SkipAcked(k).send.count <= k.send.count
    decreases k.send.count
  {
    if k.send.count > 0 && Head(k.send) !in k.send.win {
      SkipAckedCounts(k.(send := k.send.(count := k.send.count - 1)));
    }
  }

  lemma AdvanceCounts(k: Sock, k': Sock, p: Packet, acks: nat, env: Env)
    requires k' == AdvanceSendWindow(k, p, acks, env) && acks <= k.send.count
    requires forall n :: Head(k.send) <= n < Head(k.send) + acks && n in k.send.win ==> k.send.win[n].transmissions > 0
    ensures k'.send.next == k.send.next && k'.send.count <= k.send.count - acks
  {
    var k1 := RaiseFastResend(AdvanceState(k, p, acks), p.ackNr);
    NoteCounts(k, p, acks);
    AckCumulativeCounts(k1, acks, env);
    SkipAckedCounts(AckCumulative(k1, acks, env));
    TailCounts(SkipAcked(AckCumulative(k1, acks, env)));
  }

  lemma NoteCounts(k: Sock, p: Packet, acks: nat)
    ensures var s' := RaiseFastResend(AdvanceState(k, p, acks), p.ackNr).send;
            s'.next == k.send.next && s'.count == k.send.count && s'.win == k.send.win
  {
  }

  lemma TailCounts(k: Sock)
    ensures var s' := FastTimeout(SendLoneUnsent(k)).send; s'.next == k.send.next && s'.count == k.send.count
  {
  }

  /** The number after an acknowledged one is never above the head that the acknowledgement
      leaves. */
  lemma NextIsNotAboveHead(next: int, count: nat, count': nat, ackNr: U16)
    requires count <= 1024 && AckAcceptable(W(next), count, ackNr)
    requires count' <= count - AckCount(W(next), count, ackNr)
    ensures W(next - (ackNr + 1) - 1) >= count' - 1
  {
    var y: int := W(next - 1 - ackNr);
    AckWindowExact(W(next), count, ackNr);
    assert y == W(W(next) - 1 - ackNr) by { WDistance(next, ackNr + 1); }
    assert W(ackNr - (W(next) - 1 - count)) == W(count - y) by {
      WDistance(count, next - 1 - ackNr);
      WDistance(ackNr + 1 + count, next);
    }
    WSmall(count - y);
    assert W(next - (ackNr + 1) - 1) == W(y - 1) by { WDistance(next - 1 - ackNr, 1); }
    WSmall(y - 1);
  }

  /** An honest acknowledgement never lists a packet twice. */
  lemma HonestNotTwice(k: Sock, k1: Sock, p: Packet, mask: Mask, env: Env)
    requires k.send.count <= 1024 && CoversOnlySent(k.send, p.ackNr)
    requires AckAcceptable(W(k.send.next), k.send.count, p.ackNr)
    requires k1 == AdvanceSendWindow(k, p, AckCount(W(k.send.next), k.send.count, p.ackNr), env)
    ensures !ListedTwice(k1, p.ackNr + 2, mask)
  {
    var acks := AckCount(W(k.send.next), k.send.count, p.ackNr);
    AdvanceCounts(k, k1, p, acks, env);
    NextIsNotAboveHead(k.send.next, k.send.count, k1.send.count, p.ackNr);
  }

  /** What the mask of `p` is applied to. */
  function AfterAcks(k: Sock, p: Packet, env: Env): Sock {
    AdvanceSendWindow(k, p, AckCount(W(k.send.next), k.send.count, p.ackNr), env)
  }

  predicate MaskFits(p: Packet) {
    p.sack.Some? ==> |p.sack.value| <= 255
  }

  predicate MaskMisfires(k: Sock, p: Packet, env: Env) {
    p.sack.Some? && Misfires(AfterAcks(k, p, env), p.ackNr + 2, p.sack.value)
  }

  lemma AfterAcksKeeps(k: Sock, p: Packet, env: Env)
    requires SenderInv(k)
    ensures SenderInv(AfterAcks(k, p, env))
  {
    AdvanceSendWindowKeeps(k, p, AckCount(W(k.send.next), k.send.count, p.ackNr), env);
  }

  lemma ProcessAcksClimbs(k: Sock, k': Sock, p: Packet, env: Env)
    requires SenderInv(k) && Aligned(k) && k' == ProcessAcks(k, p, env) && MaskFits(p)
    requires CoversOnlySent(k.send, p.ackNr) && AckAcceptable(W(k.send.next), k.send.count, p.ackNr)
    requires !MaskMisfires(k, p, env)
    ensures Climbs(k, k')
  {
    var k1 := AfterAcks(k, p, env);
    AdvanceClimbs(k, k1, p, AckCount(W(k.send.next), k.send.count, p.ackNr), env);
    if p.sack.Some? {
      HonestNotTwice(k, k1, p, p.sack.value, env);
      AfterAcksKeeps(k, p, env);
      SelectiveAckClimbs(k1, k', p.ackNr + 2, p.sack.value, env);
      ClimbsThen(k, k1, k');
    }
  }

  lemma ProcessAcksOwn(k: Sock, k': Sock, p: Packet, env: Env)
    requires SenderInv(k) && Aligned(k) && k' == ProcessAcks(k, p, env) && MaskFits(p)
    ensures Later(k, k') && (OwnIn(ResentBy(k, k'), k'.tags) <==> !MaskMisfires(k, p, env))
    ensures Placed(ResentBy(k, k'), k'.tags)
  {
    var k1 := AfterAcks(k, p, env);
    AdvanceClimbs(k, k1, p, AckCount(W(k.send.next), k.send.count, p.ackNr), env);
    if p.sack.Some? {
      AfterAcksKeeps(k, p, env);
      SendsOwnExactly(k1, k', p.ackNr + 2, p.sack.value, env);
      ResentThen(k, k1, k');
      OwnThen(ResentBy(k, k1), ResentBy(k1, k'), k1.tags, k'.tags);
    }
  }

  // ---------------------------------------------------------------- the calls that resend nothing

  lemma {:induction false} FlushScanQuiet(k: Sock, k': Sock, left: nat, inPrefix: bool, env: Env)
    requires k' == FlushScan(k, left, inPrefix, env).0
    ensures Quiet(k, k')
    decreases left
  {
    if left > 0 {
      var n := k.send.next - left;
      var cursor := if inPrefix then W(n + 1) else k.send.flushScanStart;
      if Settled(k.send.win, n) {
        FlushScanQuiet(WithCursor(k, cursor), k', left - 1, inPrefix, env);
      } else if !IsFull(k, -1, env) {
        if left != 1 || k.send.count == 1 || |k.send.win[n].payload| >= env.packetSize {
          FlushScanQuiet(WithCursor(SendPacket(k, n), cursor), k', left - 1, inPrefix, env);
        } else {
          FlushScanQuiet(k, k', left - 1, false, env);
        }
      }
    }
  }

  lemma {:induction false} WriteRoundsQuiet(k: Sock, k': Sock, typ: PacketType, data: Bytes, env: Env)
    requires k' == WriteRounds(k, typ, data, env)
    ensures Quiet(k, k')
    decreases |data|
  {
    var added := Added(k.send, data, env.packetSize);
    if added < |data| {
      WriteRoundsQuiet(WriteRound(k, typ, data, env), k', typ, data[added..], env);
    }
  }

  lemma WriteOutgoingPacketQuiet(k: Sock, typ: PacketType, data: Bytes, env: Env)
    ensures Quiet(k, WriteOutgoingPacket(k, typ, data, env))
  {
    var k0 := if k.send.count == 0 then k.(ctl := k.ctl.(retransmitTimeout := env.rto)) else k;
    var k1 := WriteRounds(k0, typ, data, env);
    WriteRoundsQuiet(k0, k1, typ, data, env);
    FlushScanQuiet(k1, Flush(k1, env).0, FlushSpan(k1.send), true, env);
    QuietThen(k0, k1, Flush(k1, env).0);
  }

  lemma {:induction false} WriteChunksQuiet(k: Sock, k': Sock, data: Bytes, env: Env)
    requires k' == WriteChunks(k, data, env).0
    ensures Quiet(k, k')
    decreases |data|
  {
    var num := Min(|data|, env.packetSize);
    if !IsFull(k, num, env) {
      WriteOutgoingPacketQuiet(k, StData, data[..num], env);
      var k1 := WriteOutgoingPacket(k, StData, data[..num], env);
      if Min(|data| - num, env.packetSize) != 0 {
        WriteChunksQuiet(k1, k', data[num..], env);
        QuietThen(k, k1, k');
      }
    }
  }

  lemma ReadQuiet(k: Sock, data: Bytes)
    ensures Quiet(k, Read(k, data))
  {
    ReportOne(k, OnRead(data));
  }

  lemma PostEofQuiet(k: Sock, env: Env)
    ensures Quiet(k, PostEof(k, env))
  {
    ReportOne(k.(recv := k.recv.(gotFinReached := true)), OnEof);
  }

  lemma {:induction false} DrainQuiet(k: Sock, k': Sock, env: Env)
    requires k' == Drain(k, env)
    ensures Quiet(k, k')
    decreases k.recv.reorderCount
  {
    var k1 := PostEof(k, env);
    PostEofQuiet(k, env);
    if k1.recv.reorderCount != 0 && Ring.Get(k1.recv.inbuf, k1.recv.ack + 1).Some? {
      var data := Ring.Get(k1.recv.inbuf, k1.recv.ack + 1).value;
      ReadQuiet(k1, data);
      assert Quiet(k1, Drained(k1, data));
      DrainQuiet(Drained(k1, data), k', env);
      QuietThen(k1, Drained(k1, data), k');
      QuietThen(k, k1, k');
    }
  }

  lemma DeliverInOrderQuiet(k: Sock, k': Sock, payload: Bytes, env: Env)
    requires k' == DeliverInOrder(k, payload, env)
    ensures Quiet(k, k')
  {
    var k1 := Read(k, payload);
    ReadQuiet(k, payload);
    var k2 := k1.(recv := k1.recv.(ack := k1.recv.ack + 1));
    var k3 := Drain(k2, env);
    DrainQuiet(k2, k3, env);
    QuietThen(k, k2, k3);
    assert k' == k3.(ackPending := true);
  }

  lemma DeliverDataQuiet(k: Sock, k': Sock, p: Packet, seqnr: nat, env: Env)
    requires k' == DeliverData(k, p, seqnr, env).0
    ensures Quiet(k, k')
  {
    var k0 := NoteFin(k, p);
    if seqnr == 0 {
      DeliverInOrderQuiet(k0, k', p.payload, env);
      QuietThen(k, k0, k');
    }
  }

  lemma ReopenWindowQuiet(k: Sock, env: Env)
    ensures Quiet(k, ReopenWindow(k, env))
  {
    ReportOne(k.(state := Connected), OnWritable);
  }

  lemma RtoExpiredQuiet(k: Sock, probeTimedOut: bool)
    ensures Quiet(k, RtoExpired(k, probeTimedOut).0)
  {
    ReportOne(k.(state := Destroy), OnError);
    ReportOne(k.(state := Reset), OnError);
  }

  lemma RunTimersQuiet(k: Sock, timers: Timers, env: Env)
    ensures Quiet(k, RunTimers(k, timers, env))
  {
    var k0 := LiftZeroWindow(k, timers);
    RtoExpiredQuiet(k0, timers.probeTimedOut);
    var k1 := MaybeExpire(k0, timers).0;
    ReopenWindowQuiet(k1, env);
    QuietThen(k0, k1, ReopenWindow(k1, env));
    KeepAliveQuiet(ReopenWindow(k1, env), timers, env);
    QuietThen(k0, ReopenWindow(k1, env), KeepAlive(ReopenWindow(k1, env), timers, env));
  }

  lemma KeepAliveQuiet(k: Sock, timers: Timers, env: Env)
    ensures Quiet(k, KeepAlive(k, timers, env))
  {
  }

  lemma CheckTimeoutsQuiet(k: Sock, timers: Timers, before: Env, after: Env)
    ensures Quiet(k, CheckTimeouts(k, timers, before, after))
  {
    FlushScanQuiet(k, Flush(k, before).0, FlushSpan(k.send), true, before);
    var k0 := FlushUnlessDestroyed(k, before);
    RunTimersQuiet(k0, timers, after);
    QuietThen(k, k0, CheckTimeouts(k, timers, before, after));
  }

  lemma AbortQuiet(k: Sock)
    ensures Quiet(k, Abort(k)) && Quiet(k, IcmpError(k))
  {
    ReportOne(k.(state := if k.send.closeRequested then Destroy else Reset), OnError);
  }

  lemma SendFinQuiet(k: Sock, env: Env)
    ensures Quiet(k, SendFin(k, env))
  {
    WriteOutgoingPacketQuiet(k.(send := k.send.(finSent := true)), StFin, [], env);
  }

  lemma CloseQuiet(k: Sock, env: Env)
    ensures Quiet(k, Close(k, env))
  {
    var k1 := MarkReadShutdown(k);
    SendFinQuiet(k1.(send := k1.send.(closeRequested := true)), env);
  }

  lemma OtherCallQuiet(k: Sock, k': Sock, c: Call)
    requires !c.CallIncoming? && k' == Do(k, c)
    ensures Quiet(k, k')
  {
    match c {
      case CallWritev(data, env) => WriteChunksQuiet(k, WriteChunks(k, data, env).0, data, env);
      case CallTimeouts(timers, before, after) => CheckTimeoutsQuiet(k, timers, before, after);
      case CallClose(env) => CloseQuiet(k, env);
      case CallShutdown(how, env) => SendFinQuiet(if how != ShutWr then MarkReadShutdown(k) else k, env);
      case CallReset => AbortQuiet(k);
      case CallIcmpError => AbortQuiet(k);
      case _ =>
    }
  }

  // ---------------------------------------------------------------- runs

  /** Is `p` taken past the acknowledgement check and the window of the receiving side? */
  predicate Examined(k: Sock, p: Packet) {
    && ((p.typ == StSyn && k.state == SynRecv) || AckAcceptable(W(k.send.next), k.send.count, p.ackNr))
    && IncomingOffset(LearnPeerNumber(k, p), p) < REORDER_BUFFER_MAX_SIZE
  }

  /** Does the call process a mask that misfires? */
  predicate MisfiresOn(k: Sock, c: Call) {
    c.CallIncoming? && Examined(k, c.p) && MaskMisfires(LearnPeerNumber(k, c.p), c.p, c.env)
  }

  /** The peer acknowledges only what was sent, and a repeated SYN does not reach the socket. */
  ghost predicate Honest(k: Sock, c: Call) {
    c.CallIncoming? ==>
      && c.p.typ != StSyn
      && (AckAcceptable(W(k.send.next), k.send.count, c.p.ackNr) ==> CoversOnlySent(k.send, c.p.ackNr))
  }

  /** Masks fit their length byte. */
  predicate Fits(c: Call) {
    c.CallIncoming? ==> MaskFits(c.p)
  }

  ghost predicate HonestRun(k: Sock, calls: seq<Call>)
    decreases |calls|
  {
    calls == [] ||
    (HonestRun(k, calls[..|calls| - 1]) && Honest(DoAll(k, calls[..|calls| - 1]), calls[|calls| - 1]))
  }

  predicate NeverMisfires(k: Sock, calls: seq<Call>)
    decreases |calls|
  {
    calls == [] ||
    (NeverMisfires(k, calls[..|calls| - 1]) && !MisfiresOn(DoAll(k, calls[..|calls| - 1]), calls[|calls| - 1]))
  }

  lemma IncomingIsAcks(k: Sock, k': Sock, p: Packet, env: Env)
    requires k' == ProcessIncoming(k, p, env).0
    ensures Quiet(k, LearnPeerNumber(k, p))
    ensures if Examined(k, p) then Quiet(ProcessAcks(LearnPeerNumber(k, p), p, env), k') else Quiet(k, k')
  {
    var k0 := LearnPeerNumber(k, p);
    if Examined(k, p) {
      var k1 := ProcessAcks(k0, p, env);
      var k2 := ReopenWindow(k1, env);
      ReopenWindowQuiet(k1, env);
      DeliverDataQuiet(k2, DeliverData(k2, p, IncomingOffset(k0, p), env).0, p, IncomingOffset(k0, p), env);
      QuietThen(k1, k2, k');
    }
  }

  lemma IncomingClimbs(k: Sock, k': Sock, p: Packet, env: Env)
    requires SenderInv(k) && Aligned(k) && k' == ProcessIncoming(k, p, env).0 && MaskFits(p)
    requires Honest(k, CallIncoming(p, env)) && !MisfiresOn(k, CallIncoming(p, env))
    ensures Climbs(k, k')
  {
    IncomingIsAcks(k, k', p, env);
    var k0 := LearnPeerNumber(k, p);
    QuietClimbs(k, k0);
    if Examined(k, p) {
      SameSenderKeeps(k, k0);
      var k1 := ProcessAcks(k0, p, env);
      ProcessAcksClimbs(k0, k1, p, env);
      QuietClimbs(k1, k');
      ClimbsThen(k, k0, k1);
      ClimbsThen(k, k1, k');
    } else {
      QuietClimbs(k, k');
    }
  }

  /** Each call moves the mark up or leaves it, and resends in order from it on. */
  lemma DoClimbs(k: Sock, k': Sock, c: Call)
    requires SenderInv(k) && Aligned(k) && k' == Do(k, c) && Fits(c) && Honest(k, c) && !MisfiresOn(k, c)
    ensures Climbs(k, k')
  {
    if c.CallIncoming? {
      IncomingClimbs(k, k', c.p, c.env);
    } else {
      OtherCallQuiet(k, k', c);
      QuietClimbs(k, k');
    }
  }

  lemma IncomingOwn(k: Sock, k': Sock, p: Packet, env: Env)
    requires SenderInv(k) && Aligned(k) && k' == ProcessIncoming(k, p, env).0 && MaskFits(p)
    ensures Later(k, k') && Placed(ResentBy(k, k'), k'.tags)
    ensures OwnIn(ResentBy(k, k'), k'.tags) <==> !MisfiresOn(k, CallIncoming(p, env))
  {
    IncomingIsAcks(k, k', p, env);
    if Examined(k, p) {
      var k0 := LearnPeerNumber(k, p);
      SameSenderKeeps(k, k0);
      var k1 := ProcessAcks(k0, p, env);
      ProcessAcksOwn(k0, k1, p, env);
      QuietEndsOwn(k, k0, k1, k');
    }
  }

  lemma QuietEndsOwn(k: Sock, k0: Sock, k1: Sock, k': Sock)
    requires Quiet(k, k0) && Later(k0, k1) && Quiet(k1, k')
    requires Placed(ResentBy(k0, k1), k1.tags)
    ensures Later(k, k') && Placed(ResentBy(k, k'), k'.tags)
    ensures OwnIn(ResentBy(k, k'), k'.tags) <==> OwnIn(ResentBy(k0, k1), k1.tags)
  {
    ResentThen(k, k0, k1);
    ResentThen(k, k1, k');
    assert ResentBy(k, k') == ResentBy(k0, k1) + [];
    OwnThen(ResentBy(k0, k1), [], k1.tags, k'.tags);
  }

  /** Each call sends under their own numbers what it resends fast, exactly unless it misfires. */
  lemma DoOwn(k: Sock, k': Sock, c: Call)
    requires SenderInv(k) && Aligned(k) && k' == Do(k, c) && Fits(c)
    ensures Later(k, k') && Placed(ResentBy(k, k'), k'.tags)
    ensures OwnIn(ResentBy(k, k'), k'.tags) <==> !MisfiresOn(k, c)
  {
    if c.CallIncoming? {
      IncomingOwn(k, k', c.p, c.env);
    } else {
      OtherCallQuiet(k, k', c);
    }
  }

  /** Nothing has been resent fast, and every frame has its number. */
  ghost predicate Unresent(k: Sock) {
    SenderInv(k) && Aligned(k) && Reports(k.events) == []
  }

  /** What has been resent up to `k`, and whether all of it went out under its own number. */
  ghost predicate OwnSoFar(k: Sock, own: bool) {
    SenderInv(k) && Aligned(k) && Placed(Reports(k.events), k.tags) && (Own(k) <==> own)
  }

  lemma OwnStep(k: Sock, k': Sock, c: Call, own: bool)
    requires OwnSoFar(k, own) && k' == Do(k, c) && Fits(c)
    ensures OwnSoFar(k', own && !MisfiresOn(k, c))
  {
    DoKeeps(k, c);
    DoOwn(k, k', c);
    OwnGrows(k, k');
  }

  lemma OwnGrows(k: Sock, k': Sock)
    requires Later(k, k') && Aligned(k) && Placed(Reports(k.events), k.tags) && Placed(ResentBy(k, k'), k'.tags)
    ensures Aligned(k') && Placed(Reports(k'.events), k'.tags)
    ensures Own(k') <==> Own(k) && OwnIn(ResentBy(k, k'), k'.tags)
  {
    assert Reports(k'.events) == Reports(k.events) + ResentBy(k, k');
    OwnThen(Reports(k.events), ResentBy(k, k'), k.tags, k'.tags);
  }

  /** Exactly the runs in which no mask misfires resend every packet under the number that was
      looked up. */
  lemma {:induction false} OwnOverRuns(k: Sock, k': Sock, calls: seq<Call>)
    requires Unresent(k) && k' == DoAll(k, calls) && forall c :: c in calls ==> Fits(c)
    ensures OwnSoFar(k', NeverMisfires(k, calls))
    decreases |calls|
  {
    if calls != [] {
      var init, last := calls[..|calls| - 1], calls[|calls| - 1];
      var k1 := DoAll(k, init);
      OwnOverRuns(k, k1, init);
      OwnStep(k1, k', last, NeverMisfires(k, init));
    }
  }

  /** Fast retransmit discipline over runs in which the peer acknowledges sent packets only and no
      mask misfires: the mark never moves back, and the packets that go out for fast resends, for
      selective acknowledgements and after timeouts together, strictly ascend in their unbounded
      numbers, below the mark. So none is resent fast twice. */
  lemma {:induction false} ResendsAscend(k: Sock, k': Sock, calls: seq<Call>)
    requires SenderInv(k) && Aligned(k) && k' == DoAll(k, calls) && forall c :: c in calls ==> Fits(c)
    requires HonestRun(k, calls) && NeverMisfires(k, calls)
    ensures SenderInv(k') && Climbs(k, k')
    decreases |calls|
  {
    if calls == [] {
      QuietClimbs(k, k);
    } else {
      var init, last := calls[..|calls| - 1], calls[|calls| - 1];
      var k1 := DoAll(k, init);
      ResendsAscend(k, k1, init);
      DoKeeps(k1, last);
      DoClimbs(k1, k', last);
      ClimbsThen(k, k1, k');
    }
  }

  /** The packets resent fast so far have strictly ascending numbers, all of them used. */
  ghost predicate NoneTwice(k: Sock) {
    var log := Reports(k.events);
    && Placed(log, k.tags)
    && (forall i :: 0 <= i < |log| ==> Seqno(k.tags, log[i]) < k.send.next)
    && (forall i, j :: 0 <= i < j < |log| ==> Seqno(k.tags, log[i]) < Seqno(k.tags, log[j]))
  }

  lemma ClimbsFromNothing(k: Sock, k': Sock)
    requires Climbs(k, k') && Reports(k.events) == []
    ensures NoneTwice(k')
  {
    MarkWraps(k');
    assert ResentBy(k, k') == Reports(k'.events);
  }

  /** From either way of opening a connection. */
  lemma NoPacketTwice(env: Env, seqNr: U16, peerSeq: U16, calls: seq<Call>)
    requires forall c :: c in calls ==> Fits(c)
    ensures var k := Connect(Fresh(), seqNr, env);
            HonestRun(k, calls) && NeverMisfires(k, calls) ==> NoneTwice(DoAll(k, calls))
    ensures var k := AcceptSyn(Fresh(), peerSeq, seqNr);
            HonestRun(k, calls) && NeverMisfires(k, calls) ==> NoneTwice(DoAll(k, calls))
  {
    ConservationOverRuns(env, seqNr, peerSeq, []);
    AscendFrom(Connect(Fresh(), seqNr, env), calls);
    AscendFrom(AcceptSyn(Fresh(), peerSeq, seqNr), calls);
  }

  lemma AscendFrom(k: Sock, calls: seq<Call>)
    requires Unresent(k) && forall c :: c in calls ==> Fits(c)
    ensures HonestRun(k, calls) && NeverMisfires(k, calls) ==> NoneTwice(DoAll(k, calls))
  {
    if HonestRun(k, calls) && NeverMisfires(k, calls) {
      ResendsAscend(k, DoAll(k, calls), calls);
      ClimbsFromNothing(k, DoAll(k, calls));
    }
  }
}
