/** The list of candidates of `selective_ack` has 128 entries and drops its older half when it is
    about to fill up. That changes nothing. */
module ResendList {
  import opened Serial
  import opened Protocol
  import opened Conservation
  import opened Sack
  import opened FastResending
  import Ring

  /** The same scan with a list that never drops anything. */
  function UncappedVisit(c: Scan, base: int, mask: Mask, bits: int, env: Env): Scan
    requires -1 <= bits < 8 * |mask|
  {
    SackVisit(c, base, mask, bits, env).(resends :=
      c.resends + if Lists(c, base, mask, bits) then [W(base + bits)] else [])
  }

  function UncappedScan(c: Scan, base: int, mask: Mask, bits: int, env: Env): Scan
    requires -2 <= bits < 8 * |mask|
    decreases bits + 2
  {
    if bits == -2 then c else UncappedScan(UncappedVisit(c, base, mask, bits, env), base, mask, bits - 1, env)
  }

  function UncappedSelectiveAck(k: Sock, base: int, mask: Mask, env: Env): Sock {
    if k.send.count == 0 then k else
    var c := UncappedScan(Scan(k, 0, []), base, mask, 8 * |mask| - 1, env);
    ResendLast(c.sock, SackCandidates(c, base), MAX_RESENDS)
  }

  /** `c` is `u` without the oldest candidates `dropped`; whenever some were dropped, 62 are left. */
  ghost predicate Capped(c: Scan, u: Scan, dropped: seq<U16>) {
    && u == c.(resends := u.resends) && u.resends == dropped + c.resends
    && |c.resends| <= MAX_EACK - 2
    && (dropped != [] ==> |c.resends| >= MAX_EACK / 2 - 2)
  }

  lemma CappedPush(resends: seq<U16>, dropped: seq<U16>, v: U16) returns (dropped': seq<U16>)
    requires |resends| <= MAX_EACK - 2 && (dropped != [] ==> |resends| >= MAX_EACK / 2 - 2)
    ensures dropped + resends + [v] == dropped' + PushResend(resends, v)
    ensures |PushResend(resends, v)| <= MAX_EACK - 2
    ensures dropped' != [] ==> |PushResend(resends, v)| >= MAX_EACK / 2 - 2
  {
    dropped' := if |resends| >= MAX_EACK - 2 then dropped + resends[..MAX_EACK / 2] else dropped;
  }

  /** The socket and the count of bits do not depend on the list. */
  lemma VisitIgnoresList(c: Scan, u: Scan, base: int, mask: Mask, bits: int, env: Env)
    requires -1 <= bits < 8 * |mask| && u == c.(resends := u.resends)
    ensures Lists(u, base, mask, bits) == Lists(c, base, mask, bits)
    ensures SackVisit(u, base, mask, bits, env).sock == SackVisit(c, base, mask, bits, env).sock
    ensures SackVisit(u, base, mask, bits, env).found == SackVisit(c, base, mask, bits, env).found
  {
  }

  lemma CappedVisit(c: Scan, u: Scan, base: int, mask: Mask, bits: int, env: Env, dropped: seq<U16>)
    returns (dropped': seq<U16>)
    requires -1 <= bits < 8 * |mask| && Capped(c, u, dropped)
    ensures Capped(SackVisit(c, base, mask, bits, env), UncappedVisit(u, base, mask, bits, env), dropped')
  {
    VisitIgnoresList(c, u, base, mask, bits, env);
    SackVisitIs(c, base, mask, bits, env);
    if Lists(c, base, mask, bits) {
      dropped' := CappedPush(c.resends, dropped, W(base + bits));
    } else {
      dropped' := dropped;
    }
  }

  /** Every listed packet is still in the window. */
  ghost predicate StillThere(c: Scan, base: int, bs: seq<int>, low: int) {
    && |c.resends| == |bs|
    && forall i :: 0 <= i < |bs| ==> Present(c.sock.send, base, bs[i], c.resends[i], low)
  }

  predicate Present(s: SendState, base: int, b: int, v: U16, low: int) {
    && low <= b <= 2040 && v == W(base + b) && s.count <= 1024
    && SackNumber(s, base, b).Some? && SackNumber(s, base, b).value in s.win
  }

  lemma PresentStays(c: Scan, base: int, mask: Mask, bits: int, env: Env, b: int, v: U16)
    requires -1 <= bits < 8 * |mask| && Present(c.sock.send, base, b, v, bits + 1)
    ensures Present(SackVisit(c, base, mask, bits, env).sock.send, base, b, v, bits)
  {
    var n := SackNumber(c.sock.send, base, b).value;
    if SackNumber(c.sock.send, base, bits).Some? {
      BitsDiffer(c.sock.send, base, bits, b);
    }
    VisitSpares(c, base, mask, bits, env, n);
    assert Ring.Lookup(c.sock.send.win, n).Some?;
  }

  lemma VisitStillThere(c: Scan, c': Scan, base: int, mask: Mask, bits: int, env: Env, bs: seq<int>)
    returns (bs': seq<int>)
    requires -1 <= bits < 8 * |mask| <= 2040 && StillThere(c, base, bs, bits + 1) && c.sock.send.count <= 1024
    requires c' == SackVisit(c, base, mask, bits, env)
    ensures StillThere(c', base, bs', bits)
  {
    SackVisitIs(c, base, mask, bits, env);
    forall i | 0 <= i < |bs|
      ensures Present(c'.sock.send, base, bs[i], c.resends[i], bits)
    {
      assert Present(c.sock.send, base, bs[i], c.resends[i], bits + 1);
      PresentStays(c, base, mask, bits, env, bs[i], c.resends[i]);
    }
    if Lists(c, base, mask, bits) {
      bs' := Pushed(bs, bits);
      assert Present(c'.sock.send, base, bits, W(base + bits), bits);
    } else {
      bs' := bs;
    }
  }

  lemma {:induction false} ScanStillThere(c: Scan, c': Scan, u: Scan, u': Scan, base: int, mask: Mask, bits: int,
                                          env: Env,
                                          bs: seq<int>, dropped: seq<U16>) returns (bs': seq<int>, dropped': seq<U16>)
    requires -2 <= bits < 8 * |mask| <= 2040 && StillThere(c, base, bs, bits + 1) && Capped(c, u, dropped)
    requires c.sock.send.count <= 1024
    requires c' == SackScan(c, base, mask, bits, env) && u' == UncappedScan(u, base, mask, bits, env)
    ensures StillThere(c', base, bs', -1) && Capped(c', u', dropped')
    decreases bits + 2
  {
    bs', dropped' := bs, dropped;
    if bits != -2 {
      var c1, u1 := SackVisit(c, base, mask, bits, env), UncappedVisit(u, base, mask, bits, env);
      bs' := VisitStillThere(c, c1, base, mask, bits, env, bs);
      dropped' := CappedVisit(c, u, base, mask, bits, env, dropped);
      bs', dropped' := ScanStillThere(c1, c', u1, u', base, mask, bits - 1, env, bs', dropped');
    }
  }

  /** The slot of every number of the list holds a packet. */
  ghost predicate AllLive(s: SendState, list: seq<U16>) {
    s.ringSize > 0 && forall i :: 0 <= i < |list| ==> Ring.Alias(list[i], Head(s), s.ringSize) in s.win
  }

  /** When a list has packets enough to spend the budget on, what stands before it is not
      reached. */
  lemma {:induction false} SuffixSuffices(k: Sock, dropped: seq<U16>, list: seq<U16>, budget: nat)
    requires AllLive(k.send, list) && budget <= |list|
    ensures ResendLast(k, dropped + list, budget) == ResendLast(k, list, budget)
    decreases budget
  {
    if budget != 0 {
      var v, rest := list[|list| - 1], list[..|list| - 1];
      var n := Ring.Alias(v, Head(k.send), k.send.ringSize);
      var k1 := ResendOne(k, v, n);
      assert dropped + list == (dropped + rest) + [v] && list == rest + [v];
      ResendStep(k, dropped + rest, v, budget, k1, true);
      ResendStep(k, rest, v, budget, k1, true);
      LiveAfter(k, k1, v, n, rest);
      SuffixSuffices(k1, dropped, rest, budget - 1);
    }
  }

  lemma LiveAfter(k: Sock, k1: Sock, v: U16, n: int, list: seq<U16>)
    requires AllLive(k.send, list) && n in k.send.win && k1 == ResendOne(k, v, n)
    ensures AllLive(k1.send, list)
  {
    assert k1.send.win.Keys == k.send.win.Keys;
  }

  lemma ThereIsLive(c: Scan, base: int, bs: seq<int>)
    requires StillThere(c, base, bs, -1) && SenderInv(c.sock)
    ensures AllLive(c.sock.send, c.resends)
  {
    forall i | 0 <= i < |c.resends|
      ensures Ring.Alias(c.resends[i], Head(c.sock.send), c.sock.send.ringSize) in c.sock.send.win
    {
      assert Present(c.sock.send, base, bs[i], c.resends[i], -1);
      AliasOfSackNumber(c.sock.send, base, bs[i], SackNumber(c.sock.send, base, bs[i]).value);
    }
  }

  lemma CandidatesSuffice(k: Sock, dropped: seq<U16>, list: seq<U16>, last: seq<U16>)
    requires AllLive(k.send, list) && |list| >= MAX_RESENDS && |last| <= 1
    ensures ResendLast(k, dropped + list + last, MAX_RESENDS) == ResendLast(k, list + last, MAX_RESENDS)
  {
    if last == [] {
      assert dropped + list + last == dropped + list && list + last == list;
      SuffixSuffices(k, dropped, list, MAX_RESENDS);
    } else {
      assert last == [last[0]];
      OneMoreSuffices(k, dropped, list, dropped + list, last[0]);
    }
  }

  /** What is resent after the last number `v` of a list. */
  function AfterLast(k: Sock, list: seq<U16>, v: U16): Sock
    requires k.send.ringSize > 0
  {
    var n := Ring.Alias(v, Head(k.send), k.send.ringSize);
    if n in k.send.win then ResendLast(ResendOne(k, v, n), list, MAX_RESENDS - 1) else ResendLast(k, list, MAX_RESENDS)
  }

  lemma LastThenRest(k: Sock, list: seq<U16>, v: U16)
    requires k.send.ringSize > 0
    ensures ResendLast(k, list + [v], MAX_RESENDS) == AfterLast(k, list, v)
  {
    var n := Ring.Alias(v, Head(k.send), k.send.ringSize);
    ResendStep(k, list, v, MAX_RESENDS, if n in k.send.win then ResendOne(k, v, n) else k, n in k.send.win);
  }

  lemma OneMoreSuffices(k: Sock, dropped: seq<U16>, list: seq<U16>, full: seq<U16>, v: U16)
    requires AllLive(k.send, list) && |list| >= MAX_RESENDS && full == dropped + list
    ensures ResendLast(k, full + [v], MAX_RESENDS) == ResendLast(k, list + [v], MAX_RESENDS)
  {
    LastThenRest(k, full, v);
    LastThenRest(k, list, v);
    SameAfterLast(k, dropped, list, full, v);
  }

  lemma SameAfterLast(k: Sock, dropped: seq<U16>, list: seq<U16>, full: seq<U16>, v: U16)
    requires AllLive(k.send, list) && |list| >= MAX_RESENDS && full == dropped + list
    ensures AfterLast(k, full, v) == AfterLast(k, list, v)
  {
    var n := Ring.Alias(v, Head(k.send), k.send.ringSize);
    if n in k.send.win {
      LiveAfter(k, ResendOne(k, v, n), v, n, list);
      SuffixSuffices(ResendOne(k, v, n), dropped, list, MAX_RESENDS - 1);
    } else {
      SuffixSuffices(k, dropped, list, MAX_RESENDS);
    }
  }

  /** Dropping the older half of the full list changes nothing: the packets resent are those the
      scan with an unbounded list resends. */
  lemma HalfShiftHarmless(k: Sock, base: int, mask: Mask, env: Env)
    requires SenderInv(k) && |mask| <= 255
    ensures SelectiveAck(k, base, mask, env) == UncappedSelectiveAck(k, base, mask, env)
  {
    if k.send.count != 0 {
      var top := 8 * |mask| - 1;
      var c := SackScan(Scan(k, 0, []), base, mask, top, env);
      var u := UncappedScan(Scan(k, 0, []), base, mask, top, env);
      var bs, dropped := ScanStillThere(Scan(k, 0, []), c, Scan(k, 0, []), u, base, mask, top, env, [], []);
      SackScanKeeps(Scan(k, 0, []), base, mask, top, env);
      CappedResends(c, u, base, bs, dropped);
    }
  }

  lemma CappedResends(c: Scan, u: Scan, base: int, bs: seq<int>, dropped: seq<U16>)
    requires StillThere(c, base, bs, -1) && Capped(c, u, dropped) && SenderInv(c.sock)
    ensures ResendLast(u.sock, SackCandidates(u, base), MAX_RESENDS)
         == ResendLast(c.sock, SackCandidates(c, base), MAX_RESENDS)
  {
    ThereIsLive(c, base, bs);
    var last := if Resendable(c.sock, base - 1, c.found) then [W(base - 1)] else [];
    assert SackCandidates(c, base) == c.resends + last;
    assert SackCandidates(u, base) == dropped + c.resends + last;
    if dropped != [] {
      CandidatesSuffice(c.sock, dropped, c.resends, last);
    } else {
      assert dropped + c.resends + last == c.resends + last;
    }
  }
}
