/** The base-delay filter: the least delay seen in the last thirteen minutes, on timestamps that
    wrap at 2^32 and drift. */
module DelayFilter {
  import opened Serial

  type U64 = n: int | 0 <= n < 0x1_0000_0000_0000_0000

  const CUR_DELAY_SIZE := 3
  const DELAY_BASE_HISTORY := 13
  const BUCKET_MS := 60 * 1000
  const HALF := 0x8000_0000

  /** A delay history as a value; `last` is where the previous delay was recorded. */
  datatype History = History(base: U32, hist: seq<U32>, idx: nat, cur: seq<U32>, curIdx: nat, time: U64, init: bool)

  predicate Shaped(h: History) {
    && |h.hist| == DELAY_BASE_HISTORY && h.idx < DELAY_BASE_HISTORY
    && |h.cur| == CUR_DELAY_SIZE && h.curIdx < CUR_DELAY_SIZE
  }

  predicate Less(a: U32, b: U32) {
    WrappingLess(a, b, MOD32)
  }

  function Lesser(a: U32, b: U32): U32 {
    if Less(a, b) then a else b
  }

  /** The walk over the entries that ends with the least one. */
  function LeastEntry(hist: seq<U32>, n: nat): U32
    requires 0 < |hist| && n <= |hist|
  {
    if n == 0 then hist[0] else Lesser(hist[n - 1], LeastEntry(hist, n - 1))
  }

  function FirstSample(h: History, sample: U32): History {
    if h.init then h
    else h.(hist := seq(DELAY_BASE_HISTORY, _ => sample), base := sample, init := true)
  }

  function Record(h: History, sample: U32): History
    requires Shaped(h)
  {
    var base := Lesser(sample, h.base);
    h.(hist := h.hist[h.idx := Lesser(sample, h.hist[h.idx])],
       base := base,
       cur := h.cur[h.curIdx := W32(sample - base)],
       curIdx := (h.curIdx + 1) % CUR_DELAY_SIZE)
  }

  predicate MinuteOver(time: U64, now: U64) {
    (now - time) % 0x1_0000_0000_0000_0000 > BUCKET_MS
  }

  function NextBucket(h: History, sample: U32, now: U64): History
    requires Shaped(h)
  {
    var idx := (h.idx + 1) % DELAY_BASE_HISTORY;
    var hist := h.hist[idx := sample];
    h.(time := now, idx := idx, hist := hist, base := LeastEntry(hist, DELAY_BASE_HISTORY))
  }

  function Added(h: History, sample: U32, now: U64): (h': History)
    requires Shaped(h)
    ensures Shaped(h') && h'.init
  {
    var h1 := Record(FirstSample(h, sample), sample);
    if MinuteOver(h1.time, now) then NextBucket(h1, sample, now) else h1
  }

  function Shifted(h: History, offset: U32): (h': History)
    requires Shaped(h)
    ensures Shaped(h')
  {
    h.(hist := seq(DELAY_BASE_HISTORY, i requires 0 <= i < DELAY_BASE_HISTORY => W32(h.hist[i] + offset)),
       base := W32(h.base + offset))
  }

  function Cleared(now: U64): History {
    History(0, seq(DELAY_BASE_HISTORY, _ => 0), 0, seq(CUR_DELAY_SIZE, _ => 0), 0, now, false)
  }

  class DelayHistory {
    var delayBase: U32
    const curDelayHist: array<U32>
    var curDelayIdx: nat
    const delayBaseHist: array<U32>
    var delayBaseIdx: nat
    var delayBaseTime: U64
    var delayBaseInitialized: bool

    ghost predicate Valid()
      reads this, curDelayHist, delayBaseHist
    {
      Shaped(State()) && curDelayHist != delayBaseHist
    }

    ghost function State(): History
      reads this, curDelayHist, delayBaseHist
    {
      History(delayBase, delayBaseHist[..], delayBaseIdx, curDelayHist[..], curDelayIdx, delayBaseTime,
              delayBaseInitialized)
    }

    constructor ()
      ensures Valid() && State() == Cleared(0) && fresh(curDelayHist) && fresh(delayBaseHist)
    {
      delayBase, curDelayIdx, delayBaseIdx, delayBaseTime, delayBaseInitialized := 0, 0, 0, 0, false;
      curDelayHist := new U32[CUR_DELAY_SIZE](_ => 0);
      delayBaseHist := new U32[DELAY_BASE_HISTORY](_ => 0);
    }

    method Clear(now: U64)
      requires Valid()
      modifies this, curDelayHist, delayBaseHist
      ensures Valid() && State() == Cleared(now)
    {
      delayBaseInitialized := false;
      delayBase, curDelayIdx, delayBaseIdx, delayBaseTime := 0, 0, 0, now;
      Fill(curDelayHist, 0);
      Fill(delayBaseHist, 0);
    }

    static method Fill(a: array<U32>, x: U32)
      modifies a
      ensures a[..] == seq(a.Length, _ => x)
    {
      for i := 0 to a.Length
        invariant forall j :: 0 <= j < i ==> a[j] == x
      {
        a[i] := x;
      }
    }

    /** Move every base delay, to follow a drifting clock. */
    method Shift(offset: U32)
      requires Valid()
      modifies this, delayBaseHist
      ensures Valid() && State() == Shifted(old(State()), offset)
    {
      for i := 0 to DELAY_BASE_HISTORY
        modifies delayBaseHist
        invariant forall j :: 0 <= j < DELAY_BASE_HISTORY ==>
          delayBaseHist[j] == if j < i then W32(old(delayBaseHist[j]) + offset) else old(delayBaseHist[j])
      {
        delayBaseHist[i] := W32(delayBaseHist[i] + offset);
      }
      delayBase := W32(delayBase + offset);
      assert delayBaseHist[..] == Shifted(old(State()), offset).hist;
    }

    method AddSample(sample: U32, now: U64)
      requires Valid()
      modifies this, curDelayHist, delayBaseHist
      ensures Valid() && State() == Added(old(State()), sample, now)
    {
      if !delayBaseInitialized {
        Fill(delayBaseHist, sample);
        delayBase := sample;
        delayBaseInitialized := true;
      }
      assert State() == FirstSample(old(State()), sample);
      RecordDelay(sample);
      if MinuteOver(delayBaseTime, now) {
        StartBucket(sample, now);
      }
    }

    method RecordDelay(sample: U32)
      requires Valid()
      modifies this, curDelayHist, delayBaseHist
      ensures Valid() && State() == Record(old(State()), sample)
    {
      if Less(sample, delayBaseHist[delayBaseIdx]) {
        delayBaseHist[delayBaseIdx] := sample;
      }
      if Less(sample, delayBase) {
        delayBase := sample;
      }
      curDelayHist[curDelayIdx] := W32(sample - delayBase);
      curDelayIdx := (curDelayIdx + 1) % CUR_DELAY_SIZE;
      assert delayBaseHist[..] == Record(old(State()), sample).hist;
    }

    /** Once a minute: the oldest entry makes room, and the base is taken afresh. */
    method StartBucket(sample: U32, now: U64)
      requires Valid()
      modifies this, delayBaseHist
      ensures Valid() && State() == NextBucket(old(State()), sample, now)
    {
      delayBaseTime := now;
      delayBaseIdx := (delayBaseIdx + 1) % DELAY_BASE_HISTORY;
      delayBaseHist[delayBaseIdx] := sample;
      ghost var hist := delayBaseHist[..];
      assert hist == NextBucket(old(State()), sample, now).hist;
      delayBase := delayBaseHist[0];
      for i := 0 to DELAY_BASE_HISTORY
        modifies this`delayBase
        invariant delayBaseHist[..] == hist && delayBase == LeastEntry(hist, i)
      {
        if Less(delayBaseHist[i], delayBase) {
          delayBase := delayBaseHist[i];
        }
      }
    }

    /** The least of the last three delays. */
    method GetValue() returns (value: U32)
      requires Valid()
      ensures forall j :: 0 <= j < CUR_DELAY_SIZE ==> value <= curDelayHist[j]
      ensures exists j :: 0 <= j < CUR_DELAY_SIZE && value == curDelayHist[j]
    {
      value := MOD32 - 1;
      for i := 0 to CUR_DELAY_SIZE
        invariant forall j :: 0 <= j < i ==> value <= curDelayHist[j]
        invariant i > 0 ==> exists j :: 0 <= j < i && value == curDelayHist[j]
        invariant i == 0 ==> value == MOD32 - 1
      {
        if curDelayHist[i] < value {
          value := curDelayHist[i];
        } else if i == 0 {
          assert curDelayHist[0] == value;
        }
      }
    }
  }

  // ---------------------------------------------------------------- what the filter computes

  /** The samples of one minute, as unbounded numbers. */
  type Bucket = seq<int>

  function Least(s: seq<int>): (low: int)
    requires s != []
    ensures low in s && forall x :: x in s ==> low <= x
  {
    if |s| == 1 then s[0]
    else
      var last := s[|s| - 1];
      assert s == s[..|s| - 1] + [last];
      var rest := Least(s[..|s| - 1]);
      if last < rest then last else rest
  }

  /** Every sample so far, minute by minute, the current minute last. */
  ghost predicate Filled(buckets: seq<Bucket>) {
    forall i :: 0 <= i < |buckets| ==> buckets[i] != []
  }

  /** Is `i` one of the last thirteen minutes? */
  predicate Live(buckets: seq<Bucket>, i: int) {
    0 <= i < |buckets| && i > |buckets| - 1 - DELAY_BASE_HISTORY
  }

  /** Every sample of the last thirteen minutes is less than half the range from `x`. */
  ghost predicate Near(buckets: seq<Bucket>, x: int) {
    forall i, y :: Live(buckets, i) && y in buckets[i] ==> -HALF < y - x < HALF
  }

  /** `low` is the least sample of the last thirteen minutes. */
  ghost predicate TrueMinimum(buckets: seq<Bucket>, low: int) {
    && (exists i :: Live(buckets, i) && low in buckets[i])
    && (forall i, y :: Live(buckets, i) && y in buckets[i] ==> low <= y)
  }

  /** The minute whose entry is in slot `j`, if it has come. */
  function MinuteOf(buckets: seq<Bucket>, j: nat): int {
    var n := |buckets| - 1;
    n - (n - j) % DELAY_BASE_HISTORY
  }

  function LowAt(buckets: seq<Bucket>, j: nat): int
    requires buckets != [] && Filled(buckets) && j < DELAY_BASE_HISTORY
  {
    var i := MinuteOf(buckets, j);
    if 0 <= i < |buckets| then Least(buckets[i]) else buckets[0][0]
  }

  /** What every slot holds, whichever minute it belongs to. */
  ghost predicate SlotsRight(hist: seq<U32>, buckets: seq<Bucket>) {
    && |hist| == DELAY_BASE_HISTORY && buckets != [] && Filled(buckets)
    && forall j :: 0 <= j < DELAY_BASE_HISTORY ==> hist[j] == W32(LowAt(buckets, j))
  }

  /** The filter has in its ring the least sample of each of those minutes, in slots not yet
      used the very first sample, and as its base the least of them all. */
  ghost predicate Tracks(h: History, buckets: seq<Bucket>, low: int) {
    && Shaped(h) && h.init && SlotsRight(h.hist, buckets)
    && h.idx == (|buckets| - 1) % DELAY_BASE_HISTORY
    && TrueMinimum(buckets, low) && h.base == W32(low)
  }

  lemma LesserIsLess(a: int, b: int)
    requires -HALF < b - a < HALF
    ensures Lesser(W32(a), W32(b)) == W32(if a < b then a else b)
  {
    WrappingLess32WithinHalf(a, b);
  }

  lemma LeastOfMore(s: seq<int>, x: int)
    requires s != []
    ensures Least(s + [x]) == if x < Least(s) then x else Least(s)
  {
    assert (s + [x])[..|s + [x]| - 1] == s;
  }

  /** A sample joins the current minute. */
  function Join(buckets: seq<Bucket>, x: int): seq<Bucket>
    requires buckets != []
  {
    buckets[|buckets| - 1 := buckets[|buckets| - 1] + [x]]
  }

  lemma RecordBase(h: History, buckets: seq<Bucket>, low: int, x: int)
    requires Tracks(h, buckets, low) && Near(buckets, x)
    ensures var low' := if x < low then x else low;
            Lesser(W32(x), h.base) == W32(low') && Record(h, W32(x)).cur[h.curIdx] == x - low' < HALF
  {
    var low' := if x < low then x else low;
    var i0 :| Live(buckets, i0) && low in buckets[i0];
    LesserIsLess(x, low);
    DelayIsDistance(x, low');
  }

  /** The sample changes what the current minute's slot should hold, and no other. */
  lemma JoinLow(buckets: seq<Bucket>, x: int, j: nat)
    requires buckets != [] && Filled(buckets) && j < DELAY_BASE_HISTORY
    ensures Filled(Join(buckets, x))
    ensures var n := |buckets| - 1;
            LowAt(Join(buckets, x), j) ==
              if j == n % DELAY_BASE_HISTORY && x < Least(buckets[n]) then x else LowAt(buckets, j)
    ensures LowAt(buckets, (|buckets| - 1) % DELAY_BASE_HISTORY) == Least(buckets[|buckets| - 1])
  {
    var n := |buckets| - 1;
    assert buckets[n] != [];
    LeastOfMore(buckets[n], x);
    MinuteOfSlot(buckets, j);
    MinuteIs(n, j);
    MinuteIs(n, n % DELAY_BASE_HISTORY);
  }

  lemma MinuteIs(n: nat, j: nat)
    requires j < DELAY_BASE_HISTORY
    ensures n - (n - j) % DELAY_BASE_HISTORY == n <==> j == n % DELAY_BASE_HISTORY
  {
  }

  lemma RecordSlots(h: History, h': History, buckets: seq<Bucket>, x: int)
    requires Shaped(h) && SlotsRight(h.hist, buckets) && h.idx == (|buckets| - 1) % DELAY_BASE_HISTORY
    requires Near(buckets, x) && h' == Record(h, W32(x))
    ensures SlotsRight(h'.hist, Join(buckets, x))
  {
    var n := |buckets| - 1;
    assert Live(buckets, n) && Least(buckets[n]) in buckets[n];
    LesserIsLess(x, Least(buckets[n]));
    JoinLow(buckets, x, h.idx);
    forall j | 0 <= j < DELAY_BASE_HISTORY
      ensures h'.hist[j] == W32(LowAt(Join(buckets, x), j))
    {
      JoinLow(buckets, x, j);
      assert h.hist[j] == W32(LowAt(buckets, j));
    }
  }

  lemma RecordTracks(h: History, h': History, buckets: seq<Bucket>, low: int, x: int) returns (low': int)
    requires Tracks(h, buckets, low) && Near(buckets, x) && h' == Record(h, W32(x))
    ensures Tracks(h', Join(buckets, x), low') && low' == if x < low then x else low
    ensures h'.cur[h.curIdx] == x - low' < HALF
  {
    low' := if x < low then x else low;
    RecordBase(h, buckets, low, x);
    JoinMinimum(buckets, low, x);
    RecordSlots(h, h', buckets, x);
  }

  lemma DelayIsDistance(x: int, low: int)
    requires 0 <= x - low < HALF
    ensures W32(W32(x) - W32(low)) == x - low
  {
  }

  lemma JoinMinimum(buckets: seq<Bucket>, low: int, x: int)
    requires buckets != [] && TrueMinimum(buckets, low)
    ensures TrueMinimum(Join(buckets, x), if x < low then x else low)
  {
    var n := |buckets| - 1;
    var buckets' := Join(buckets, x);
    var i0 :| Live(buckets, i0) && low in buckets[i0];
    assert Live(buckets', i0) && low in buckets'[i0];
    assert Live(buckets', n) && x in buckets'[n];
    forall i, y | Live(buckets', i) && y in buckets'[i]
      ensures (if x < low then x else low) <= y
    {
      assert Live(buckets, i);
      assert y in buckets[i] || y == x;
    }
  }

  // ---------------------------------------------------------------- a minute passes

  /** The least of the first `n` entries, by the numbers behind them. */
  ghost predicate LeastOf(lows: seq<int>, low: int) {
    low in lows && forall i :: 0 <= i < |lows| ==> low <= lows[i]
  }

  lemma {:induction false} LeastEntryIs(hist: seq<U32>, lows: seq<int>, n: nat) returns (low: int)
    requires 0 < n <= |hist| == |lows| && forall i :: 0 <= i < |hist| ==> hist[i] == W32(lows[i])
    requires forall i, j :: 0 <= i < |lows| && 0 <= j < |lows| ==> -HALF < lows[i] - lows[j] < HALF
    ensures LeastEntry(hist, n) == W32(low) && LeastOf(lows[..n], low)
  {
    if n == 1 {
      low := lows[0];
      LesserIsLess(low, low);
      assert LeastEntry(hist, 1) == Lesser(hist[0], LeastEntry(hist, 0));
      assert lows[..1] == [low];
    } else {
      var rest := LeastEntryIs(hist, lows, n - 1);
      var last := lows[n - 1];
      assert rest in lows;
      low := if last < rest then last else rest;
      LesserIsLess(last, rest);
      assert lows[..n] == lows[..n - 1] + [last];
    }
  }

  /** The numbers behind the thirteen entries. */
  function Lows(buckets: seq<Bucket>): seq<int>
    requires buckets != [] && Filled(buckets)
  {
    seq(DELAY_BASE_HISTORY, j requires 0 <= j < DELAY_BASE_HISTORY => LowAt(buckets, j))
  }

  lemma MinuteOfSlot(buckets: seq<Bucket>, j: nat)
    requires buckets != [] && j < DELAY_BASE_HISTORY
    ensures var i := MinuteOf(buckets, j);
            && i % DELAY_BASE_HISTORY == j && |buckets| - 1 - DELAY_BASE_HISTORY < i < |buckets|
            && (i < 0 ==> |buckets| <= j)
  {
  }

  lemma LiveIsMinuteOf(buckets: seq<Bucket>, i: int)
    requires Live(buckets, i)
    ensures MinuteOf(buckets, i % DELAY_BASE_HISTORY) == i
  {
  }

  /** A new minute starts with the sample and takes over the slot of the oldest. */
  lemma SlotsOfNext(hist: seq<U32>, buckets: seq<Bucket>, x: int)
    requires SlotsRight(hist, buckets)
    ensures SlotsRight(hist[|buckets| % DELAY_BASE_HISTORY := W32(x)], buckets + [[x]])
  {
    var buckets' := buckets + [[x]];
    forall j | 0 <= j < DELAY_BASE_HISTORY
      ensures hist[|buckets| % DELAY_BASE_HISTORY := W32(x)][j] == W32(LowAt(buckets', j))
    {
      NextMinuteOf(buckets, x, j);
      assert hist[j] == W32(LowAt(buckets, j));
    }
  }

  lemma NextMinuteOf(buckets: seq<Bucket>, x: int, j: nat)
    requires buckets != [] && j < DELAY_BASE_HISTORY
    ensures MinuteOf(buckets + [[x]], j)
         == if j == |buckets| % DELAY_BASE_HISTORY then |buckets| else MinuteOf(buckets, j)
  {
  }

  /** The least of the entries is the least sample of the last thirteen minutes. */
  lemma LeastOfLows(buckets: seq<Bucket>, low: int)
    requires buckets != [] && Filled(buckets) && LeastOf(Lows(buckets), low)
    ensures TrueMinimum(buckets, low)
  {
    var j :| 0 <= j < DELAY_BASE_HISTORY && Lows(buckets)[j] == low;
    MinuteOfSlot(buckets, j);
    var i := MinuteOf(buckets, j);
    if i >= 0 {
      assert Live(buckets, i) && low in buckets[i];
    } else {
      assert Live(buckets, 0) && low in buckets[0];
    }
    forall i', y | Live(buckets, i') && y in buckets[i']
      ensures low <= y
    {
      LiveIsMinuteOf(buckets, i');
      assert Lows(buckets)[i' % DELAY_BASE_HISTORY] == Least(buckets[i']);
    }
  }

  /** Samples of the last thirteen minutes span less than half the range. */
  ghost predicate Narrow(buckets: seq<Bucket>) {
    forall i, x :: Live(buckets, i) && x in buckets[i] ==> Near(buckets, x)
  }

  lemma LowIsLive(buckets: seq<Bucket>, j: nat) returns (i: int)
    requires buckets != [] && Filled(buckets) && j < DELAY_BASE_HISTORY
    ensures Live(buckets, i) && Lows(buckets)[j] in buckets[i]
  {
    MinuteOfSlot(buckets, j);
    i := MinuteOf(buckets, j);
    if i < 0 {
      i := 0;
    }
  }

  lemma NarrowLows(buckets: seq<Bucket>)
    requires buckets != [] && Filled(buckets) && Narrow(buckets)
    ensures forall i, j :: 0 <= i < DELAY_BASE_HISTORY && 0 <= j < DELAY_BASE_HISTORY ==>
              -HALF < Lows(buckets)[i] - Lows(buckets)[j] < HALF
  {
    forall i, j | 0 <= i < DELAY_BASE_HISTORY && 0 <= j < DELAY_BASE_HISTORY
      ensures -HALF < Lows(buckets)[i] - Lows(buckets)[j] < HALF
    {
      var bi := LowIsLive(buckets, i);
      var bj := LowIsLive(buckets, j);
      assert Near(buckets, Lows(buckets)[j]);
    }
  }

  lemma NextIndex(n: nat)
    requires n > 0
    ensures ((n - 1) % DELAY_BASE_HISTORY + 1) % DELAY_BASE_HISTORY == n % DELAY_BASE_HISTORY
  {
  }

  lemma FilledMore(buckets: seq<Bucket>, x: int)
    requires Filled(buckets)
    ensures Filled(buckets + [[x]])
  {
    forall i | 0 <= i <= |buckets|
      ensures (buckets + [[x]])[i] != []
    {
      assert i < |buckets| ==> (buckets + [[x]])[i] == buckets[i];
    }
  }

  lemma NextBucketTracks(h: History, h': History, buckets: seq<Bucket>, low: int, x: int, now: U64) returns (low': int)
    requires Tracks(h, buckets, low) && h' == NextBucket(h, W32(x), now) && Narrow(buckets + [[x]])
    ensures Tracks(h', buckets + [[x]], low')
  {
    var buckets' := buckets + [[x]];
    SlotsOfNext(h.hist, buckets, x);
    NextIndex(|buckets|);
    FilledMore(buckets, x);
    low' := LeastOfSlots(h'.hist, buckets');
  }

  lemma LeastOfSlots(hist: seq<U32>, buckets: seq<Bucket>) returns (low: int)
    requires SlotsRight(hist, buckets) && Narrow(buckets)
    ensures TrueMinimum(buckets, low) && LeastEntry(hist, DELAY_BASE_HISTORY) == W32(low)
  {
    NarrowLows(buckets);
    low := LeastEntryIs(hist, Lows(buckets), DELAY_BASE_HISTORY);
    assert Lows(buckets)[..DELAY_BASE_HISTORY] == Lows(buckets);
    LeastOfLows(buckets, low);
  }

  // ---------------------------------------------------------------- runs

  /** The operations; the samples and offsets are the true numbers behind the 32-bit ones. */
  datatype Op = Sample(x: int, now: U64) | Drift(offset: int)

  /** The reference: every sample kept, minute by minute. */
  datatype Reference = Reference(buckets: seq<Bucket>, time: U64)

  function Moved(s: seq<int>, offset: int): seq<int> {
    if s == [] then [] else Moved(s[..|s| - 1], offset) + [s[|s| - 1] + offset]
  }

  function MovedAll(buckets: seq<Bucket>, offset: int): seq<Bucket> {
    if buckets == [] then [] else MovedAll(buckets[..|buckets| - 1], offset) + [Moved(buckets[|buckets| - 1], offset)]
  }

  /** The sample on its own, or in the current minute. */
  function WithSample(buckets: seq<Bucket>, x: int): seq<Bucket> {
    if buckets == [] then [[x]] else Join(buckets, x)
  }

  function RefStep(r: Reference, op: Op): Reference {
    match op
    case Drift(offset) => r.(buckets := MovedAll(r.buckets, offset))
    case Sample(x, now) =>
      var buckets := WithSample(r.buckets, x);
      if MinuteOver(r.time, now) then Reference(buckets + [[x]], now) else r.(buckets := buckets)
  }

  function Step(h: History, op: Op): History
    requires Shaped(h)
  {
    match op
    case Sample(x, now) => Added(h, W32(x), now)
    case Drift(offset) => Shifted(h, W32(offset))
  }

  /** The live samples, the new one included, span less than half the range. */
  ghost predicate Fits(r: Reference, op: Op) {
    op.Sample? ==> Narrow(WithSample(r.buckets, op.x)) && Narrow(WithSample(r.buckets, op.x) + [[op.x]])
  }

  /** The filter before the first sample, or tracking every sample since. */
  ghost predicate Follows(h: History, r: Reference, low: int) {
    && Shaped(h) && h.time == r.time
    && (if r.buckets == [] then !h.init && h.idx == 0 else Tracks(h, r.buckets, low))
  }

  lemma {:induction false} MovedLeast(s: seq<int>, offset: int)
    ensures |Moved(s, offset)| == |s| && forall i :: 0 <= i < |s| ==> Moved(s, offset)[i] == s[i] + offset
    ensures s != [] ==> Least(Moved(s, offset)) == Least(s) + offset
  {
    if |s| > 1 {
      MovedLeast(s[..|s| - 1], offset);
      LeastOfMore(Moved(s[..|s| - 1], offset), s[|s| - 1] + offset);
    } else if |s| == 1 {
      assert s[..0] == [];
      assert Moved(s, offset) == [s[0] + offset];
    }
  }

  lemma {:induction false} MovedAt(buckets: seq<Bucket>, offset: int)
    ensures |MovedAll(buckets, offset)| == |buckets|
    ensures forall i :: 0 <= i < |buckets| ==> MovedAll(buckets, offset)[i] == Moved(buckets[i], offset)
  {
    if buckets != [] {
      MovedAt(buckets[..|buckets| - 1], offset);
    }
  }

  lemma ShiftedEntry(a: int, offset: int)
    ensures W32(W32(a) + W32(offset)) == W32(a + offset)
  {
  }

  lemma InMoved(s: seq<int>, offset: int, y: int)
    ensures y in Moved(s, offset) <==> y - offset in s
  {
    MovedLeast(s, offset);
    if y in Moved(s, offset) {
      var i :| 0 <= i < |s| && Moved(s, offset)[i] == y;
      assert s[i] == y - offset;
    }
    if y - offset in s {
      var i :| 0 <= i < |s| && s[i] == y - offset;
      assert Moved(s, offset)[i] == y;
    }
  }

  lemma MovedMinimum(buckets: seq<Bucket>, offset: int, low: int)
    requires TrueMinimum(buckets, low)
    ensures TrueMinimum(MovedAll(buckets, offset), low + offset)
  {
    MovedAt(buckets, offset);
    var buckets' := MovedAll(buckets, offset);
    var i0 :| Live(buckets, i0) && low in buckets[i0];
    InMoved(buckets[i0], offset, low + offset);
    assert Live(buckets', i0) && low + offset in buckets'[i0];
    forall i, y | Live(buckets', i) && y in buckets'[i]
      ensures low + offset <= y
    {
      assert Live(buckets, i);
      InMoved(buckets[i], offset, y);
    }
  }

  /** Following a drift moves every sample and the minimum alike. */
  lemma ShiftTracks(h: History, h': History, buckets: seq<Bucket>, low: int, offset: int)
    requires Tracks(h, buckets, low) && h' == Shifted(h, W32(offset))
    ensures Tracks(h', MovedAll(buckets, offset), low + offset)
  {
    MovedMinimum(buckets, offset, low);
    ShiftTracksTo(h, h', buckets, MovedAll(buckets, offset), low, offset);
  }

  lemma ShiftTracksTo(h: History, h': History, buckets: seq<Bucket>, buckets': seq<Bucket>, low: int, offset: int)
    requires Tracks(h, buckets, low) && h' == Shifted(h, W32(offset)) && buckets' == MovedAll(buckets, offset)
    requires TrueMinimum(buckets', low + offset)
    ensures Tracks(h', buckets', low + offset)
  {
    ShiftedEntry(low, offset);
    ShiftedSlots(h, h', buckets, buckets', offset);
    StillTracks(h', buckets', low + offset);
  }

  lemma ShiftedSlots(h: History, h': History, buckets: seq<Bucket>, buckets': seq<Bucket>, offset: int)
    requires Shaped(h) && SlotsRight(h.hist, buckets) && h' == Shifted(h, W32(offset))
    requires buckets' == MovedAll(buckets, offset)
    ensures SlotsRight(h'.hist, buckets') && |buckets'| == |buckets|
  {
    MovedFilled(buckets, offset);
    MovedAt(buckets, offset);
    ShiftedHist(h, h', offset);
    ShiftSlots(h.hist, h'.hist, buckets, buckets', offset);
  }

  lemma StillTracks(h: History, buckets: seq<Bucket>, low: int)
    requires Shaped(h) && h.init && SlotsRight(h.hist, buckets) && h.idx == (|buckets| - 1) % DELAY_BASE_HISTORY
    requires TrueMinimum(buckets, low) && h.base == W32(low)
    ensures Tracks(h, buckets, low)
  {
  }

  lemma ShiftedHist(h: History, h': History, offset: int)
    requires Shaped(h) && h' == Shifted(h, W32(offset))
    ensures |h'.hist| == |h.hist| && forall j :: 0 <= j < |h.hist| ==> h'.hist[j] == W32(h.hist[j] + W32(offset))
  {
  }

  lemma ShiftSlots(hist: seq<U32>, hist': seq<U32>, buckets: seq<Bucket>, buckets': seq<Bucket>, offset: int)
    requires SlotsRight(hist, buckets) && |hist'| == |hist|
    requires forall j :: 0 <= j < |hist| ==> hist'[j] == W32(hist[j] + W32(offset))
    requires |buckets'| == |buckets| && Filled(buckets')
    requires forall i :: 0 <= i < |buckets| ==> buckets'[i] == Moved(buckets[i], offset)
    ensures SlotsRight(hist', buckets')
  {
    forall j | 0 <= j < DELAY_BASE_HISTORY
      ensures hist'[j] == W32(LowAt(buckets', j))
    {
      LowAtMoved(buckets, buckets', offset, j);
      ShiftedEntry(LowAt(buckets, j), offset);
    }
  }

  lemma LowAtMoved(buckets: seq<Bucket>, buckets': seq<Bucket>, offset: int, j: nat)
    requires buckets != [] && Filled(buckets) && |buckets'| == |buckets| && Filled(buckets') && j < DELAY_BASE_HISTORY
    requires forall i :: 0 <= i < |buckets| ==> buckets'[i] == Moved(buckets[i], offset)
    ensures LowAt(buckets', j) == LowAt(buckets, j) + offset
  {
    MovedLow(buckets, buckets', offset, MinuteOf(buckets, j));
  }

  lemma MovedFilled(buckets: seq<Bucket>, offset: int)
    requires Filled(buckets)
    ensures |MovedAll(buckets, offset)| == |buckets| && Filled(MovedAll(buckets, offset))
  {
    MovedAt(buckets, offset);
    forall i | 0 <= i < |buckets|
      ensures MovedAll(buckets, offset)[i] != []
    {
      MovedLeast(buckets[i], offset);
    }
  }

  lemma MovedLow(buckets: seq<Bucket>, buckets': seq<Bucket>, offset: int, i: int)
    requires buckets != [] && Filled(buckets) && |buckets'| == |buckets| && Filled(buckets')
    requires forall i :: 0 <= i < |buckets| ==> buckets'[i] == Moved(buckets[i], offset)
    ensures 0 <= i < |buckets| ==> Least(buckets'[i]) == Least(buckets[i]) + offset
    ensures buckets'[0][0] == buckets[0][0] + offset
  {
    MovedLeast(buckets[0], offset);
    if 0 <= i < |buckets| {
      MovedLeast(buckets[i], offset);
    }
  }

  lemma FirstTracks(h: History, x: int)
    requires Shaped(h) && !h.init && h.idx == 0
    ensures Tracks(FirstSample(h, W32(x)), [[x]], x)
  {
    var buckets: seq<Bucket> := [[x]];
    assert Live(buckets, 0) && x in buckets[0];
    assert forall i, y :: Live(buckets, i) && y in buckets[i] ==> y == x;
    forall j | 0 <= j < DELAY_BASE_HISTORY
      ensures LowAt(buckets, j) == x
    {
      assert Least(buckets[0]) == x;
    }
  }

  /** A sample again where it is already the only one. */
  lemma RecordAgain(h: History, h': History, x: int)
    requires Tracks(h, [[x]], x) && h' == Record(h, W32(x))
    ensures Tracks(h', [[x]], x) && h'.cur[h.curIdx] == 0
  {
    LesserIsLess(x, x);
    assert h.hist[0] == W32(LowAt([[x]], 0));
    assert Least([[x]][0]) == x;
    assert h'.hist == h.hist;
  }

  /** The delay recorded for a sample is its distance from the least sample of the last thirteen
      minutes, itself included: never negative, always below 2^31. */
  lemma SampleRecorded(h: History, r: Reference, low: int, x: int) returns (h1: History, low': int)
    requires Follows(h, r, low) && Fits(r, Sample(x, 0))
    ensures h1 == Record(FirstSample(h, W32(x)), W32(x))
    ensures Tracks(h1, WithSample(r.buckets, x), low') && 0 <= x - low' < HALF
    ensures h1.cur[h.curIdx] == x - low'
  {
    h1 := Record(FirstSample(h, W32(x)), W32(x));
    if r.buckets == [] {
      low' := x;
      FirstTracks(h, x);
      RecordAgain(FirstSample(h, W32(x)), h1, x);
    } else {
      NearOfNarrow(r.buckets, x);
      low' := RecordTracks(h, h1, r.buckets, low, x);
    }
  }

  lemma NearOfNarrow(buckets: seq<Bucket>, x: int)
    requires buckets != [] && Narrow(Join(buckets, x))
    ensures Near(buckets, x)
  {
    var n := |buckets| - 1;
    var buckets' := Join(buckets, x);
    assert Live(buckets', n) && x in buckets'[n];
    assert Near(buckets', x);
    forall i, y | Live(buckets, i) && y in buckets[i]
      ensures -HALF < y - x < HALF
    {
      assert Live(buckets', i) && y in buckets'[i];
    }
  }

  lemma SampleFollows(h: History, h': History, r: Reference, r': Reference, low: int, x: int, now: U64)
    returns (low': int)
    requires Follows(h, r, low) && Fits(r, Sample(x, now))
    requires h' == Added(h, W32(x), now) && r' == RefStep(r, Sample(x, now))
    ensures Follows(h', r', low')
  {
    var h1;
    h1, low' := SampleRecorded(h, r, low, x);
    if MinuteOver(r.time, now) {
      low' := NextBucketTracks(h1, h', WithSample(r.buckets, x), low', x, now);
    }
  }

  lemma DriftFollows(h: History, h': History, r: Reference, r': Reference, low: int, offset: int)
    requires Follows(h, r, low) && h' == Shifted(h, W32(offset)) && r' == RefStep(r, Drift(offset))
    ensures Follows(h', r', low + offset)
  {
    MovedAt(r.buckets, offset);
    if r.buckets != [] {
      ShiftTracks(h, h', r.buckets, low, offset);
    }
  }

  lemma StepFollows(h: History, h': History, r: Reference, r': Reference, low: int, op: Op) returns (low': int)
    requires Follows(h, r, low) && Fits(r, op) && h' == Step(h, op) && r' == RefStep(r, op)
    ensures Follows(h', r', low')
  {
    match op {
      case Drift(offset) =>
        DriftFollows(h, h', r, r', low, offset);
        low' := low + offset;
      case Sample(x, now) => low' := SampleFollows(h, h', r, r', low, x, now);
    }
  }

  function RunFilter(now: U64, ops: seq<Op>): (h: History)
    ensures Shaped(h)
    decreases |ops|
  {
    if ops == [] then Cleared(now) else Step(RunFilter(now, ops[..|ops| - 1]), ops[|ops| - 1])
  }

  function RunReference(now: U64, ops: seq<Op>): Reference
    decreases |ops|
  {
    if ops == [] then Reference([], now) else RefStep(RunReference(now, ops[..|ops| - 1]), ops[|ops| - 1])
  }

  ghost predicate FittingRun(now: U64, ops: seq<Op>)
    decreases |ops|
  {
    ops == [] ||
    (FittingRun(now, ops[..|ops| - 1]) && Fits(RunReference(now, ops[..|ops| - 1]), ops[|ops| - 1]))
  }

  lemma {:induction false} RunFollows(now: U64, ops: seq<Op>) returns (low: int)
    requires FittingRun(now, ops)
    ensures Follows(RunFilter(now, ops), RunReference(now, ops), low)
    decreases |ops|
  {
    if ops == [] {
      low := 0;
    } else {
      var init := ops[..|ops| - 1];
      low := RunFollows(now, init);
      low := StepFollows(RunFilter(now, init), RunFilter(now, ops), RunReference(now, init), RunReference(now, ops),
        low, ops[|ops| - 1]);
    }
  }

  /** The windowed minimum: after any run in which the samples of the last thirteen minutes span
      less than 2^31, the base delay is the true minimum of all of them, each moved by the drifts
      since it came, and so is the least entry of the ring. */
  lemma BaseIsTrueMinimum(now: U64, ops: seq<Op>) returns (low: int)
    requires FittingRun(now, ops)
    ensures var h, r := RunFilter(now, ops), RunReference(now, ops);
            r.buckets != [] ==> TrueMinimum(r.buckets, low) && h.base == W32(low)
  {
    low := RunFollows(now, ops);
  }

  /** And the delay recorded for the next sample is its distance from that minimum. */
  lemma DelayIsNotNegative(now: U64, ops: seq<Op>, x: int, at: U64) returns (low: int)
    requires FittingRun(now, ops + [Sample(x, at)])
    ensures var h := RunFilter(now, ops);
            && TrueMinimum(WithSample(RunReference(now, ops).buckets, x), low)
            && RunFilter(now, ops + [Sample(x, at)]).cur[h.curIdx] == x - low
            && 0 <= x - low < HALF
  {
    assert (ops + [Sample(x, at)])[..|ops + [Sample(x, at)]| - 1] == ops;
    var low0 := RunFollows(now, ops);
    var h1;
    h1, low := SampleRecorded(RunFilter(now, ops), RunReference(now, ops), low0, x);
  }
}
