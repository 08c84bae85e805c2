/** How LEDBAT moves the congestion window (section 2.4.2 of RFC 6817), with reals for doubles. */
module Ledbat {
  import opened Serial

  const MAX_CWND_INCREASE_BYTES_PER_RTT := 3000
  const MIN_WINDOW_SIZE := 10
  const CCONTROL_TARGET := 100_000
  const RATE_LIMITED_MS := 1000

  /** The part of the controller that the window's growth depends on. */
  datatype Control = Control(maxWindow: nat, slowStart: bool, ssthresh: nat, clockDrift: int, lastMaxedOutWindow: int)

  /** One acknowledgement: `histValue` is the filtered delay, `minRtt` the least round trip of
      the packets it covers, both in microseconds. */
  datatype Ack = Ack(bytes: nat, histValue: U32, minRtt: nat, now: int, targetDelay: int, packetSize: nat,
                     casts: Casts)

  /** What the platform makes of the conversion of a negative double to an unsigned integer, for which
      C++ promises nothing: whether the window plus the converted gain is below the minimum, and the
      value of the converted sum. */
  datatype Casts = Casts(belowMinimum: bool, sum: nat)

  function Target(a: Ack): int {
    if a.targetDelay <= 0 then CCONTROL_TARGET else a.targetDelay
  }

  /** A clock that runs away is charged as delay. */
  function Penalty(clockDrift: int): nat {
    if clockDrift < -200_000 then (-clockDrift - 200_000) / 7 else 0
  }

  function Least(a: nat, b: nat): nat {
    if a <= b then a else b
  }

  function Most(a: nat, b: nat): nat {
    if a >= b then a else b
  }

  function OurDelay(c: Control, a: Ack): nat {
    Least(a.histValue, W32(a.minRtt)) + Penalty(c.clockDrift)
  }

  /** The share of the window this acknowledgement represents. */
  function WindowFactor(maxWindow: nat, bytes: nat): real
    requires bytes > 0
  {
    Least(bytes, maxWindow) as real / Most(maxWindow, bytes) as real
  }

  /** How far below the target the delay is, as a share of the target. */
  function DelayFactor(target: int, ourDelay: int): real
    requires target > 0
  {
    (target - ourDelay) as real / target as real
  }

  function Gain(windowFactor: real, delayFactor: real): real {
    MAX_CWND_INCREASE_BYTES_PER_RTT as real * windowFactor * delayFactor
  }

  /** A sender that has not filled its window for a second is limited by its own rate. */
  function Limited(gain: real, now: int, lastMaxedOutWindow: int): real {
    if gain > 0.0 && now - lastMaxedOutWindow > RATE_LIMITED_MS then 0.0 else gain
  }

  function ScaledGain(c: Control, a: Ack): real
    requires a.bytes > 0
  {
    Limited(Gain(WindowFactor(c.maxWindow, a.bytes), DelayFactor(Target(a), OurDelay(c, a))), a.now,
            c.lastMaxedOutWindow)
  }

  /** Conversion truncates, and is defined for what truncates to an unsigned integer. */
  predicate Convertible(x: real) {
    x > -1.0
  }

  function Truncated(x: real): nat
    requires Convertible(x)
  {
    if x < 0.0 then 0 else x.Floor
  }

  function Grown(maxWindow: nat, gain: real, casts: Casts): nat {
    var low := if Convertible(gain) then maxWindow + Truncated(gain) < MIN_WINDOW_SIZE else casts.belowMinimum;
    if low then MIN_WINDOW_SIZE
    else if Convertible(maxWindow as real + gain) then Truncated(maxWindow as real + gain)
    else casts.sum
  }

  /** The slow start's step: the acknowledged share of a packet. */
  function Started(maxWindow: nat, windowFactor: real, packetSize: nat): nat
    requires 0.0 <= windowFactor
  {
    ProductMonotone(packetSize as real, 0.0, windowFactor);
    maxWindow + (windowFactor * packetSize as real).Floor
  }

  /** Nine tenths of the target end the slow start. */
  predicate NearTarget(ourDelay: int, target: int) {
    ourDelay > (target as real * 0.9).Floor
  }

  function Clamp(x: nat, lo: nat, hi: nat): nat {
    if x < lo then lo else if x > hi then hi else x
  }

  class LedbatController {
    var maxWindow: nat
    var slowStart: bool
    var ssthresh: nat
    var clockDrift: int
    var lastMaxedOutWindow: int

    ghost function State(): Control
      reads this
    {
      Control(maxWindow, slowStart, ssthresh, clockDrift, lastMaxedOutWindow)
    }

    constructor (window: nat, threshold: nat)
      ensures State() == Control(window, true, threshold, 0, 0)
    {
      maxWindow, slowStart, ssthresh, clockDrift, lastMaxedOutWindow := window, true, threshold, 0, 0;
    }

    method ApplyCControl(a: Ack, optSndbuf: nat) returns (ourDelay: nat)
      requires a.bytes > 0 && optSndbuf >= MIN_WINDOW_SIZE
      modifies this
      ensures ourDelay == OurDelay(old(State()), a)
      ensures State() == Applied(old(State()), a, optSndbuf)
    {
      ourDelay := Least(a.histValue, W32(a.minRtt));
      var target := a.targetDelay;
      if target <= 0 {
        target := CCONTROL_TARGET;
      }
      if clockDrift < -200_000 {
        ourDelay := ourDelay + (-clockDrift - 200_000) / 7;
      }
      var windowFactor := WindowFactor(maxWindow, a.bytes);
      FactorInRange(maxWindow, a.bytes);
      var scaledGain := Limited(Gain(windowFactor, DelayFactor(target, ourDelay)), a.now, lastMaxedOutWindow);
      var ledbatCwnd := Grown(maxWindow, scaledGain, a.casts);
      if slowStart {
        var ssCwnd := Started(maxWindow, windowFactor, a.packetSize);
        if ssCwnd > ssthresh {
          slowStart := false;
        } else if NearTarget(ourDelay, target) {
          slowStart := false;
          ssthresh := maxWindow;
        } else {
          maxWindow := Most(ssCwnd, ledbatCwnd);
        }
      } else {
        maxWindow := ledbatCwnd;
      }
      maxWindow := Clamp(maxWindow, MIN_WINDOW_SIZE, optSndbuf);
    }
  }

  /** What one acknowledgement does to the controller. */
  function Applied(c: Control, a: Ack, optSndbuf: nat): Control
    requires a.bytes > 0
  {
    FactorInRange(c.maxWindow, a.bytes);
    var ledbatCwnd := Grown(c.maxWindow, ScaledGain(c, a), a.casts);
    var ssCwnd := Started(c.maxWindow, WindowFactor(c.maxWindow, a.bytes), a.packetSize);
    var grown :=
      if !c.slowStart then c.(maxWindow := ledbatCwnd)
      else if ssCwnd > c.ssthresh then c.(slowStart := false)
      else if NearTarget(OurDelay(c, a), Target(a)) then c.(slowStart := false, ssthresh := c.maxWindow)
      else c.(maxWindow := Most(ssCwnd, ledbatCwnd));
    grown.(maxWindow := Clamp(grown.maxWindow, MIN_WINDOW_SIZE, optSndbuf))
  }

  lemma RatioInRange(x: real, y: real)
    requires 0.0 <= x <= y && y > 0.0
    ensures 0.0 <= x / y <= 1.0 && (x / y) * y == x
  {
  }

  lemma ProductMonotone(x: real, y: real, y': real)
    requires 0.0 <= x && 0.0 <= y <= y'
    ensures 0.0 <= x * y <= x * y'
  {
  }

  lemma FactorInRange(maxWindow: nat, bytes: nat)
    requires bytes > 0
    ensures 0.0 <= WindowFactor(maxWindow, bytes) <= 1.0
  {
    RatioInRange(Least(bytes, maxWindow) as real, Most(maxWindow, bytes) as real);
  }

  lemma DelayFactorInRange(target: int, ourDelay: int)
    requires 0 <= ourDelay <= target && target > 0
    ensures 0.0 <= DelayFactor(target, ourDelay) <= 1.0
  {
    RatioInRange((target - ourDelay) as real, target as real);
  }

  lemma GainBetween(windowFactor: real, delayFactor: real)
    requires 0.0 <= windowFactor && 0.0 <= delayFactor <= 1.0
    ensures 0.0 <= Gain(windowFactor, delayFactor) <= MAX_CWND_INCREASE_BYTES_PER_RTT as real * windowFactor
  {
    var share := MAX_CWND_INCREASE_BYTES_PER_RTT as real * windowFactor;
    ProductMonotone(share, delayFactor, 1.0);
    ProductMonotone(share, 0.0, delayFactor);
    assert share * 1.0 == share;
  }

  /** Up to the target the gain lies between nothing and 3,000 bytes for a whole window. */
  lemma GainInRange(c: Control, a: Ack)
    requires a.bytes > 0 && OurDelay(c, a) <= Target(a)
    ensures 0.0 <= ScaledGain(c, a) <= MAX_CWND_INCREASE_BYTES_PER_RTT as real * WindowFactor(c.maxWindow, a.bytes)
    ensures 0.0 <= WindowFactor(c.maxWindow, a.bytes) <= 1.0
  {
    FactorInRange(c.maxWindow, a.bytes);
    DelayFactorInRange(Target(a), OurDelay(c, a));
    GainBetween(WindowFactor(c.maxWindow, a.bytes), DelayFactor(Target(a), OurDelay(c, a)));
  }

  // ---------------------------------------------------------------- growth over a window of acknowledgements

  function AckedBytes(acks: seq<Ack>): nat {
    if acks == [] then 0 else AckedBytes(acks[..|acks| - 1]) + acks[|acks| - 1].bytes
  }

  /** Every acknowledgement arrives with the delay at most at its target. */
  ghost predicate BelowTarget(c: Control, acks: seq<Ack>) {
    forall i :: 0 <= i < |acks| ==> acks[i].bytes > 0 && OurDelay(c, acks[i]) <= Target(acks[i])
  }

  function ApplyAll(c: Control, acks: seq<Ack>, optSndbuf: nat): (c': Control)
    requires BelowTarget(c, acks)
    ensures c'.clockDrift == c.clockDrift && (!c.slowStart ==> !c'.slowStart)
    decreases |acks|
  {
    if acks == [] then c
    else
      var before := ApplyAll(c, acks[..|acks| - 1], optSndbuf);
      SameDelay(c, before, acks[|acks| - 1]);
      Applied(before, acks[|acks| - 1], optSndbuf)
  }

  lemma SameDelay(c: Control, c': Control, a: Ack)
    requires c'.clockDrift == c.clockDrift
    ensures OurDelay(c', a) == OurDelay(c, a)
  {
  }

  /** One acknowledgement of at most the window: the window does not shrink, and what it grows
      by, times the window, is at most 3,000 times the bytes acknowledged. */
  lemma OneAckGrows(c: Control, c': Control, a: Ack, optSndbuf: nat)
    requires !c.slowStart && 0 < a.bytes <= c.maxWindow && OurDelay(c, a) <= Target(a)
    requires MIN_WINDOW_SIZE <= c.maxWindow <= optSndbuf && c' == Applied(c, a, optSndbuf)
    ensures c.maxWindow <= c'.maxWindow <= optSndbuf
    ensures (c'.maxWindow - c.maxWindow) * c.maxWindow <= MAX_CWND_INCREASE_BYTES_PER_RTT * a.bytes
  {
    GainInRange(c, a);
    GrownAtMost(c.maxWindow, ScaledGain(c, a), a.casts, c'.maxWindow, optSndbuf);
    GainTimesWindow(c'.maxWindow - c.maxWindow, c.maxWindow, a.bytes, ScaledGain(c, a));
  }

  lemma GrownAtMost(w: nat, gain: real, casts: Casts, w': nat, optSndbuf: nat)
    requires gain >= 0.0 && MIN_WINDOW_SIZE <= w <= optSndbuf
    requires w' == Clamp(Grown(w, gain, casts), MIN_WINDOW_SIZE, optSndbuf)
    ensures w <= w' <= optSndbuf && (w' - w) as real <= gain
  {
  }

  lemma GainTimesWindow(grow: nat, w: nat, bytes: nat, gain: real)
    requires 0 < bytes <= w && grow as real <= gain <= 3000.0 * WindowFactor(w, bytes)
    ensures grow * w <= 3000 * bytes
  {
    var factor := WindowFactor(w, bytes);
    RatioInRange(bytes as real, w as real);
    ProductMonotone(w as real, grow as real, 3000.0 * factor);
    assert w as real * (3000.0 * factor) == 3000.0 * (factor * w as real);
    ToIntegers(grow, w, bytes);
  }

  lemma ToIntegers(grow: nat, w: nat, bytes: nat)
    requires w as real * grow as real <= 3000.0 * bytes as real
    ensures grow * w <= 3000 * bytes
  {
    assert (grow * w) as real == w as real * grow as real;
    assert (3000 * bytes) as real == 3000.0 * bytes as real;
  }

  lemma LargerWindow(grow: nat, w0: nat, w: nat, bytes: nat)
    requires w0 <= w && grow * w <= 3000 * bytes
    ensures grow * w0 <= 3000 * bytes
  {
    assert grow * w0 <= grow * w;
  }

  /** The growth cap: while at most one initial window is acknowledged, the window never
      shrinks and grows by at most 3,000 bytes in all, in proportion to what was acknowledged. */
  lemma {:induction false} GrowthIsCapped(c: Control, c': Control, acks: seq<Ack>, optSndbuf: nat)
    requires !c.slowStart && MIN_WINDOW_SIZE <= c.maxWindow <= optSndbuf
    requires BelowTarget(c, acks) && AckedBytes(acks) <= c.maxWindow && c' == ApplyAll(c, acks, optSndbuf)
    ensures c.maxWindow <= c'.maxWindow <= optSndbuf
    ensures (c'.maxWindow - c.maxWindow) * c.maxWindow <= MAX_CWND_INCREASE_BYTES_PER_RTT * AckedBytes(acks)
    ensures c'.maxWindow <= c.maxWindow + MAX_CWND_INCREASE_BYTES_PER_RTT
    decreases |acks|
  {
    if acks != [] {
      var init, last := acks[..|acks| - 1], acks[|acks| - 1];
      var c1 := ApplyAll(c, init, optSndbuf);
      GrowthIsCapped(c, c1, init, optSndbuf);
      SameDelay(c, c1, last);
      OneAckGrows(c1, c', last, optSndbuf);
      LargerWindow(c'.maxWindow - c1.maxWindow, c.maxWindow, c1.maxWindow, last.bytes);
      SumOfGrowths(c'.maxWindow - c1.maxWindow, c1.maxWindow - c.maxWindow, c.maxWindow, last.bytes, AckedBytes(init));
    }
    AtMostCap(c'.maxWindow - c.maxWindow, c.maxWindow, AckedBytes(acks));
  }

  lemma SumOfGrowths(grow1: nat, grow2: nat, w: nat, bytes1: nat, bytes2: nat)
    requires grow1 * w <= 3000 * bytes1 && grow2 * w <= 3000 * bytes2
    ensures (grow1 + grow2) * w <= 3000 * (bytes1 + bytes2)
  {
    assert (grow1 + grow2) * w == grow1 * w + grow2 * w;
  }

  lemma AtMostCap(grow: nat, w: nat, bytes: nat)
    requires w > 0 && bytes <= w && grow * w <= 3000 * bytes
    ensures grow <= 3000
  {
    TooMuch(grow, w);
  }

  lemma TooMuch(grow: nat, w: nat)
    ensures grow >= 3001 ==> grow * w >= 3001 * w
  {
  }

  // ---------------------------------------------------------------- how much, exactly

  lemma FloorOfQuotient(n: nat, d: nat)
    requires d > 0
    ensures (n as real / d as real).Floor == n / d
  {
    var q := n / d;
    QuotientBetween(n, d, q);
    assert q as real <= n as real / d as real < (q + 1) as real;
  }

  lemma QuotientBetween(n: nat, d: nat, q: nat)
    requires d > 0 && q == n / d
    ensures q as real <= n as real / d as real < (q + 1) as real
  {
    assert q * d <= n < (q + 1) * d;
    assert (q * d) as real == q as real * d as real && ((q + 1) * d) as real == (q + 1) as real * d as real;
    LeQuotient(q as real, n as real, d as real);
    LessQuotient(n as real, (q + 1) as real, d as real);
  }

  lemma LeQuotient(q: real, n: real, d: real)
    requires d > 0.0 && q * d <= n
    ensures q <= n / d
  {
    assert (n / d) * d == n;
    Cancel(q, n / d, d);
  }

  lemma LessQuotient(n: real, q: real, d: real)
    requires d > 0.0 && n < q * d
    ensures n / d < q
  {
    assert (n / d) * d == n;
    Cancel(q, n / d, d);
  }

  lemma Cancel(x: real, y: real, d: real)
    requires d > 0.0
    ensures x * d <= y * d <==> x <= y
  {
    assert (x - y) * d == x * d - y * d;
  }

  lemma ProductOfQuotients(x: real, a: real, b: real, c: real, d: real)
    requires b > 0.0 && d > 0.0
    ensures b * d > 0.0 && x * (a / b) * (c / d) == x * a * c / (b * d)
  {
  }

  /** Of 3,000 bytes, the share `bytes` of `window` times the share `left` of `target`. */
  function ShareOfCap(bytes: nat, window: nat, left: nat, target: nat): nat
    requires window > 0 && target > 0
  {
    MulPositive(window, target);
    3000 * bytes * left / (window * target)
  }

  lemma MulPositive(x: nat, y: nat)
    requires x > 0 && y > 0
    ensures x * y > 0
  {
  }

  lemma RatiosOfIntegers(bytes: nat, window: nat, left: nat, target: nat, x: real)
    requires window > 0 && target > 0
    requires x == 3000.0 * (bytes as real / window as real) * (left as real / target as real)
    ensures x.Floor == ShareOfCap(bytes, window, left, target)
  {
    MulPositive(window, target);
    var n, d := 3000.0 * bytes as real * left as real, window as real * target as real;
    ProductOfQuotients(3000.0, bytes as real, window as real, left as real, target as real);
    IntegersBehind(bytes, window, left, target, n, d);
    FloorOfIntegers(x, n, d, 3000 * bytes * left, window * target);
  }

  lemma FloorOfIntegers(x: real, n: real, d: real, n': nat, d': nat)
    requires d' > 0 && n == n' as real && d == d' as real && x == n / d
    ensures x.Floor == n' / d'
  {
    FloorOfQuotient(n', d');
  }

  lemma IntegersBehind(bytes: nat, window: nat, left: nat, target: nat, n: real, d: real)
    requires n == 3000.0 * bytes as real * left as real && d == window as real * target as real
    ensures n == (3000 * bytes * left) as real && d == (window * target) as real
  {
    AsProduct(3000, bytes);
    AsProduct(3000 * bytes, left);
    AsProduct(window, target);
  }

  lemma AsProduct(x: nat, y: nat)
    ensures (x * y) as real == x as real * y as real
  {
  }

  /** What an acknowledgement adds to the window when the sender has filled it within the last second. */
  function FullGain(c: Control, a: Ack): nat
    requires a.bytes > 0 && OurDelay(c, a) <= Target(a)
  {
    ShareOfCap(Least(a.bytes, c.maxWindow), Most(c.maxWindow, a.bytes), Target(a) - OurDelay(c, a), Target(a))
  }

  lemma GainIsFull(c: Control, a: Ack)
    requires a.bytes > 0 && OurDelay(c, a) <= Target(a)
    ensures Gain(WindowFactor(c.maxWindow, a.bytes), DelayFactor(Target(a), OurDelay(c, a))).Floor == FullGain(c, a)
  {
    var gain := Gain(WindowFactor(c.maxWindow, a.bytes), DelayFactor(Target(a), OurDelay(c, a)));
    var left := Target(a) - OurDelay(c, a);
    RatiosOfIntegers(Least(a.bytes, c.maxWindow), Most(c.maxWindow, a.bytes), left, Target(a), gain);
  }

  /** Has the sender not filled its window for a second? */
  predicate RateLimited(c: Control, a: Ack) {
    a.now - c.lastMaxedOutWindow > RATE_LIMITED_MS
  }

  lemma LimitedFloor(c: Control, a: Ack)
    requires a.bytes > 0 && OurDelay(c, a) <= Target(a)
    ensures ScaledGain(c, a).Floor == if RateLimited(c, a) then 0 else FullGain(c, a)
  {
    GainIsFull(c, a);
    FactorInRange(c.maxWindow, a.bytes);
    DelayFactorInRange(Target(a), OurDelay(c, a));
    GainBetween(WindowFactor(c.maxWindow, a.bytes), DelayFactor(Target(a), OurDelay(c, a)));
  }

  lemma WholeSum(w: nat, gain: real)
    requires gain >= 0.0
    ensures (w as real + gain).Floor == w + gain.Floor
  {
  }

  /** LEDBAT's law in whole numbers: after slow start, while the delay is at most the target, each
      acknowledgement adds to the window the share of 3,000 bytes that it is of the window, times
      what the delay leaves of the target; nothing when the sender limits itself. */
  lemma GrowthExactly(c: Control, c': Control, a: Ack, optSndbuf: nat)
    requires !c.slowStart && a.bytes > 0 && OurDelay(c, a) <= Target(a) && optSndbuf >= MIN_WINDOW_SIZE
    requires c' == Applied(c, a, optSndbuf)
    ensures c'.maxWindow == Clamp(c.maxWindow + if RateLimited(c, a) then 0 else FullGain(c, a),
                                  MIN_WINDOW_SIZE, optSndbuf)
  {
    GainIsFull(c, a);
    GainInRange(c, a);
    LimitedFloor(c, a);
    WholeSum(c.maxWindow, ScaledGain(c, a));
  }

  /** So at the target the window does not grow; with no delay at all, when a whole window is
      acknowledged, it grows by the full 3,000 bytes; and a sender that limits itself gains nothing. */
  lemma GrowthAtTheEnds(c: Control, c': Control, a: Ack, optSndbuf: nat)
    requires !c.slowStart && a.bytes > 0 && OurDelay(c, a) <= Target(a) && c' == Applied(c, a, optSndbuf)
    requires MIN_WINDOW_SIZE <= c.maxWindow <= optSndbuf
    ensures OurDelay(c, a) == Target(a) || RateLimited(c, a) ==> c'.maxWindow == c.maxWindow
    ensures OurDelay(c, a) == 0 && a.bytes == c.maxWindow && !RateLimited(c, a) ==>
              c'.maxWindow == Least(c.maxWindow + MAX_CWND_INCREASE_BYTES_PER_RTT, optSndbuf)
  {
    GrowthExactly(c, c', a, optSndbuf);
    if OurDelay(c, a) == Target(a) {
      NothingLeft(Least(a.bytes, c.maxWindow), Most(c.maxWindow, a.bytes), Target(a));
    }
    if OurDelay(c, a) == 0 && a.bytes == c.maxWindow {
      AllLeft(a.bytes, Target(a));
    }
  }

  lemma NothingLeft(bytes: nat, window: nat, target: nat)
    requires window > 0 && target > 0
    ensures ShareOfCap(bytes, window, 0, target) == 0
  {
    MulPositive(window, target);
    ZeroOver(window * target);
  }

  lemma ZeroOver(d: nat)
    requires d > 0
    ensures 0 / d == 0
  {
  }

  lemma AllLeft(window: nat, target: nat)
    requires window > 0 && target > 0
    ensures ShareOfCap(window, window, target, target) == 3000
  {
    MulPositive(window, target);
    assert 3000 * window * target == 3000 * (window * target);
    ExactOver(3000, window * target);
  }

  lemma ExactOver(q: nat, d: nat)
    requires d > 0
    ensures (q * d) / d == q
  {
    var r := (q * d) / d;
    assert (q - r) * d == (q * d) % d;
    Multiple(q - r, d);
  }

  lemma Multiple(x: int, d: int)
    requires d > 0
    ensures (x >= 1 ==> x * d >= d) && (x <= -1 ==> x * d <= -d)
  {
  }

  // ---------------------------------------------------------------- less delay, more growth

  /** The same acknowledgement at the same time to the same controller, but for delay and clock drift. */
  predicate SameButDelay(c: Control, a: Ack, c': Control, a': Ack) {
    && c' == c.(clockDrift := c'.clockDrift)
    && a' == a.(histValue := a'.histValue, minRtt := a'.minRtt, casts := a'.casts)
  }

  lemma MoreGain(c: Control, a: Ack, c': Control, a': Ack)
    requires SameButDelay(c, a, c', a') && a.bytes > 0 && OurDelay(c', a') <= OurDelay(c, a)
    ensures ScaledGain(c, a) <= ScaledGain(c', a')
  {
    FactorInRange(c.maxWindow, a.bytes);
    MoreForLess(WindowFactor(c.maxWindow, a.bytes), Target(a), OurDelay(c, a), OurDelay(c', a'), a.now,
                c.lastMaxedOutWindow);
  }

  lemma MoreForLess(windowFactor: real, target: int, delay: int, delay': int, now: int, last: int)
    requires 0.0 <= windowFactor && target > 0 && delay' <= delay
    ensures Limited(Gain(windowFactor, DelayFactor(target, delay)), now, last)
         <= Limited(Gain(windowFactor, DelayFactor(target, delay')), now, last)
  {
    MoreFactor(target, delay, delay');
    MoreProduct(3000.0 * windowFactor, DelayFactor(target, delay), DelayFactor(target, delay'));
  }

  lemma MoreFactor(target: int, delay: int, delay': int)
    requires target > 0 && delay' <= delay
    ensures DelayFactor(target, delay) <= DelayFactor(target, delay')
  {
    MoreQuotient((target - delay) as real, (target - delay') as real, target as real);
  }

  lemma MoreQuotient(x: real, y: real, d: real)
    requires d > 0.0 && x <= y
    ensures x / d <= y / d
  {
    assert (x / d) * d == x && (y / d) * d == y;
    Cancel(x / d, y / d, d);
  }

  lemma MoreProduct(x: real, y: real, y': real)
    requires 0.0 <= x && y <= y'
    ensures x * y <= x * y'
  {
    assert x * (y' - y) == x * y' - x * y;
  }

  /** Is what the new window would be an unsigned integer at all? */
  predicate SumConvertible(c: Control, a: Ack)
    requires a.bytes > 0
  {
    Convertible(c.maxWindow as real + ScaledGain(c, a))
  }

  lemma GrownMonotone(w: nat, gain: real, casts: Casts, gain': real, casts': Casts)
    requires gain <= gain' && 0.0 <= gain' && Convertible(w as real + gain)
    ensures Grown(w, gain, casts) <= Grown(w, gain', casts')
  {
  }

  /** Less delay never means a smaller window, in slow start or after it: not when both delays are up to
      the target, and not when the larger one is above it, as long as the window that is asked for
      then is a number at all. */
  lemma LessDelayMoreWindow(c: Control, a: Ack, c': Control, a': Ack, optSndbuf: nat)
    requires SameButDelay(c, a, c', a') && a.bytes > 0 && OurDelay(c', a') <= OurDelay(c, a)
    requires OurDelay(c', a') <= Target(a') && SumConvertible(c, a) && optSndbuf >= MIN_WINDOW_SIZE
    ensures Applied(c, a, optSndbuf).maxWindow <= Applied(c', a', optSndbuf).maxWindow
  {
    GainInRange(c', a');
    MoreGain(c, a, c', a');
    GrownMonotone(c.maxWindow, ScaledGain(c, a), a.casts, ScaledGain(c', a'), a'.casts);
    FactorInRange(c.maxWindow, a.bytes);
    StartedGrows(c.maxWindow, WindowFactor(c.maxWindow, a.bytes), a.packetSize);
    assert Grown(c.maxWindow, ScaledGain(c', a'), a'.casts) >= c.maxWindow;
  }

  lemma StartedGrows(maxWindow: nat, windowFactor: real, packetSize: nat)
    requires 0.0 <= windowFactor
    ensures Started(maxWindow, windowFactor, packetSize) >= maxWindow
  {
  }

  /** A clock that runs away further never helps. */
  lemma DriftIsNoHelp(c: Control, c': Control, a: Ack, optSndbuf: nat)
    requires c' == c.(clockDrift := c'.clockDrift) && c.clockDrift <= c'.clockDrift && a.bytes > 0
    requires OurDelay(c', a) <= Target(a) && SumConvertible(c, a) && optSndbuf >= MIN_WINDOW_SIZE
    ensures Applied(c, a, optSndbuf).maxWindow <= Applied(c', a, optSndbuf).maxWindow
  {
    PenaltyFalls(c.clockDrift, c'.clockDrift);
    LessDelayMoreWindow(c, a, c', a, optSndbuf);
  }

  lemma PenaltyFalls(drift: int, drift': int)
    requires drift <= drift'
    ensures Penalty(drift') <= Penalty(drift)
  {
  }

  // ---------------------------------------------------------------- above the target

  /** Above the target the gain is negative, or nothing. */
  lemma GainAbove(c: Control, a: Ack)
    requires a.bytes > 0 && OurDelay(c, a) > Target(a)
    ensures ScaledGain(c, a) <= 0.0
  {
    FactorInRange(c.maxWindow, a.bytes);
    GainAboveTarget(WindowFactor(c.maxWindow, a.bytes), Target(a), OurDelay(c, a));
  }

  lemma GainAboveTarget(windowFactor: real, target: int, ourDelay: int)
    requires windowFactor >= 0.0 && 0 < target <= ourDelay
    ensures Gain(windowFactor, DelayFactor(target, ourDelay)) <= 0.0
  {
    MoreFactor(target, ourDelay, target);
    MoreProduct(3000.0 * windowFactor, DelayFactor(target, ourDelay), 0.0);
  }

  /** Above the target the window does not grow, whatever the platform makes of converting a negative
      number, if and only if the window that is asked for is above -1. Otherwise it is the
      platform's choice, up to the whole send buffer. */
  lemma NoGrowthAboveTargetExactly(c: Control, a: Ack, optSndbuf: nat)
    requires !c.slowStart && a.bytes > 0 && OurDelay(c, a) > Target(a) && MIN_WINDOW_SIZE <= c.maxWindow < optSndbuf
    ensures (forall casts: Casts :: Applied(c, a.(casts := casts), optSndbuf).maxWindow <= c.maxWindow)
       <==> SumConvertible(c, a)
    ensures !SumConvertible(c, a) ==> Applied(c, a.(casts := Casts(false, optSndbuf)), optSndbuf).maxWindow == optSndbuf
  {
    GainAbove(c, a);
    forall casts: Casts
      ensures ScaledGain(c, a.(casts := casts)) == ScaledGain(c, a)
      ensures SumConvertible(c, a) ==> Applied(c, a.(casts := casts), optSndbuf).maxWindow <= c.maxWindow
    {
    }
    var worst := a.(casts := Casts(false, optSndbuf));
    assert !SumConvertible(c, a) ==> Applied(c, worst, optSndbuf).maxWindow == optSndbuf;
  }

  /** In whole numbers: the reduction, that share of 3,000 bytes times the excess over the target, is
      less than the window plus one. */
  lemma SumConvertibleExactly(c: Control, a: Ack)
    requires a.bytes > 0 && OurDelay(c, a) > Target(a)
    ensures SumConvertible(c, a)
       <==> 3000 * Least(a.bytes, c.maxWindow) * (OurDelay(c, a) - Target(a))
              < (c.maxWindow + 1) * (Most(c.maxWindow, a.bytes) * Target(a))
  {
    var bytes, window, excess := Least(a.bytes, c.maxWindow), Most(c.maxWindow, a.bytes), OurDelay(c, a) - Target(a);
    GainAbove(c, a);
    ReductionIs(c, a, 3000.0 * (bytes as real / window as real) * (excess as real / Target(a) as real));
    ReductionBelow(bytes, window, excess, Target(a), c.maxWindow + 1,
                   3000.0 * (bytes as real / window as real) * (excess as real / Target(a) as real));
  }

  lemma ReductionIs(c: Control, a: Ack, reduction: real)
    requires a.bytes > 0 && OurDelay(c, a) > Target(a)
    requires reduction == 3000.0 * (Least(a.bytes, c.maxWindow) as real / Most(c.maxWindow, a.bytes) as real)
                          * ((OurDelay(c, a) - Target(a)) as real / Target(a) as real)
    ensures ScaledGain(c, a) == -reduction
  {
    NegatedGain(WindowFactor(c.maxWindow, a.bytes), Target(a), OurDelay(c, a));
    FactorInRange(c.maxWindow, a.bytes);
    GainAboveTarget(WindowFactor(c.maxWindow, a.bytes), Target(a), OurDelay(c, a));
  }

  lemma NegatedGain(windowFactor: real, target: int, ourDelay: int)
    requires target > 0
    ensures Gain(windowFactor, DelayFactor(target, ourDelay))
         == -(3000.0 * windowFactor * ((ourDelay - target) as real / target as real))
  {
    assert (target - ourDelay) as real == -((ourDelay - target) as real);
    Negated(3000.0 * windowFactor, (ourDelay - target) as real, target as real);
  }

  lemma Negated(share: real, over: real, t: real)
    requires t > 0.0
    ensures share * (-over / t) == -(share * (over / t))
  {
  }

  lemma ReductionBelow(bytes: nat, window: nat, excess: nat, target: nat, bound: nat, x: real)
    requires window > 0 && target > 0
    requires x == 3000.0 * (bytes as real / window as real) * (excess as real / target as real)
    ensures x < bound as real <==> 3000 * bytes * excess < bound * (window * target)
  {
    MulPositive(window, target);
    var n, d := 3000.0 * bytes as real * excess as real, window as real * target as real;
    ProductOfQuotients(3000.0, bytes as real, window as real, excess as real, target as real);
    IntegersBehind(bytes, window, excess, target, n, d);
    BelowBound(x, n, d, 3000 * bytes * excess, window * target, bound);
  }

  lemma BelowBound(x: real, n: real, d: real, n': nat, d': nat, bound: nat)
    requires d' > 0 && n == n' as real && d == d' as real && x == n / d
    ensures x < bound as real <==> n' < bound * d'
  {
    AsProduct(bound, d');
    assert x * d == n;
    Cancel(bound as real, x, d);
  }

  // ---------------------------------------------------------------- slow start

  /** What slow start makes of the window: the acknowledged share of a packet is added. */
  function SlowStarted(c: Control, a: Ack): nat
    requires a.bytes > 0
  {
    c.maxWindow + Least(a.bytes, c.maxWindow) * a.packetSize / Most(c.maxWindow, a.bytes)
  }

  lemma StartedIs(c: Control, a: Ack)
    requires a.bytes > 0
    ensures 0.0 <= WindowFactor(c.maxWindow, a.bytes)
    ensures Started(c.maxWindow, WindowFactor(c.maxWindow, a.bytes), a.packetSize) == SlowStarted(c, a)
  {
    FactorInRange(c.maxWindow, a.bytes);
    ShareOfPacket(Least(a.bytes, c.maxWindow), Most(c.maxWindow, a.bytes), a.packetSize,
                  WindowFactor(c.maxWindow, a.bytes) * a.packetSize as real);
  }

  lemma ShareOfPacket(bytes: nat, window: nat, packetSize: nat, x: real)
    requires window > 0 && x == bytes as real / window as real * packetSize as real
    ensures x.Floor == bytes * packetSize / window
  {
    QuotientTimes(bytes as real, window as real, packetSize as real);
    AsProduct(bytes, packetSize);
    FloorOfIntegers(x, bytes as real * packetSize as real, window as real, bytes * packetSize, window);
  }

  lemma QuotientTimes(x: real, d: real, y: real)
    requires d > 0.0
    ensures x / d * y == x * y / d
  {
  }

  lemma NineTenths(ourDelay: int, target: int)
    requires target > 0
    ensures NearTarget(ourDelay, target) <==> 10 * ourDelay > 9 * target
  {
  }

  /** Slow start goes on exactly while the window it asks for is up to the threshold and the delay up to
      nine tenths of the target. It then adds what it asks for, or LEDBAT's growth if that is more;
      otherwise the window stays, and if the delay ended it, becomes the threshold. */
  lemma SlowStartExactly(c: Control, c': Control, a: Ack, optSndbuf: nat)
    requires c.slowStart && a.bytes > 0 && optSndbuf >= MIN_WINDOW_SIZE && c' == Applied(c, a, optSndbuf)
    ensures c'.slowStart <==> SlowStarted(c, a) <= c.ssthresh && 10 * OurDelay(c, a) <= 9 * Target(a)
    ensures c'.slowStart ==>
              && OurDelay(c, a) <= Target(a)
              && c'.maxWindow == Clamp(Most(SlowStarted(c, a),
                                            c.maxWindow + if RateLimited(c, a) then 0 else FullGain(c, a)),
                                       MIN_WINDOW_SIZE, optSndbuf)
              && c'.ssthresh == c.ssthresh
    ensures !c'.slowStart ==>
              && c'.maxWindow == Clamp(c.maxWindow, MIN_WINDOW_SIZE, optSndbuf)
              && c'.ssthresh == if SlowStarted(c, a) > c.ssthresh then c.ssthresh else c.maxWindow
  {
    StartedIs(c, a);
    NineTenths(OurDelay(c, a), Target(a));
    if c'.slowStart {
      GainInRange(c, a);
      LimitedFloor(c, a);
      WholeSum(c.maxWindow, ScaledGain(c, a));
    }
  }
}
