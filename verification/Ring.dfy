/** Slots indexed by `seq & mask`, with `mask + 1` a power of two.

    The value functions say what each operation does to the slots; `Agrees` ties the slots to a
    plain map from unbounded sequence numbers to elements, which is what the ring stands for.
    Because the size is a power of two, `seq & mask` is the remainder by the size. */
module Ring {
  import opened Serial

  function Pow2(k: nat): nat {
    if k == 0 then 1 else 2 * Pow2(k - 1)
  }

  /** A ring size that divides 2^16: 1, 2, 4, ..., 65,536. */
  ghost predicate RingSize(size: nat) {
    exists k: nat :: k <= 16 && size == Pow2(k)
  }

  // ---------------------------------------------------------------- slot arithmetic

  lemma {:induction false} ModAddMultiple(x: int, size: nat, t: nat)
    requires size > 0
    ensures (x + size * t) % size == x % size
  {
    if t == 0 {
    } else {
      ModAddMultiple(x, size, t - 1);
      var y := x + size * (t - 1);
      assert x + size * t == y + size by { assert size * t == size * (t - 1) + size; }
      ModShift(y, size);
    }
  }

  lemma ModShift(y: int, size: nat)
    requires size > 0
    ensures (y + size) % size == y % size
  {
    var q, r := y / size, y % size;
    assert y + size == size * (q + 1) + r;
    ModUnique(y + size, size, q + 1, r);
  }

  lemma MulAtLeast(size: nat, t: int)
    ensures t >= 1 ==> size * t >= size
    ensures t <= -1 ==> size * t <= 0 - size
  {
    if t >= 1 {
      assert size * t == size + size * (t - 1);
    } else if t <= -1 {
      assert size * t == 0 - size + size * (t + 1);
    }
  }

  lemma ModUnique(y: int, size: nat, q: int, r: int)
    requires size > 0 && y == size * q + r && 0 <= r < size
    ensures y % size == r
  {
    QuotientUnique(size, q, r, y / size, y % size);
  }

  lemma QuotientUnique(size: nat, q: int, r: int, q': int, r': int)
    requires size * q + r == size * q' + r' && 0 <= r < size && 0 <= r' < size
    ensures r == r'
  {
    assert size * (q - q') == r' - r by { assert size * (q - q') == size * q - size * q'; }
    MulAtLeast(size, q - q');
  }

  lemma {:induction false} Pow2Divides(k: nat, n: nat) returns (c: nat)
    requires k <= n
    ensures Pow2(n) == Pow2(k) * c
    decreases n - k
  {
    if k == n {
      c := 1;
    } else {
      var c' := Pow2Divides(k, n - 1);
      c := 2 * c';
    }
  }

  lemma Pow2At16()
    ensures Pow2(16) == MOD16
  {
    assert Pow2(8) == 256 by { assert Pow2(4) == 16; }
    assert Pow2(12) == 4096;
  }

  lemma ModOfMultiple(n: int, size: nat, c: nat)
    requires size > 0 && size * c > 0
    ensures (n % (size * c)) % size == n % size
  {
    var m := size * c;
    var q, r := n / m, n % m;
    assert n == m * q + r;
    assert n == r + size * (c * q) by { assert m * q == size * (c * q); }
    ModAddAny(r, size, c * q);
  }

  lemma ModAddAny(x: int, size: nat, t: int)
    requires size > 0
    ensures (x + size * t) % size == x % size
  {
    if t >= 0 {
      ModAddMultiple(x, size, t);
    } else {
      var y := x + size * t;
      assert x == y + size * -t by { assert size * -t == -(size * t); }
      ModAddMultiple(y, size, -t);
    }
  }

  /** `n & mask`, the remainder of `n` by the ring size. (Spelled out by repeated subtraction:
      the verifier then never has to reason about division by a variable.) */
  function Slot(n: int, size: nat): (slot: nat)
    requires size > 0
    ensures slot < size
    decreases n < 0, if n < 0 then -n else n
  {
    if n < 0 then Slot(n + size, size) else if n < size then n else Slot(n - size, size)
  }

  lemma {:induction false} SlotIsMod(n: int, size: nat)
    requires size > 0
    ensures Slot(n, size) == n % size
    decreases n < 0, if n < 0 then -n else n
  {
    if n < 0 {
      SlotIsMod(n + size, size);
      ModShift(n, size);
    } else if n < size {
      ModUnique(n, size, 0, n);
    } else {
      SlotIsMod(n - size, size);
      ModShift(n - size, size);
    }
  }

  lemma ModsDistinct(a: int, b: int, size: nat)
    requires size > 0 && a < b < a + size
    ensures a % size != b % size
  {
    var qa, qb := a / size, b / size;
    assert size * (qb - qa) == b - a - (b % size - a % size) by {
      assert size * (qb - qa) == size * qb - size * qa;
    }
    MulAtLeast(size, qb - qa);
  }

  /** Two different numbers less than `size` apart never share a slot. */
  lemma SlotsDistinct(a: int, b: int, size: nat)
    requires size > 0 && a < b < a + size
    ensures Slot(a, size) != Slot(b, size)
  {
    SlotIsMod(a, size);
    SlotIsMod(b, size);
    ModsDistinct(a, b, size);
  }

  lemma SlotShift(n: int, size: nat)
    requires size > 0
    ensures Slot(n + size, size) == Slot(n, size)
  {
    SlotIsMod(n, size);
    SlotIsMod(n + size, size);
    ModShift(n, size);
  }

  /** A 16-bit number has the slot of the unbounded number it stands for. */
  lemma SlotOfWrapped(n: int, size: nat)
    requires RingSize(size) && size > 0
    ensures Slot(W(n), size) == Slot(n, size)
  {
    SlotIsMod(n, size);
    SlotIsMod(W(n), size);
    var k: nat :| k <= 16 && size == Pow2(k);
    Pow2At16();
    var c := Pow2Divides(k, 16);
    ModOfMultiple(n, size, c);
  }

  // ---------------------------------------------------------------- what the operations do

  function Get<T>(buf: seq<Option<T>>, n: int): Option<T> {
    if |buf| <= 1 then None else buf[Slot(n, |buf|)]
  }

  function Put<T>(buf: seq<Option<T>>, n: int, x: T): seq<Option<T>>
    requires |buf| > 0
  {
    buf[Slot(n, |buf|) := Some(x)]
  }

  function Take<T>(buf: seq<Option<T>>, n: int): seq<Option<T>> {
    if |buf| <= 1 then buf else buf[Slot(n, |buf|) := None]
  }

  /** The first size among `size`, `2 * size`, `4 * size`, ... above `index`. */
  function DoubleUntil(size: nat, index: nat): (r: nat)
    requires size > 0
    ensures r > index
    decreases index - size
  {
    if index < size then size else DoubleUntil(2 * size, index)
  }

  function GrownSize(size: nat, index: nat): (r: nat)
    requires size > 0
    ensures r > index
  {
    if index < size then size else DoubleUntil(2 * size, index)
  }

  /** The slots after `grow`: the elements of the `|buf|` numbers from `lo` on keep their
      numbers, every other slot is empty. */
  function Regrown<T>(buf: seq<Option<T>>, lo: int, newSize: nat): seq<Option<T>>
    requires newSize > 0
  {
    seq(newSize, j requires 0 <= j < newSize =>
      var d := Slot(j - lo, newSize);
      if d < |buf| then buf[Slot(lo + d, |buf|)] else None)
  }

  function Ensure<T>(buf: seq<Option<T>>, item: int, index: nat): seq<Option<T>>
    requires |buf| > 0
  {
    if index < |buf| then buf else Regrown(buf, item - index, GrownSize(|buf|, index))
  }

  lemma {:induction false} DoubleUntilProperties(size: nat, index: nat, k: nat)
    requires size == Pow2(k) && size > 0 && k <= 16 && index < MOD16
    ensures DoubleUntil(size, index) >= size
    ensures RingSize(DoubleUntil(size, index))
    ensures forall bound: nat :: index < Pow2(bound) && k <= bound ==> DoubleUntil(size, index) <= Pow2(bound)
    decreases index - size
  {
    if index < size {
      forall bound: nat | k <= bound
        ensures size <= Pow2(bound)
      {
        Pow2Monotone(k, bound);
      }
    } else {
      Pow2At16();
      assert k < 16;
      assert 2 * size == Pow2(k + 1);
      DoubleUntilProperties(2 * size, index, k + 1);
      forall bound: nat | index < Pow2(bound) && k <= bound
        ensures DoubleUntil(size, index) <= Pow2(bound)
      {
        assert k != bound;
      }
    }
  }

  lemma {:induction false} Pow2Monotone(j: nat, k: nat)
    requires j <= k
    ensures 0 < Pow2(j) <= Pow2(k)
    decreases k
  {
    if j < k {
      Pow2Monotone(j, k - 1);
    } else if j > 0 {
      Pow2Monotone(j - 1, k - 1);
    }
  }

  /** `ensure_size` leaves a power of two above the index, and never one above the least
      power of two that would do. */
  lemma GrownSizeProperties(size: nat, index: nat)
    requires RingSize(size) && size > 0 && index < MOD16
    ensures GrownSize(size, index) > index && GrownSize(size, index) >= size
    ensures RingSize(GrownSize(size, index))
    ensures size <= 1024 && index < 1024 ==> GrownSize(size, index) <= 1024
    ensures size <= 2048 && index < 2048 ==> GrownSize(size, index) <= 2048
  {
    var k: nat :| k <= 16 && size == Pow2(k);
    assert Pow2(10) == 1024 by { assert Pow2(5) == 32; }
    assert Pow2(11) == 2048;
    if index >= size {
      Pow2At16();
      assert k < 16;
      assert 2 * size == Pow2(k + 1);
      DoubleUntilProperties(2 * size, index, k + 1);
      if index < 1024 {
        assert k + 1 <= 10 by {
          if k >= 10 {
            Pow2Monotone(10, k);
          }
        }
      }
      if index < 2048 {
        assert k + 1 <= 11 by {
          if k >= 11 {
            Pow2Monotone(11, k);
          }
        }
      }
    }
  }

  // ---------------------------------------------------------------- the ring is a map

  function Lookup<T>(m: map<int, T>, n: int): Option<T> {
    if n in m then Some(m[n]) else None
  }

  /** What the ring holds under the `count` numbers from `lo` on. */
  ghost function Contents<T>(buf: seq<Option<T>>, lo: int, count: nat): map<int, T> {
    if count == 0 then map[]
    else
      var n := lo + count - 1;
      var below := Contents(buf, lo, count - 1);
      if Get(buf, n).Some? then below[n := Get(buf, n).value] else below
  }

  /** The ring `buf` stands for the map `m` whose numbers lie in `[lo, lo + |buf|)`. */
  ghost predicate Agrees<T>(buf: seq<Option<T>>, lo: int, m: map<int, T>) {
    |buf| > 1 && RingSize(|buf|) && m == Contents(buf, lo, |buf|)
  }

  /** The same, slot by slot. */
  ghost predicate Matches<T>(buf: seq<Option<T>>, lo: int, count: nat, m: map<int, T>) {
    && (forall n :: n in m ==> lo <= n < lo + count)
    && (forall n :: lo <= n < lo + count ==> Get(buf, n) == Lookup(m, n))
  }

  lemma {:induction false} ContentsMatches<T>(buf: seq<Option<T>>, lo: int, count: nat)
    ensures Matches(buf, lo, count, Contents(buf, lo, count))
  {
    if count != 0 {
      ContentsMatches(buf, lo, count - 1);
      var n := lo + count - 1;
      var below, m := Contents(buf, lo, count - 1), Contents(buf, lo, count);
      forall i | lo <= i < lo + count
        ensures Get(buf, i) == Lookup(m, i)
      {
        if i < n {
          assert Get(buf, i) == Lookup(below, i);
        }
      }
    }
  }

  lemma AgreesIsMatches<T>(buf: seq<Option<T>>, lo: int, m: map<int, T>)
    requires |buf| > 1 && RingSize(|buf|)
    ensures Agrees(buf, lo, m) <==> Matches(buf, lo, |buf|, m)
  {
    ContentsMatches(buf, lo, |buf|);
    var m' := Contents(buf, lo, |buf|);
    if Matches(buf, lo, |buf|, m) {
      forall n
        ensures n in m <==> n in m'
        ensures n in m ==> m[n] == m'[n]
      {
        if lo <= n < lo + |buf| {
          assert Get(buf, n) == Lookup(m, n);
          assert Get(buf, n) == Lookup(m', n);
        }
      }
      assert m == m';
    }
  }

  /** The number in `[lo, lo + size)` that shares the slot of `n`. */
  function Alias(n: int, lo: int, size: nat): int
    requires size > 0
  {
    lo + Slot(n - lo, size)
  }

  lemma AliasSharesSlot(n: int, lo: int, size: nat)
    requires size > 0
    ensures lo <= Alias(n, lo, size) < lo + size
    ensures Slot(n, size) == Slot(Alias(n, lo, size), size)
    ensures lo <= n < lo + size ==> Alias(n, lo, size) == n
  {
    SlotOfSlot(n - lo, size);
    SumOfSlots(Slot(n - lo, size), n - lo, lo, size);
  }

  /** Whatever number is asked for, and whether it is wrapped or not, the ring answers for
      the one number of its range in the same slot. */
  lemma AgreesGet<T>(buf: seq<Option<T>>, lo: int, m: map<int, T>, n: int)
    requires Agrees(buf, lo, m)
    ensures Get(buf, n) == Get(buf, W(n)) == Lookup(m, Alias(n, lo, |buf|))
    ensures lo <= n < lo + |buf| ==> Get(buf, n) == Lookup(m, n)
  {
    AgreesIsMatches(buf, lo, m);
    SlotOfWrapped(n, |buf|);
    AliasSharesSlot(n, lo, |buf|);
    assert Get(buf, Alias(n, lo, |buf|)) == Lookup(m, Alias(n, lo, |buf|));
  }

  /** When the two lowest numbers are absent the ring may be read two numbers past its range
      without finding an element under a number that is not its own. */
  lemma AgreesBeyond<T>(buf: seq<Option<T>>, lo: int, m: map<int, T>, n: int)
    requires Agrees(buf, lo, m) && lo !in m && lo + 1 !in m
    requires lo <= n < lo + |buf| + 2
    ensures Get(buf, n) == Lookup(m, n)
  {
    AgreesRange(buf, lo, m, n);
    if n >= lo + |buf| {
      SlotShift(n - |buf|, |buf|);
      AgreesRange(buf, lo, m, n - |buf|);
    }
  }

  lemma AgreesRange<T>(buf: seq<Option<T>>, lo: int, m: map<int, T>, n: int)
    requires Agrees(buf, lo, m)
    ensures n in m ==> lo <= n < lo + |buf| && Get(buf, n) == Some(m[n])
    ensures lo <= n < lo + |buf| && n !in m ==> Get(buf, n) == None
  {
    AgreesIsMatches(buf, lo, m);
    assert lo <= n < lo + |buf| ==> Get(buf, n) == Lookup(m, n);
  }

  lemma AgreesPut<T>(buf: seq<Option<T>>, lo: int, m: map<int, T>, n: int, x: T)
    requires Agrees(buf, lo, m) && lo <= n < lo + |buf|
    ensures Put(buf, W(n), x) == Put(buf, n, x)
    ensures Agrees(Put(buf, n, x), lo, m[n := x])
  {
    AgreesIsMatches(buf, lo, m);
    SlotOfWrapped(n, |buf|);
    var buf' := Put(buf, n, x);
    forall i | lo <= i < lo + |buf|
      ensures Get(buf', i) == Lookup(m[n := x], i)
    {
      if i < n {
        SlotsDistinct(i, n, |buf|);
      } else if n < i {
        SlotsDistinct(n, i, |buf|);
      }
      assert Get(buf, i) == Lookup(m, i);
    }
    AgreesIsMatches(buf', lo, m[n := x]);
  }

  lemma AgreesTake<T>(buf: seq<Option<T>>, lo: int, m: map<int, T>, n: int)
    requires Agrees(buf, lo, m) && lo <= n < lo + |buf|
    ensures Take(buf, W(n)) == Take(buf, n)
    ensures Agrees(Take(buf, n), lo, m - {n})
  {
    AgreesIsMatches(buf, lo, m);
    SlotOfWrapped(n, |buf|);
    var buf' := Take(buf, n);
    forall i | lo <= i < lo + |buf|
      ensures Get(buf', i) == Lookup(m - {n}, i)
    {
      if i < n {
        SlotsDistinct(i, n, |buf|);
      } else if n < i {
        SlotsDistinct(n, i, |buf|);
      }
      assert Get(buf, i) == Lookup(m, i);
    }
    AgreesIsMatches(buf', lo, m - {n});
  }

  /** When the lowest number is absent the range may slide up by one. */
  lemma AgreesSlide<T>(buf: seq<Option<T>>, lo: int, m: map<int, T>)
    requires Agrees(buf, lo, m) && lo !in m
    ensures Agrees(buf, lo + 1, m)
  {
    AgreesIsMatches(buf, lo, m);
    SlotShift(lo, |buf|);
    assert Get(buf, lo) == None;
    assert Get(buf, lo + |buf|) == None;
    AgreesIsMatches(buf, lo + 1, m);
  }

  /** The range may slide down again when the number that would enter at the top is absent. */
  lemma AgreesSlideBack<T>(buf: seq<Option<T>>, lo: int, m: map<int, T>)
    requires Agrees(buf, lo + 1, m) && lo + |buf| !in m
    ensures Agrees(buf, lo, m)
  {
    AgreesIsMatches(buf, lo + 1, m);
    SlotShift(lo, |buf|);
    assert Get(buf, lo + |buf|) == None;
    AgreesIsMatches(buf, lo, m);
  }

  /** An empty ring has no range: it stands for the empty map wherever it starts. */
  lemma AgreesEmpty<T>(buf: seq<Option<T>>, lo: int, lo': int)
    requires Agrees(buf, lo, map[])
    ensures Agrees(buf, lo', map[])
  {
    forall n | lo' <= n < lo' + |buf|
      ensures Get(buf, n) == None
    {
      AgreesGet(buf, lo, map[], n);
    }
    AgreesIsMatches<T>(buf, lo', map[]);
  }

  /** Growing keeps every element, across the wrap of the 16-bit numbers, as long as the
      caller passes the true start of its window as `item - index`. */
  lemma AgreesEnsure<T>(buf: seq<Option<T>>, lo: int, m: map<int, T>, item: int, index: nat)
    requires Agrees(buf, lo, m) && W(item - index) == W(lo) && index < MOD16
    ensures Agrees(Ensure(buf, item, index), lo, m)
    ensures |Ensure(buf, item, index)| == GrownSize(|buf|, index)
  {
    GrownSizeProperties(|buf|, index);
    if index >= |buf| {
      AgreesIsMatches(buf, lo, m);
      var size := GrownSize(|buf|, index);
      var base := item - index;
      var buf' := Regrown(buf, base, size);
      forall n | lo <= n < lo + size
        ensures Get(buf', n) == Lookup(m, n)
      {
        RegrownAt(buf, base, size, lo, n);
        if n < lo + |buf| {
          assert Get(buf, n) == Lookup(m, n);
        }
      }
      AgreesIsMatches(buf', lo, m);
    }
  }

  /** Taking the number after an absent lowest one moves the range up to it. */
  lemma AgreesTakeNext<T>(buf: seq<Option<T>>, lo: int, m: map<int, T>)
    requires Agrees(buf, lo, m) && lo !in m
    ensures Get(buf, lo + 1) == Lookup(m, lo + 1)
    ensures Agrees(Take(buf, lo + 1), lo + 1, m - {lo + 1})
  {
    AgreesRange(buf, lo, m, lo + 1);
    AgreesTake(buf, lo, m, lo + 1);
    AgreesSlide(Take(buf, lo + 1), lo, m - {lo + 1});
  }

  /** Storing the number `seqnr + 1` above `lo`, after making room for it: found occupied
      exactly when the map has it, stored under its own slot otherwise. */
  lemma AgreesStore<T>(buf: seq<Option<T>>, lo: int, m: map<int, T>, seqNr: U16, seqnr: nat, x: T)
    requires Agrees(buf, lo, m) && lo !in m && |buf| <= 2048
    requires 1 <= seqnr < 1024 && seqNr == W(lo + 1 + seqnr)
    ensures var n := lo + 1 + seqnr;
            var buf' := Ensure(buf, seqNr + 1, seqnr + 1);
            && 1 < |buf'| <= 2048
            && Get(buf', seqNr) == Lookup(m, n)
            && (n in m ==> Agrees(buf', lo, m))
            && (n !in m ==> Agrees(Put(buf', seqNr, x), lo, m[n := x]))
  {
    var n := lo + 1 + seqnr;
    AgreesSlide(buf, lo, m);
    assert W(seqNr + 1 - (seqnr + 1)) == W(lo + 1) by { WDistance(n, seqnr); }
    AgreesEnsure(buf, lo + 1, m, seqNr + 1, seqnr + 1);
    GrownSizeProperties(|buf|, seqnr + 1);
    AgreesStoreRoomy(buf, Ensure(buf, seqNr + 1, seqnr + 1), lo, m, n, x);
  }

  lemma AgreesStoreRoomy<T>(buf: seq<Option<T>>, buf': seq<Option<T>>, lo: int, m: map<int, T>, n: int, x: T)
    requires Agrees(buf, lo, m) && Agrees(buf', lo + 1, m) && |buf| <= |buf'| && lo + 1 <= n < lo + |buf'|
    ensures Get(buf', W(n)) == Lookup(m, n)
    ensures Agrees(buf', lo, m)
    ensures Agrees(Put(buf', W(n), x), lo, m[n := x])
  {
    AgreesRange(buf, lo, m, lo + |buf'|);
    AgreesGet(buf', lo + 1, m, n);
    AgreesSlideBack(buf', lo, m);
    AgreesPut(buf', lo, m, n, x);
  }

  lemma RegrownAt<T>(buf: seq<Option<T>>, base: int, size: nat, lo: int, n: int)
    requires RingSize(|buf|) && |buf| > 1 && RingSize(size) && size >= |buf|
    requires W(base) == W(lo) && lo <= n < lo + size
    ensures Get(Regrown(buf, base, size), n) == if n < lo + |buf| then Get(buf, n) else None
  {
    var d := n - lo;
    var j := Slot(n, size);
    assert Slot(j - base, size) == d by {
      SameSlot(base, lo, size);
      SlotOfSlot(n, size);
      SumOfSlots(j, n, -base, size);
      SumOfSlots(lo, base, n - lo - base, size);
    }
    assert Slot(base + d, |buf|) == Slot(n, |buf|) by {
      SameSlot(base, lo, |buf|);
      SumOfSlots(base, lo, d, |buf|);
    }
  }

  lemma SameSlot(a: int, b: int, size: nat)
    requires RingSize(size) && size > 0 && W(a) == W(b)
    ensures Slot(a, size) == Slot(b, size)
  {
    SlotOfWrapped(a, size);
    SlotOfWrapped(b, size);
  }

  lemma SlotOfSlot(n: int, size: nat)
    requires size > 0
    ensures Slot(Slot(n, size), size) == Slot(n, size)
  {
  }

  lemma ModSum(a: int, b: int, d: int, size: nat)
    requires size > 0 && a % size == b % size
    ensures (a + d) % size == (b + d) % size
  {
    var qa, qb := a / size, b / size;
    assert a + d == b + d + size * (qa - qb) by {
      assert size * (qa - qb) == size * qa - size * qb;
    }
    ModAddAny(b + d, size, qa - qb);
  }

  lemma SumOfSlots(a: int, b: int, d: int, size: nat)
    requires size > 0 && Slot(a, size) == Slot(b, size)
    ensures Slot(a + d, size) == Slot(b + d, size)
  {
    SlotIsMod(a, size);
    SlotIsMod(b, size);
    SlotIsMod(a + d, size);
    SlotIsMod(b + d, size);
    ModSum(a, b, d, size);
  }

  /** The slot `j` of the grown ring when the elements of the first `moved` numbers have been
      moved to it. */
  function MovedAt<T>(buf: seq<Option<T>>, lo: int, newSize: nat, moved: nat, j: nat): Option<T>
    requires newSize > 0 && moved <= |buf|
  {
    var d := Slot(j - lo, newSize);
    if d < moved then buf[Slot(lo + d, |buf|)] else None
  }

  /** Moving one more element changes the one slot that number has. */
  lemma MovedStep<T>(buf: seq<Option<T>>, lo: int, newSize: nat, moved: nat, j: nat)
    requires moved < |buf| <= newSize && j < newSize
    ensures MovedAt(buf, lo, newSize, moved + 1, j)
         == if j == Slot(lo + moved, newSize) then buf[Slot(lo + moved, |buf|)] else MovedAt(buf, lo, newSize, moved, j)
  {
    SlotOfSlot(j - lo, newSize);
    SlotOfSlot(lo + moved, newSize);
    assert Slot(moved, newSize) == moved && Slot(j, newSize) == j;
    if Slot(j - lo, newSize) == moved {
      SumOfSlots(j - lo, moved, lo, newSize);
    } else if j == Slot(lo + moved, newSize) {
      SumOfSlots(j, lo + moved, -lo, newSize);
    }
  }

  /** `slots` is a grown ring to which the first `moved` elements have been moved. */
  ghost predicate PartlyMoved<T>(buf: seq<Option<T>>, lo: int, slots: seq<Option<T>>, moved: nat) {
    && moved <= |buf| <= |slots|
    && forall j :: 0 <= j < |slots| ==> slots[j] == MovedAt(buf, lo, |slots|, moved, j)
  }

  lemma PartlyMovedStep<T>(buf: seq<Option<T>>, lo: int, slots: seq<Option<T>>, moved: nat)
    requires PartlyMoved(buf, lo, slots, moved) && moved < |buf|
    ensures PartlyMoved(buf, lo, slots[Slot(lo + moved, |slots|) := buf[Slot(lo + moved, |buf|)]], moved + 1)
  {
    var slots' := slots[Slot(lo + moved, |slots|) := buf[Slot(lo + moved, |buf|)]];
    forall j | 0 <= j < |slots'|
      ensures slots'[j] == MovedAt(buf, lo, |slots'|, moved + 1, j)
    {
      MovedStep(buf, lo, |slots|, moved, j);
    }
  }

  /** The window may move anywhere that still covers every live number. */
  lemma AgreesMove<T>(buf: seq<Option<T>>, lo: int, m: map<int, T>, lo': int)
    requires Agrees(buf, lo, m) && forall n :: n in m ==> lo' <= n < lo' + |buf|
    ensures Agrees(buf, lo', m)
  {
    forall n | lo' <= n < lo' + |buf|
      ensures Get(buf, n) == Lookup(m, n)
    {
      AgreesGet(buf, lo, m, n);
      AliasSharesSlot(n, lo, |buf|);
      AgreesRange(buf, lo, m, n);
      var a := Alias(n, lo, |buf|);
      if a in m && a < n {
        SlotsDistinct(a, n, |buf|);
      } else if a in m && n < a {
        SlotsDistinct(n, a, |buf|);
      }
    }
    AgreesIsMatches(buf, lo', m);
  }

  /** A ring fresh from `initialize(16)` stands for the empty map. */
  lemma FreshAgrees<T>(lo: int)
    ensures Agrees<T>(seq(16, _ => None), lo, map[])
  {
    assert RingSize(16) by { assert Pow2(4) == 16; }
    AgreesIsMatches<T>(seq(16, _ => None), lo, map[]);
  }
}
