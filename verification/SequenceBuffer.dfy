/** The buffer itself, updated in place, and what it stands for after any run of operations. */
module SequenceBuffer {
  import opened Serial
  import Ring

  // ---------------------------------------------------------------- the buffer itself

  class SequenceBuffer<T> {
    var buf: seq<Option<T>>
    var mask: nat

    ghost predicate Valid()
      reads this
    {
      |buf| == mask + 1
    }

    /** A buffer after `initialize(size)`. */
    constructor (size: nat)
      requires size > 0
      ensures Valid() && buf == seq(size, _ => None)
    {
      buf := seq(size, _ => None);
      mask := size - 1;
    }

    function Size(): nat
      reads this
    {
      mask + 1
    }

    /** The element in the slot of `n`, which stays in the buffer. */
    method Get(n: int) returns (x: Option<T>)
      requires Valid()
      ensures x == Ring.Get(buf, n)
    {
      if mask == 0 {
        return None;
      }
      x := buf[Ring.Slot(n, mask + 1)];
    }

    method Put(n: int, x: T)
      requires Valid()
      modifies this
      ensures Valid() && buf == Ring.Put(old(buf), n, x)
    {
      buf := buf[Ring.Slot(n, mask + 1) := Some(x)];
    }

    /** The element in the slot of `n`, which leaves the buffer. */
    method Take(n: int) returns (x: Option<T>)
      requires Valid()
      modifies this
      ensures Valid() && x == Ring.Get(old(buf), n) && buf == Ring.Take(old(buf), n)
    {
      if mask == 0 {
        return None;
      }
      var i := Ring.Slot(n, mask + 1);
      x := buf[i];
      buf := buf[i := None];
    }

    /** Room for a window of more than `index` numbers that ends below `item`'s window start
        plus the new size. */
    method EnsureSize(item: int, index: nat)
      requires Valid() && Ring.RingSize(|buf|) && index < MOD16
      modifies this
      ensures Valid() && buf == Ring.Ensure(old(buf), item, index)
    {
      if index > mask {
        Grow(item, index);
      }
    }

    method Grow(item: int, index: nat)
      requires Valid() && Ring.RingSize(|buf|) && mask < index < MOD16
      modifies this
      ensures Valid() && buf == Ring.Regrown(old(buf), item - index, Ring.GrownSize(old(|buf|), index))
    {
      var newSize := 2 * (mask + 1);
      while index >= newSize
        invariant newSize > 0 && Ring.DoubleUntil(newSize, index) == Ring.GrownSize(|buf|, index)
        decreases index - newSize
      {
        newSize := 2 * newSize;
      }
      Ring.GrownSizeProperties(|buf|, index);
      var newBuf := Moved(item - index, newSize);
      buf := newBuf;
      mask := newSize - 1;
    }

    /** The slots of a ring of `newSize`, with the elements of the `mask + 1` numbers from `lo`
        on moved to their places in it. */
    method Moved(lo: int, newSize: nat) returns (newBuf: seq<Option<T>>)
      requires Valid() && newSize >= |buf|
      ensures newBuf == Ring.Regrown(buf, lo, newSize)
    {
      var slots := new Option<T>[newSize](_ => None);
      var i := 0;
      while i <= mask
        invariant 0 <= i <= mask + 1
        invariant Ring.PartlyMoved(buf, lo, slots[..], i)
      {
        Ring.PartlyMovedStep(buf, lo, slots[..], i);
        ghost var before := slots[..];
        var at := Ring.Slot(lo + i, newSize);
        slots[at] := buf[Ring.Slot(lo + i, mask + 1)];
        assert slots[..] == before[at := buf[Ring.Slot(lo + i, |buf|)]];
        i := i + 1;
      }
      newBuf := slots[..];
    }
  }

  // ---------------------------------------------------------------- runs

  datatype Op<T> =
    | OpPut(n: int, x: T)
    | OpTake(n: int)
    | OpEnsure(item: int, index: nat)
    | OpMove(lo: int)            // the window of live numbers now starts at `lo`

  /** A ring next to the map it should stand for. */
  datatype Pair<T> = Pair(buf: seq<Option<T>>, lo: int, m: map<int, T>)

  /** What the callers keep to: numbers of the window only, and the true start of the window
      (up to 2^16) when the ring grows. */
  predicate Legal<T>(p: Pair<T>, op: Op<T>) {
    match op
    case OpPut(n, _) => p.lo <= n < p.lo + |p.buf|
    case OpTake(n) => p.lo <= n < p.lo + |p.buf|
    case OpEnsure(item, index) => W(item - index) == W(p.lo) && index < MOD16 && p.buf != []
    case OpMove(lo) => forall n :: n in p.m ==> lo <= n < lo + |p.buf|
  }

  /** The ring only ever sees the 16-bit number. */
  function Apply<T>(p: Pair<T>, op: Op<T>): Pair<T>
    requires Legal(p, op)
  {
    match op
    case OpPut(n, x) => p.(buf := Ring.Put(p.buf, W(n), x), m := p.m[n := x])
    case OpTake(n) => p.(buf := Ring.Take(p.buf, W(n)), m := p.m - {n})
    case OpEnsure(item, index) => p.(buf := Ring.Ensure(p.buf, item, index))
    case OpMove(lo) => p.(lo := lo)
  }

  ghost predicate LegalRun<T>(p: Pair<T>, ops: seq<Op<T>>)
    decreases |ops|
  {
    ops == [] || (Legal(p, ops[0]) && LegalRun(Apply(p, ops[0]), ops[1..]))
  }

  function ApplyAll<T>(p: Pair<T>, ops: seq<Op<T>>): Pair<T>
    requires LegalRun(p, ops)
    decreases |ops|
  {
    if ops == [] then p else ApplyAll(Apply(p, ops[0]), ops[1..])
  }

  lemma ApplyAgrees<T>(p: Pair<T>, op: Op<T>)
    requires Ring.Agrees(p.buf, p.lo, p.m) && Legal(p, op)
    ensures var p' := Apply(p, op); Ring.Agrees(p'.buf, p'.lo, p'.m)
  {
    match op {
      case OpPut(n, x) => Ring.AgreesPut(p.buf, p.lo, p.m, n, x);
      case OpTake(n) => Ring.AgreesTake(p.buf, p.lo, p.m, n);
      case OpEnsure(item, index) => Ring.AgreesEnsure(p.buf, p.lo, p.m, item, index);
      case OpMove(lo) => Ring.AgreesMove(p.buf, p.lo, p.m, lo);
    }
  }

  lemma {:induction false} RunAgrees<T>(p: Pair<T>, ops: seq<Op<T>>)
    requires Ring.Agrees(p.buf, p.lo, p.m) && LegalRun(p, ops)
    ensures var p' := ApplyAll(p, ops); Ring.Agrees(p'.buf, p'.lo, p'.m)
    decreases |ops|
  {
    if ops != [] {
      ApplyAgrees(p, ops[0]);
      RunAgrees(Apply(p, ops[0]), ops[1..]);
    }
  }

  /** Ring refinement: after any legal run, growth and wrap-around included, asking the ring
      for the 16-bit form of a number of the window gives what the map has for the number. */
  lemma RingRefinesMap<T>(p: Pair<T>, ops: seq<Op<T>>, n: int)
    requires Ring.Agrees(p.buf, p.lo, p.m) && LegalRun(p, ops)
    ensures var p' := ApplyAll(p, ops);
            && (n in p'.m ==> p'.lo <= n < p'.lo + |p'.buf|)
            && (p'.lo <= n < p'.lo + |p'.buf| ==> Ring.Get(p'.buf, W(n)) == Ring.Lookup(p'.m, n))
  {
    RunAgrees(p, ops);
    var p' := ApplyAll(p, ops);
    Ring.AgreesGet(p'.buf, p'.lo, p'.m, n);
    Ring.AgreesRange(p'.buf, p'.lo, p'.m, n);
  }
}
