/** Sequence numbers and timestamps that wrap around.

    The sockets count packets modulo 2^16 and microseconds modulo 2^32. The proofs count
    packets with unbounded integers and relate the two through `W`. */
module Serial {

  type Byte = b: int | 0 <= b < 0x100
  type U16 = n: int | 0 <= n < 0x1_0000
  type U32 = n: int | 0 <= n < 0x1_0000_0000

  datatype Option<+T> = None | Some(value: T)

  const MOD16: int := 0x1_0000
  const MOD32: int := 0x1_0000_0000

  /** `n & SEQ_NR_MASK`: what a 16-bit field holds of the unbounded number `n`. */
  function W(n: int): U16 {
    n % 0x1_0000
  }

  /** `n & TIMESTAMP_MASK`. */
  function W32(n: int): U32 {
    n % 0x1_0000_0000
  }

  /** Distances do not depend on which of the numbers have already been wrapped. */
  lemma WDistance(a: int, b: int)
    ensures W(a - b) == W(W(a) - b) == W(a - W(b)) == W(W(a) - W(b))
  {
    var qa, qb := a / MOD16, b / MOD16;
    WShift(W(a) - W(b), qa - qb);
    WShift(W(a) - b, qa);
    WShift(W(a) - W(b), -qb);
  }

  lemma WShift(n: int, turns: int)
    ensures W(n + 0x1_0000 * turns) == W(n)
  {
  }

  lemma WNegate(n: int)
    ensures W(-n) == if W(n) == 0 then 0 else MOD16 - W(n)
  {
    var q := n / MOD16;
    WShift(0 - W(n), 0 - q);
  }

  lemma WSmall(n: int)
    ensures 0 <= n < MOD16 ==> W(n) == n
    ensures -MOD16 <= n < 0 ==> W(n) == n + MOD16
  {
  }

  /** `wrapping_compare_less` with `mask == modulus - 1`: walking up from `lhs` to `rhs` is
      shorter than walking down. */
  predicate WrappingLess(lhs: int, rhs: int, modulus: int)
    requires modulus > 0
  {
    (rhs - lhs) % modulus < (lhs - rhs) % modulus
  }

  /** The "less than" of section 3.2 of RFC 1982 on numbers below `2 * half`. */
  predicate Rfc1982Less(i1: int, i2: int, half: int) {
    || (i1 < i2 && i2 - i1 < half)
    || (i1 > i2 && i1 - i2 > half)
  }

  lemma WrappingLessIsRfc1982(lhs: U16, rhs: U16)
    ensures WrappingLess(lhs, rhs, MOD16) <==> Rfc1982Less(lhs, rhs, 0x8000)
  {
    if lhs < rhs {
      assert (lhs - rhs) % MOD16 == lhs - rhs + MOD16;
    } else if rhs < lhs {
      assert (rhs - lhs) % MOD16 == rhs - lhs + MOD16;
    }
  }

  lemma WrappingLess32IsRfc1982(lhs: U32, rhs: U32)
    ensures WrappingLess(lhs, rhs, MOD32) <==> Rfc1982Less(lhs, rhs, 0x8000_0000)
  {
    if lhs < rhs {
      assert (lhs - rhs) % MOD32 == lhs - rhs + MOD32;
    } else if rhs < lhs {
      assert (rhs - lhs) % MOD32 == rhs - lhs + MOD32;
    }
  }

  /** Within half the range the wrapping order is the order of the unbounded numbers. */
  lemma WrappingLessWithinHalf(a: int, b: int)
    requires -0x8000 < b - a < 0x8000
    ensures WrappingLess(W(a), W(b), MOD16) <==> a < b
  {
    assert (W(b) - W(a)) % MOD16 == (b - a) % MOD16;
    assert (W(a) - W(b)) % MOD16 == (a - b) % MOD16;
  }

  lemma WrappingLess32WithinHalf(a: int, b: int)
    requires -0x8000_0000 < b - a < 0x8000_0000
    ensures WrappingLess(W32(a), W32(b), MOD32) <==> a < b
  {
    assert (W32(b) - W32(a)) % MOD32 == (b - a) % MOD32;
    assert (W32(a) - W32(b)) % MOD32 == (a - b) % MOD32;
  }

  /** At exactly half the range neither number is less: the relation is not total. */
  lemma WrappingLessUndefinedAtHalf(a: U16)
    ensures !WrappingLess(a, W(a + 0x8000), MOD16) && !WrappingLess(W(a + 0x8000), a, MOD16)
  {
    var b := W(a + 0x8000);
    assert (b - a) % MOD16 == 0x8000 && (a - b) % MOD16 == 0x8000;
  }

  const ACK_NR_ALLOWED_WINDOW := 3

  /** The acknowledgement check of `process_incoming`: neither ahead of the last number sent
      nor more than the window (plus three) behind it. */
  predicate AckAcceptable(seqNr: U16, curWindowPackets: nat, ackNr: U16) {
    var currWindow := if W(curWindowPackets + ACK_NR_ALLOWED_WINDOW) > ACK_NR_ALLOWED_WINDOW
                      then W(curWindowPackets + ACK_NR_ALLOWED_WINDOW)
                      else ACK_NR_ALLOWED_WINDOW;
    && !WrappingLess(seqNr - 1, ackNr, MOD16)
    && !WrappingLess(ackNr, seqNr - 1 - currWindow, MOD16)
  }

  /** How many packets of the window an acknowledgement number covers; stale ones cover none. */
  function AckCount(seqNr: U16, curWindowPackets: nat, ackNr: U16): nat {
    var acks := W(ackNr - (seqNr - 1 - curWindowPackets));
    if acks > curWindowPackets then 0 else acks
  }

  /** Not less means: less than half the range, or exactly half, behind. */
  lemma NotLessExact(lhs: int, rhs: int)
    ensures !WrappingLess(lhs, rhs, MOD16) <==> W(lhs - rhs) <= 0x8000
  {
    WNegate(lhs - rhs);
    assert W(rhs - lhs) == W(-(lhs - rhs));
  }

  /** The check accepts exactly the numbers in `[seqNr-1-(curWindowPackets+3), seqNr-1]`. */
  lemma AckWindowExact(seqNr: U16, curWindowPackets: nat, ackNr: U16)
    requires curWindowPackets <= 1024
    ensures AckAcceptable(seqNr, curWindowPackets, ackNr)
       <==> W(seqNr - 1 - ackNr) <= curWindowPackets + ACK_NR_ALLOWED_WINDOW
  {
    var x := W(seqNr - 1 - ackNr);
    var cw := curWindowPackets + ACK_NR_ALLOWED_WINDOW;
    WSmall(cw);
    NotLessExact(seqNr - 1, ackNr);
    NotLessExact(ackNr, seqNr - 1 - cw);
    assert W(ackNr - (seqNr - 1 - cw)) == W(cw - x) by {
      WDistance(cw, seqNr - 1 - ackNr);
      assert cw - (seqNr - 1 - ackNr) == ackNr - (seqNr - 1 - cw);
    }
    WSmall(cw - x);
  }

  /** With the true numbers at hand: an acknowledgement of `ackno`, less than 65,536 behind,
      that passes the check covers exactly the window packets up to `ackno`. */
  lemma AckCountExact(next: int, curWindowPackets: nat, ackno: int)
    requires curWindowPackets <= 1024
    requires next - 1 - MOD16 < ackno < next
    requires AckAcceptable(W(next), curWindowPackets, W(ackno))
    ensures next - 1 - ackno <= curWindowPackets + ACK_NR_ALLOWED_WINDOW
    ensures var head := next - curWindowPackets;
            AckCount(W(next), curWindowPackets, W(ackno)) == if ackno < head then 0 else ackno - head + 1
  {
    AckWindowExact(W(next), curWindowPackets, W(ackno));
    assert W(W(next) - 1 - W(ackno)) == next - 1 - ackno by {
      WDistance(next - 1, ackno);
      WDistance(next, W(ackno) + 1);
      WSmall(next - 1 - ackno);
    }
    assert W(W(ackno) - (W(next) - 1 - curWindowPackets)) == W(ackno - (next - 1 - curWindowPackets)) by {
      WDistance(ackno, next - 1 - curWindowPackets);
      WDistance(W(ackno) + 1 + curWindowPackets, next);
    }
    WSmall(ackno - (next - 1 - curWindowPackets));
  }
}
