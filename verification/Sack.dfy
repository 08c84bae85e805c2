/** Selective acknowledgements, from the mask `send_ack` builds to the packets
    `selective_ack` takes off the window. */
module Sack {
  import opened Serial
  import opened Protocol
  import opened Conservation
  import Ring

  // ---------------------------------------------------------------- the mask

  lemma {:induction false} MaskOfBit(bits: seq<bool>, i: nat)
    ensures NatBit(MaskOf(bits), i) <==> i < |bits| && bits[i]
    decreases |bits| + i
  {
    if bits == [] {
      NoBits(i);
    } else {
      var rest := MaskOf(bits[1..]);
      assert MaskOf(bits) / 2 == rest;
      if i > 0 {
        MaskOfBit(bits[1..], i - 1);
      }
    }
  }

  lemma {:induction false} NoBits(i: nat)
    ensures !NatBit(0, i)
  {
    if i > 0 {
      NoBits(i - 1);
    }
  }

  lemma {:induction false} NatBitLow(m: nat, t: nat, i: nat)
    requires i < t
    ensures Ring.Pow2(t) > 0 && NatBit(m % Ring.Pow2(t), i) == NatBit(m, i)
    decreases t
  {
    Ring.Pow2Monotone(0, t);
    Ring.Pow2Monotone(0, t - 1);
    HalfOfMod(m, Ring.Pow2(t - 1));
    if i > 0 {
      NatBitLow(m / 2, t - 1, i - 1);
    }
  }

  lemma HalfOfMod(m: nat, p: nat)
    requires p > 0
    ensures m % (2 * p) / 2 == m / 2 % p
    ensures m % (2 * p) % 2 == m % 2
  {
    var q, r := m / (2 * p), m % (2 * p);
    assert m == 2 * (p * q) + r by { assert 2 * p * q == 2 * (p * q); }
    Ring.ModUnique(m / 2, p, q, r / 2);
  }

  lemma NatBitOfByte(m: nat, i: nat)
    requires i < 8
    ensures NatBit(m % 0x100, i) == NatBit(m, i)
  {
    assert Ring.Pow2(8) == 0x100 by { assert Ring.Pow2(4) == 16; }
    NatBitLow(m, 8, i);
  }

  lemma NatBitSkipByte(m: nat, i: nat)
    ensures NatBit(m / 0x100, i) == NatBit(m, i + 8)
  {
    var m4 := m / 2 / 2 / 2 / 2;
    assert NatBit(m, i + 8) == NatBit(m / 2, i + 7) == NatBit(m / 2 / 2, i + 6)
        == NatBit(m / 2 / 2 / 2, i + 5) == NatBit(m4, i + 4);
    assert NatBit(m4, i + 4) == NatBit(m4 / 2, i + 3) == NatBit(m4 / 2 / 2, i + 2)
        == NatBit(m4 / 2 / 2 / 2, i + 1) == NatBit(m4 / 2 / 2 / 2 / 2, i);
    assert m4 / 2 / 2 / 2 / 2 == m / 0x100;
  }

  lemma {:induction false} ByteAtBit(m: nat, j: nat, i: nat)
    requires i < 8
    ensures NatBit(ByteAt(m, j), i) == NatBit(m, 8 * j + i)
    decreases j
  {
    if j == 0 {
      NatBitOfByte(m, i);
    } else {
      ByteAtBit(m / 0x100, j - 1, i);
      NatBitSkipByte(m, 8 * (j - 1) + i);
    }
  }

  lemma MaskBytesBit(m: nat, i: nat)
    requires i < 32
    ensures MaskBit(MaskBytes(m), i) == NatBit(m, i)
  {
    var j, b := i / 8, i % 8;
    ByteAtBit(m, j, b);
    assert MaskBytes(m)[j] == ByteAt(m, j);
  }

  /** Bit `i` of the four bytes on the wire is bit `i` of the list they were made from. */
  lemma MaskRoundTrip(bits: seq<bool>, i: nat)
    requires i < 32
    ensures MaskBit(MaskBytes(MaskOf(bits)), i) <==> i < |bits| && bits[i]
  {
    MaskOfBit(bits, i);
    MaskBytesBit(MaskOf(bits), i);
  }

  // ---------------------------------------------------------------- what a mask takes off the window

  /** Does the mask that starts at `base` acknowledge `n`, looking at its bits up to `top`? */
  predicate Covers(base: int, mask: Mask, top: int, n: int) {
    var bit := W(n - base);
    bit <= top && bit < 8 * |mask| && MaskBit(mask, bit)
  }

  predicate TakenOff(s: SendState, base: int, mask: Mask, top: int, n: int) {
    n in s.win && n != Head(s) && s.win[n].transmissions > 0 && Covers(base, mask, top, n)
  }

  /** The window without the packets the mask acknowledges. */
  function Without(s: SendState, base: int, mask: Mask, top: int): map<int, OutPkt> {
    map n | n in s.win && !TakenOff(s, base, mask, top, n) :: s.win[n]
  }

  /** All that matters here of the sender's invariant. */
  ghost predicate Within(s: SendState) {
    s.count <= 1024 && forall n :: n in s.win ==> Head(s) <= n < s.next
  }

  lemma SackNumberExact(s: SendState, base: int, bits: int, n: int)
    requires s.count <= 1024 && Head(s) <= n < s.next && -1 <= bits < MOD16 - 1
    ensures SackNumber(s, base, bits) == Some(n) <==> n != Head(s) && W(n - base) == W(bits)
  {
    var off := W(s.next - (base + bits) - 1);
    WSmall(s.next - 1 - n);
    if W(n - base) == W(bits) {
      assert W(s.next - (base + bits) - 1) == W(s.next - 1 - n) by {
        WDistance(s.next - 1 - base, bits);
        WDistance(s.next - 1 - base, n - base);
      }
    }
    if off == s.next - 1 - n {
      assert W(n - base) == W(bits) by {
        var x := s.next - (base + bits) - 1;
        WShift(bits, x / MOD16);
        assert bits + MOD16 * (x / MOD16) == n - base;
      }
    }
  }

  lemma SackVisitTakesOff(c: Scan, base: int, mask: Mask, bits: int, env: Env)
    requires Within(c.sock.send) && -1 <= bits < 8 * |mask| && 8 * |mask| < MOD16
    ensures var s, s' := c.sock.send, SackVisit(c, base, mask, bits, env).sock.send;
            && s'.win.Keys == set n | n in s.win && !(TakenOff(s, base, mask, bits, n) && W(n - base) == W(bits))
            && (forall n :: n in s'.win ==> s'.win[n] == s.win[n])
            && s' == s.(win := s'.win)
  {
    var s, s' := c.sock.send, SackVisit(c, base, mask, bits, env).sock.send;
    WSmall(bits);
    forall n | n in s.win
      ensures n in s'.win <==> !(TakenOff(s, base, mask, bits, n) && W(n - base) == W(bits))
    {
      SackNumberExact(s, base, bits, n);
    }
  }

  /** Scanning the bits from `bits` down takes off exactly the packets they acknowledge: the
      sent ones of the window above its head. */
  lemma {:induction false} SackScanTakesOff(c: Scan, base: int, mask: Mask, bits: int, env: Env)
    requires Within(c.sock.send) && -2 <= bits < 8 * |mask| && 8 * |mask| < MOD16
    ensures var s := c.sock.send;
            SackScan(c, base, mask, bits, env).sock.send == s.(win := Without(s, base, mask, bits))
    decreases bits + 2
  {
    var s := c.sock.send;
    if bits == -2 {
      assert Without(s, base, mask, bits) == s.win;
    } else {
      var c1 := SackVisit(c, base, mask, bits, env);
      SackVisitTakesOff(c, base, mask, bits, env);
      SackScanTakesOff(c1, base, mask, bits - 1, env);
      WithoutStep(s, c1.sock.send, base, mask, bits);
    }
  }

  lemma WithoutStep(s: SendState, s': SendState, base: int, mask: Mask, bits: int)
    requires -1 <= bits < 8 * |mask| && 8 * |mask| < MOD16
    requires s' == s.(win := s'.win)
    requires s'.win.Keys == set n | n in s.win && !(TakenOff(s, base, mask, bits, n) && W(n - base) == W(bits))
    requires forall n :: n in s'.win ==> s'.win[n] == s.win[n]
    ensures Without(s', base, mask, bits - 1) == Without(s, base, mask, bits)
  {
    WSmall(bits);
    forall n | n in s.win
      ensures n in Without(s', base, mask, bits - 1) <==> n in Without(s, base, mask, bits)
    {
      assert n in s'.win <==> !(TakenOff(s, base, mask, bits, n) && W(n - base) == W(bits));
    }
  }

  lemma {:induction false} ResendLastSameKeys(k: Sock, resends: seq<U16>, budget: nat)
    ensures ResendLast(k, resends, budget).send.win.Keys == k.send.win.Keys
    ensures ResendLast(k, resends, budget).send == k.send.(win := ResendLast(k, resends, budget).send.win)
    decreases |resends|
  {
    if resends != [] && budget != 0 {
      var v := resends[|resends| - 1];
      var rest := resends[..|resends| - 1];
      var n := if k.send.ringSize == 0 then v else Ring.Alias(v, Head(k.send), k.send.ringSize);
      if n in k.send.win {
        ResendLastSameKeys(ResendOne(k, v, n), rest, budget - 1);
      } else {
        ResendLastSameKeys(k, rest, budget);
      }
    }
  }

  /** `selective_ack` removes exactly the sent packets of the window above its head whose bit is
      set; nothing else leaves, nothing is added. A mask is at most 255 bytes. */
  lemma SelectiveAckExact(k: Sock, base: int, mask: Mask, env: Env)
    requires SenderInv(k) && |mask| <= 255
    ensures var s' := SelectiveAck(k, base, mask, env).send;
            && s'.next == k.send.next && s'.count == k.send.count
            && s'.win.Keys == set n | n in k.send.win && !TakenOff(k.send, base, mask, 8 * |mask|, n)
  {
    var top := 8 * |mask| - 1;
    var s := k.send;
    if s.count != 0 {
      SackScanTakesOff(Scan(k, 0, []), base, mask, top, env);
      var c := SackScan(Scan(k, 0, []), base, mask, top, env);
      ResendLastSameKeys(c.sock, SackCandidates(c, base), MAX_RESENDS);
      assert forall n :: TakenOff(s, base, mask, top, n) == TakenOff(s, base, mask, 8 * |mask|, n);
    }
  }
}
