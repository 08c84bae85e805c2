/** A selective acknowledgement from the receiver's ring to the sender's window. */
module SackRoundTrip {
  import opened Serial
  import opened Protocol
  import opened Conservation
  import opened Sack
  import opened Reorder
  import Wire

  /** Does the mask of `y` acknowledge the number `n`? It names what is stored among the first 30
      numbers (or the ring's size, if that is less) above the gap. */
  predicate Named(r: RecvState, m: map<int, Bytes>, n: int) {
    n in m && r.ack + 2 <= n < r.ack + 2 + Min(SACK_BITS, |r.inbuf|)
  }

  function LastPacket(k: Sock): Packet
    requires k.out != []
  {
    k.out[|k.out| - 1]
  }

  /** Bit `i` of the mask that is sent is set exactly when `ack + 2 + i` is stored. */
  lemma BitIsStored(r: RecvState, m: map<int, Bytes>, i: nat)
    requires Stores(r, m) && SackOf(r).Some? && i < 32
    ensures |SackOf(r).value| == 4 && MaskBit(SackOf(r).value, i) == Named(r, m, r.ack + 2 + i)
  {
    MaskRoundTrip(SackBits(r), i);
    if i < Min(SACK_BITS, |r.inbuf|) {
      SackBitsExact(r, m, i);
    }
  }

  lemma CoversIsNamed(r: RecvState, m: map<int, Bytes>, mask: Mask, n: int)
    requires Stores(r, m) && SackOf(r) == Some(mask) && -64512 < n - r.ack < 64512
    ensures |mask| == 4 && Covers(W(r.ack) + 2, mask, 32, n) == Named(r, m, n)
  {
    var bit := W(n - (W(r.ack) + 2));
    assert bit == W(n - r.ack - 2) by {
      WDistance(n - 2, r.ack);
    }
    WSmall(n - r.ack - 2);
    BitIsStored(r, m, 0);
    if bit < 32 {
      BitIsStored(r, m, bit);
    }
  }

  /** The round trip: the acknowledgement `y` sends is parsed back unchanged, and `x` takes off
      its window exactly the sent packets above the head that `y` has stored, as far as the mask
      reaches, and no others. */
  lemma SackRoundTrip(y: Sock, m: map<int, Bytes>, x: Sock, env: Env, env': Env)
    requires Stores(y.recv, m) && y.recv.reorderCount != 0 && !y.recv.gotFinReached && env.rcvWindow < MOD32
    requires SenderInv(x) && -62000 < x.send.next - y.recv.ack < 64512
    ensures var p := LastPacket(SendAck(y, env));
            && Wire.Parse(Wire.Serialize(p)) == Some(p)
            && p.sack.Some?
            && SelectiveAck(x, p.ackNr + 2, p.sack.value, env').send.win.Keys
               == set n | n in x.send.win && !(n != Head(x.send) && x.send.win[n].transmissions > 0
                 && Named(y.recv, m, n))
  {
    var p := LastPacket(SendAck(y, env));
    var mask := SackOf(y.recv).value;
    BitIsStored(y.recv, m, 0);
    Wire.PacketRoundTrip(p);
    SelectiveAckExact(x, W(y.recv.ack) + 2, mask, env');
    forall n | n in x.send.win
      ensures Covers(W(y.recv.ack) + 2, mask, 8 * |mask|, n) == Named(y.recv, m, n)
    {
      CoversIsNamed(y.recv, m, mask, n);
    }
  }
}
