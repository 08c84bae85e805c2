/** One direction of a connection: what must hold between the sending side of `x`, the
    receiving side of `y`, and every packet either of them has ever sent.

    `h` records the segment behind every number `x` has used, `G` the numbers `y` has received. */
module Channel {
  import opened Serial
  import opened Protocol
  import opened Conservation
  import opened Reorder
  import Ring

  datatype Seg = Seg(typ: PacketType, payload: Bytes)

  type History = map<int, Seg>

  /** The bytes of the numbers `[lo, hi)`. */
  function Stream(h: History, lo: int, hi: int): Bytes
    decreases hi - lo
  {
    if lo >= hi then []
    else Stream(h, lo, hi - 1) + if hi - 1 in h then h[hi - 1].payload else []
  }

  /** The bytes given to `on_read`. */
  function Delivered(events: seq<Event>): Bytes {
    if events == [] then []
    else
      var last := events[|events| - 1];
      Delivered(events[..|events| - 1]) + if last.OnRead? then last.data else []
  }

  // ---------------------------------------------------------------- the sending side

  ghost predicate NumbersOk(s: SendState, h: History, first: int) {
    && first <= Head(s)
    && first < s.next
    && forall n :: n in h <==> first <= n < s.next
  }

  ghost predicate WinOk(win: map<int, OutPkt>, h: History) {
    forall n :: n in win ==>
      && n in h && h[n] == Seg(win[n].typ, win[n].payload)
      && win[n].seqNr == W(n)
      && win[n].typ != StState
  }

  predicate FrameOk(p: Packet, t: Tag, win: map<int, OutPkt>, h: History) {
    && p.seqNr == W(t.seqno)
    && (p.typ != StState ==>
          && t.seqno in h && h[t.seqno] == Seg(p.typ, p.payload)
          && p.sack == None
          && Frozen(win, t.seqno))
  }

  ghost predicate OutOk(out: seq<Packet>, tags: seq<Tag>, win: map<int, OutPkt>, h: History) {
    && |out| == |tags|
    && forall i :: 0 <= i < |out| ==> FrameOk(out[i], tags[i], win, h)
  }

  ghost predicate FinOk(s: SendState, h: History) {
    && (forall n :: n in h && h[n].typ == StFin ==> s.finSent && n == s.next - 1)
    && (s.finSent ==> s.next - 1 in h && h[s.next - 1].typ == StFin)
  }

  /** Only packets that were received have been taken off the window. */
  ghost predicate RemovedOk(win: map<int, OutPkt>, h: History, G: set<int>) {
    forall n :: n in h && n !in win ==> n in G
  }

  ghost predicate SenderSide(x: Sock, h: History, first: int, G: set<int>) {
    && NumbersOk(x.send, h, first)
    && WinOk(x.send.win, h)
    && OutOk(x.out, x.tags, x.send.win, h)
    && FinOk(x.send, h)
    && RemovedOk(x.send.win, h, G)
    && (x.send.finSentAcked ==> x.send.finSent && forall n :: n in h ==> n in G)
  }

  // ---------------------------------------------------------------- the receiving side

  /** The numbers received when `ack` is the last one in order and `m` is stored above. */
  function Received(h: History, ack: int, m: map<int, Bytes>): set<int> {
    set n | n in h && (n <= ack || n in m)
  }

  ghost predicate StoredOk(m: map<int, Bytes>, h: History) {
    forall n :: n in m ==> n in h && m[n] == h[n].payload
  }

  /** Every acknowledgement ever sent is the truth, if perhaps an old one. (The number in a SYN
      means nothing.) */
  predicate AckTruthful(p: Packet, t: Tag, ack: int, G: set<int>) {
    p.typ != StSyn ==>
      && p.ackNr == W(t.ackno)
      && t.ackno <= ack
      && (p.sack.Some? ==>
            && |p.sack.value| == 4
            && forall bit: nat | bit < 32 :: MaskBit(p.sack.value, bit) ==> t.ackno + 2 + bit in G)
  }

  ghost predicate AcksOk(out: seq<Packet>, tags: seq<Tag>, ack: int, G: set<int>) {
    && |out| == |tags|
    && forall i :: 0 <= i < |out| ==> AckTruthful(out[i], tags[i], ack, G)
  }

  /** What `y` knows of the end of the stream, when the sender has or has not ended it. */
  ghost predicate EofOk(r: RecvState, h: History, next: int, G: set<int>) {
    && (r.gotFin ==> next - 1 in h && h[next - 1].typ == StFin && r.eofPkt == W(next - 1))
    && (next - 1 in G && next - 1 in h && h[next - 1].typ == StFin ==> r.gotFin)
    && (r.gotFinReached <==> r.gotFin && r.ack == next - 1)
  }

  /** The bytes delivered are those of the numbers up to `upTo`; that is all numbers received
      in order unless the application has closed its reading side. */
  ghost predicate DeliveredOk(events: seq<Event>, shut: bool, ack: int, h: History, first: int, upTo: int) {
    && first <= upTo <= ack
    && (!shut ==> upTo == ack)
    && Delivered(events) == Stream(h, first + 1, upTo + 1)
  }

  ghost predicate RingOk(r: RecvState, h: History, first: int, next: int, m: map<int, Bytes>) {
    && first <= r.ack < next
    && Stores(r, m)
    && StoredOk(m, h)
    && EofOk(r, h, next, Received(h, r.ack, m))
  }

  ghost predicate ReceiverSide(y: Sock, h: History, first: int, next: int, m: map<int, Bytes>, upTo: int) {
    && y.state != SynSent
    && (y.recv.gotFinReached ==> OnEof in y.events)
    && RingOk(y.recv, h, first, next, m)
    && AcksOk(y.out, y.tags, y.recv.ack, Received(h, y.recv.ack, m))
    && DeliveredOk(y.events, y.recv.readShutdown, y.recv.ack, h, first, upTo)
  }

  // ---------------------------------------------------------------- together

  /** The ghost state of one direction. */
  datatype Record = Record(h: History, first: int, m: map<int, Bytes>, upTo: int, written: Bytes)

  ghost function G(y: Sock, c: Record): set<int> {
    Received(c.h, y.recv.ack, c.m)
  }

  ghost predicate ChannelInv(x: Sock, y: Sock, c: Record) {
    && SenderInv(x)
    && SenderSide(x, c.h, c.first, G(y, c))
    && ReceiverSide(y, c.h, c.first, x.send.next, c.m, c.upTo)
    && (forall n :: n in G(y, c) ==> Frozen(x.send.win, n))
    && c.written == Stream(c.h, c.first + 1, x.send.next)
  }

  /** Everything below the head of the sender's window has been received. */
  lemma HeadReceived(s: SendState, h: History, first: int, r: RecvState, m: map<int, Bytes>)
    requires NumbersOk(s, h, first) && RemovedOk(s.win, h, Received(h, r.ack, m))
    requires (forall n :: n in s.win ==> Head(s) <= n) && r.ack + 1 !in m && first <= r.ack
    ensures Head(s) <= r.ack + 1
  {
    assert r.ack + 1 !in Received(h, r.ack, m);
  }

  lemma {:induction false} StreamAgrees(h: History, h': History, lo: int, hi: int)
    requires forall n :: lo <= n < hi ==> Ring.Lookup(h, n) == Ring.Lookup(h', n)
    ensures Stream(h, lo, hi) == Stream(h', lo, hi)
    decreases hi - lo
  {
    if lo < hi {
      assert Ring.Lookup(h, hi - 1) == Ring.Lookup(h', hi - 1);
      StreamAgrees(h, h', lo, hi - 1);
    }
  }

  lemma {:induction false} StreamPrefix(h: History, lo: int, mid: int, hi: int)
    requires lo <= mid <= hi
    ensures Stream(h, lo, mid) <= Stream(h, lo, hi)
    decreases hi - mid
  {
    if mid < hi {
      StreamPrefix(h, lo, mid, hi - 1);
    }
  }

  /** So what the sender sends is always less than 1,024 above what the receiver has. */
  lemma FreshDataIsNear(x: Sock, y: Sock, c: Record)
    requires ChannelInv(x, y, c)
    ensures Head(x.send) <= y.recv.ack + 1
    ensures forall n :: n in c.h && n > y.recv.ack ==> n - y.recv.ack - 1 < REORDER_BUFFER_MAX_SIZE
    ensures x.send.next - y.recv.ack <= 1025
  {
    HeadReceived(x.send, c.h, c.first, y.recv, c.m);
  }

  /** The safety property: what was delivered is a prefix of what was written. */
  lemma DeliveredIsPrefix(x: Sock, y: Sock, c: Record)
    requires ChannelInv(x, y, c)
    ensures Delivered(y.events) <= c.written
  {
    PrefixOfStream(y.events, y.recv.readShutdown, y.recv.ack, c.h, c.first, c.upTo, x.send.next);
  }

  lemma PrefixOfStream(events: seq<Event>, shut: bool, ack: int, h: History, first: int, upTo: int, next: int)
    requires DeliveredOk(events, shut, ack, h, first, upTo) && ack < next
    ensures Delivered(events) <= Stream(h, first + 1, next)
  {
    StreamPrefix(h, first + 1, upTo + 1, next);
  }

  /** At the end of the stream, with the reading side still open, it is all of it. */
  lemma EofIsComplete(x: Sock, y: Sock, c: Record)
    requires ChannelInv(x, y, c) && y.recv.gotFinReached && !y.recv.readShutdown
    ensures Delivered(y.events) == c.written && x.send.finSent
  {
    EofIsLast(y.recv, c.h, c.first, x.send.next, c.m);
    assert c.upTo == x.send.next - 1;
  }

  lemma EofIsLast(r: RecvState, h: History, first: int, next: int, m: map<int, Bytes>)
    requires RingOk(r, h, first, next, m) && r.gotFinReached
    ensures r.ack == next - 1 && next - 1 in h && h[next - 1].typ == StFin
  {
  }

  /** Once the end of the stream has been acknowledged the receiver has reached it. */
  lemma FinAckedIsReached(x: Sock, y: Sock, c: Record)
    requires ChannelInv(x, y, c) && x.send.finSentAcked
    ensures y.recv.gotFinReached && OnEof in y.events
  {
    FinReceivedIsReached(x.send, c.h, c.first, y.recv, c.m);
  }

  lemma FinReceivedIsReached(s: SendState, h: History, first: int, r: RecvState, m: map<int, Bytes>)
    requires NumbersOk(s, h, first) && FinOk(s, h) && s.finSent
    requires forall n :: n in h ==> n in Received(h, r.ack, m)
    requires r.ack + 1 !in m && first <= r.ack < s.next
    requires EofOk(r, h, s.next, Received(h, r.ack, m))
    ensures r.gotFinReached
  {
    assert s.next - 1 in Received(h, r.ack, m);
    assert r.ack + 1 !in Received(h, r.ack, m);
  }
}
