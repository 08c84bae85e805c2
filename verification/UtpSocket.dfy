/** `UtpSocket` as the library runs it: 16-bit fields, two rings, loops over the window and over
    the slots.

    The ghost fields hold the unbounded numbers behind `seqNr` and `ackNr` and the packets the
    outgoing ring stands for. `Abs` is the socket as a value; every method is proved to do to it
    exactly what the function of the same name in module Protocol says, so what is proved of
    those functions, over runs and over the network, is true of this class. */
module Socket {
  import opened Serial
  import opened Protocol
  import opened Conservation
  import opened SequenceBuffer
  import Reorder
  import Ring

  const UTP_IOV_MAX := 1024

  /** The bytes of a scatter/gather list, in order. */
  function Flatten(iov: seq<Bytes>): Bytes {
    if iov == [] then [] else iov[0] + Flatten(iov[1..])
  }

  class UtpSocket {
    var state: ConnState

    // the receiving side
    var ackNr: U16
    var reorderCount: nat
    var eofPkt: U16
    var gotFin: bool
    var gotFinReached: bool
    var readShutdown: bool
    var lastRcvWin: nat
    const inbuf: SequenceBuffer<Bytes>

    // the sending side
    var seqNr: U16
    var curWindowPackets: U16
    var finSent: bool
    var finSentAcked: bool
    var closeRequested: bool
    var maxWindowUser: nat
    var flushScanStart: U16
    const outbuf: SequenceBuffer<OutPkt>

    // timers and congestion control
    var curWindow: int
    var retransmitCount: nat
    var retransmitTimeout: nat
    var fastTimeout: bool
    var fastResendSeqNr: U16

    // is the socket in the list of deferred acknowledgements?
    var ackPending: bool

    // what was handed to `sendto` and to the application's callbacks
    var out: seq<Packet>
    var events: seq<Event>

    ghost var next: int
    ghost var ack: int
    ghost var win: map<int, OutPkt>
    ghost var tags: seq<Tag>

    /** The fields say what the ghost fields say, modulo 2^16 and slot by slot. */
    ghost predicate Wired()
      reads this, inbuf, outbuf
    {
      && (inbuf as object) != (outbuf as object)
      && inbuf.Valid() && outbuf.Valid()
      && Ring.RingSize(|inbuf.buf|)
      && seqNr == W(next) && ackNr == W(ack)
      && curWindowPackets <= |outbuf.buf|
      && Ring.Agrees(outbuf.buf, next - curWindowPackets, win)
    }

    ghost function Abs(): Sock
      reads this, inbuf, outbuf
    {
      Sock(state,
           SendState(next, curWindowPackets, |outbuf.buf|, win, finSent, finSentAcked, closeRequested,
                     maxWindowUser, flushScanStart),
           RecvState(ack, reorderCount, eofPkt, gotFin, gotFinReached, readShutdown, lastRcvWin, inbuf.buf),
           Control(curWindow, retransmitCount, retransmitTimeout, fastTimeout, fastResendSeqNr),
           ackPending, out, tags, events)
    }

    /** What the callers of the public operations rely on and get back. */
    ghost predicate Valid()
      reads this, inbuf, outbuf
    {
      Wired() && SenderInv(Abs())
    }

    constructor ()
      ensures Valid() && Abs() == Fresh().(state := Uninitialized)
      ensures fresh(inbuf) && fresh(outbuf)
    {
      state := Uninitialized;
      ackNr, reorderCount, eofPkt, gotFin, gotFinReached, readShutdown, lastRcvWin := 0, 0, 0, false, false, false, 0;
      seqNr, curWindowPackets, finSent, finSentAcked, closeRequested := 1, 0, false, false, false;
      maxWindowUser, flushScanStart := 255 * PACKET_SIZE, 1;
      curWindow, retransmitCount, retransmitTimeout, fastTimeout, fastResendSeqNr := 0, 0, 0, false, 1;
      ackPending, out, events := false, [], [];
      next, ack, win, tags := 1, 0, map[], [];
      inbuf := new SequenceBuffer(16);
      outbuf := new SequenceBuffer(16);
      new;
      Ring.FreshAgrees<OutPkt>(1);
    }

    // -------------------------------------------------------------- sending packets

    ghost predicate SharesSlot(nr: int, n: int)
      reads outbuf
    {
      outbuf.buf != [] && Ring.Slot(nr, |outbuf.buf|) == Ring.Slot(n, |outbuf.buf|)
    }

    /** `pkt` is found in the slot of `nr`, where the ring keeps the packet of number `n`. */
    method SendPacket(nr: int, pkt: OutPkt, ghost n: int)
      requires Wired() && SharesSlot(nr, n) && n in win && win[n] == pkt
      modifies this, outbuf
      ensures Wired() && Abs() == Protocol.SendPacket(old(Abs()), n)
    {
      if pkt.transmissions == 0 || pkt.needResend {
        AddInFlight(|pkt.payload|);
      }
      Ring.AgreesRange(outbuf.buf, next - curWindowPackets, win, n);
      StorePacket(nr, pkt.(needResend := false, transmissions := pkt.transmissions + 1), n);
      SendTo(Packet(pkt.typ, pkt.seqNr, ackNr, pkt.windowSize, None, pkt.payload), n);
    }

    // what the congestion controller and the callbacks are told

    method AddInFlight(bytes: nat)
      requires Wired()
      modifies this`curWindow
      ensures Wired() && Abs() == old(Abs()).(ctl := old(Abs()).ctl.(curWindow := old(curWindow) + bytes))
    {
      curWindow := curWindow + bytes;
    }

    method RemoveInFlight(bytes: nat)
      requires Wired()
      modifies this`curWindow
      ensures Wired() && Abs() == old(Abs()).(ctl := old(Abs()).ctl.(curWindow := old(curWindow) - bytes))
    {
      curWindow := curWindow - bytes;
    }

    method SetRetransmit(count: nat, timeout: nat)
      requires Wired()
      modifies this`retransmitCount, this`retransmitTimeout
      ensures Wired()
      ensures Abs() == old(Abs()).(ctl := old(Abs()).ctl.(retransmitCount := count, retransmitTimeout := timeout))
    {
      retransmitCount, retransmitTimeout := count, timeout;
    }

    method SetFastResend(nr: U16)
      requires Wired()
      modifies this`fastResendSeqNr
      ensures Wired() && Abs() == old(Abs()).(ctl := old(Abs()).ctl.(fastResend := nr))
    {
      fastResendSeqNr := nr;
    }

    method NoteRcvWindow(window: nat)
      requires Wired()
      modifies this`lastRcvWin
      ensures Wired() && Abs() == old(Abs()).(recv := old(Abs()).recv.(lastRcvWin := window))
    {
      lastRcvWin := window;
    }

    method Tell(e: Event)
      requires Wired()
      modifies this`events
      ensures Wired() && Abs() == Report(old(Abs()), e)
    {
      events := events + [e];
    }

    method EnterState(s: ConnState)
      requires Wired()
      modifies this`state
      ensures Wired() && Abs() == old(Abs()).(state := s)
    {
      state := s;
    }

    /** Put a packet under a number of the window. */
    method StorePacket(nr: int, pkt: OutPkt, ghost n: int)
      requires Wired() && SharesSlot(nr, n) && next - curWindowPackets <= n < next - curWindowPackets + |outbuf.buf|
      modifies this`win, outbuf
      ensures Wired() && Abs() == old(Abs()).(send := old(Abs()).send.(win := old(win)[n := pkt]))
    {
      Ring.AgreesPut(outbuf.buf, next - curWindowPackets, win, n, pkt);
      outbuf.Put(nr, pkt);
      win := win[n := pkt];
    }

    /** Every datagram also carries the acknowledgement, so none needs to follow. */
    method SendTo(p: Packet, ghost seqno: int)
      requires Wired()
      modifies this`out, this`tags, this`ackPending
      ensures Wired()
      ensures Abs() == old(Abs()).(ackPending := false, out := old(out) + [p], tags := old(tags) + [Tag(seqno, ack)])
    {
      out := out + [p];
      tags := tags + [Tag(seqno, ack)];
      ackPending := false;
    }

    method IsFull(bytes: int, env: Env) returns (full: bool)
      ensures full == Protocol.IsFull(Abs(), bytes, env)
    {
      var size := bytes;
      if bytes < 0 {
        size := env.packetSize;
      } else if bytes > env.packetSize {
        size := env.packetSize;
      }
      var maxSend := Min(env.windowLimit, maxWindowUser);
      if curWindowPackets >= OUTGOING_BUFFER_MAX_SIZE - 1 {
        return true;
      }
      full := curWindow + size > maxSend;
    }

    /** What the outgoing ring answers for the 16-bit form of a number of the window. */
    lemma OutbufHolds(nr: int, n: int)
      requires Wired() && W(nr) == W(n) && next - curWindowPackets <= n < next - curWindowPackets + |outbuf.buf|
      ensures SharesSlot(nr, n) && Ring.Get(outbuf.buf, nr) == Ring.Lookup(win, n)
    {
      Ring.SameSlot(nr, n, |outbuf.buf|);
      Ring.AgreesGet(outbuf.buf, next - curWindowPackets, win, n);
    }

    /** One number of the scan: skip it, stop at it, send it, or hold it back to be filled up. */
    method FlushVisit(i: U16, inPrefix: bool, ghost left: nat, env: Env) returns (full: bool, inPrefix': bool)
      requires Wired() && 0 < left <= curWindowPackets && i == W(next - left)
      modifies this, outbuf
      ensures Wired() && next == old(next) && curWindowPackets == old(curWindowPackets)
      ensures FlushScan(old(Abs()), left, inPrefix, env)
           == if full then (Abs(), true) else FlushScan(Abs(), left - 1, inPrefix', env)
    {
      OutbufHolds(i, next - left);
      var pkt := outbuf.Get(i);
      if pkt == None || (pkt.value.transmissions > 0 && !pkt.value.needResend) {
        ghost var k := Abs();
        FlushSkip(i, inPrefix, next - left);
        FlushSkips(k, left, inPrefix, env, Abs());
        full, inPrefix' := false, inPrefix;
      } else {
        full, inPrefix' := FlushUnsettled(i, pkt.value, inPrefix, left, env);
      }
    }

    method FlushSkip(i: U16, inPrefix: bool, ghost n: int)
      requires Wired() && i == W(n)
      modifies this`flushScanStart
      ensures Wired() && Abs() == WithCursor(old(Abs()), if inPrefix then W(n + 1) else old(flushScanStart))
    {
      if inPrefix {
        WDistance(n, -1);
        flushScanStart := W(i + 1);
      }
    }

    method FlushUnsettled(i: U16, pkt: OutPkt, inPrefix: bool, ghost left: nat, env: Env)
      returns (full: bool, inPrefix': bool)
      requires Wired() && 0 < left <= curWindowPackets && i == W(next - left) && SharesSlot(i, next - left)
      requires next - left in win && pkt == win[next - left] && !Settled(win, next - left)
      modifies this, outbuf
      ensures Wired() && next == old(next) && curWindowPackets == old(curWindowPackets)
      ensures FlushScan(old(Abs()), left, inPrefix, env)
           == if full then (Abs(), true) else FlushScan(Abs(), left - 1, inPrefix', env)
    {
      CursorNext(next, left);
      inPrefix' := inPrefix;
      full := IsFull(-1, env);
      if full {
        return;
      }
      if i != W(seqNr - 1) || curWindowPackets == 1 || |pkt.payload| >= env.packetSize {
        ghost var k := Abs();
        FlushSend(i, pkt, inPrefix, next - left);
        FlushSends(k, left, inPrefix, env, Abs());
      } else {
        inPrefix' := false;
      }
    }

    method FlushSend(i: U16, pkt: OutPkt, inPrefix: bool, ghost n: int)
      requires Wired() && SharesSlot(i, n) && n in win && win[n] == pkt && i == W(n)
      modifies this, outbuf
      ensures Wired()
      ensures var cursor := if inPrefix then W(n + 1) else old(flushScanStart);
              Abs() == WithCursor(Protocol.SendPacket(old(Abs()), n), cursor)
    {
      SendPacket(i, pkt, n);
      if inPrefix {
        WDistance(n, -1);
        flushScanStart := W(i + 1);
      }
    }

    /** The cursor when it lies in the window, the head of the window otherwise. */
    method FlushStart() returns (begin: U16)
      requires Wired()
      ensures FlushSpan(Abs().send) <= curWindowPackets && begin == W(next - FlushSpan(Abs().send))
    {
      var windowStart := W(seqNr - curWindowPackets);
      begin := flushScanStart;
      if W(begin - windowStart) > curWindowPackets {
        begin := windowStart;
      }
      SpanOfCursor(Abs().send, begin);
    }

    method FlushPackets(env: Env) returns (full: bool)
      requires Wired()
      modifies this, outbuf
      ensures Wired() && (Abs(), full) == Flush(old(Abs()), env)
    {
      var inPrefix := true;
      var i: int := FlushStart();
      ghost var left: nat := FlushSpan(Abs().send);
      ghost var outcome := Flush(Abs(), env);
      while i != seqNr
        invariant Wired() && left <= curWindowPackets && i == W(next - left)
        invariant FlushScan(Abs(), left, inPrefix, env) == outcome
        decreases left
      {
        CursorNext(next, left);
        full, inPrefix := FlushVisit(i, inPrefix, left, env);
        if full {
          return;
        }
        i := W(i + 1);
        left := left - 1;
      }
      CursorNext(next, left);
      full := false;
    }

    // -------------------------------------------------------------- writing

    /** Copy `needed` bytes out of the front of the list, shortening its entries. */
    static method Gather(iov: array<Bytes>, needed: nat) returns (data: Bytes)
      requires needed <= |Flatten(iov[..])|
      modifies iov
      ensures data == Flatten(old(iov[..]))[..needed]
      ensures Flatten(iov[..]) == Flatten(old(iov[..]))[needed..]
    {
      ghost var whole := Flatten(iov[..]);
      data := [];
      var left: nat := needed;
      var i := 0;
      while i < iov.Length && left > 0
        invariant 0 <= i <= iov.Length && |data| + left == needed
        invariant data + Flatten(iov[..]) == whole
        invariant left > 0 ==> Flatten(iov[..i]) == []
      {
        var piece := GatherOne(iov, i, left);
        JoinPieces(data, piece, Flatten(iov[..]), whole);
        data := data + piece;
        left := left - |piece|;
        i := i + 1;
      }
      NoneLeft(data, iov[..], i, needed, left);
      assert (data + Flatten(iov[..]))[..|data|] == data && (data + Flatten(iov[..]))[|data|..] == Flatten(iov[..]);
    }

    /** What one entry of the list contributes. */
    static method GatherOne(iov: array<Bytes>, i: nat, left: nat) returns (piece: Bytes)
      requires i < iov.Length && left > 0 && Flatten(iov[..i]) == []
      modifies iov
      ensures old(Flatten(iov[..])) == piece + Flatten(iov[..]) && |piece| <= left
      ensures |piece| < left ==> Flatten(iov[..i + 1]) == []
    {
      ghost var before := iov[..];
      var num := Min(left, |iov[i]|);
      piece := iov[i][..num];
      iov[i] := iov[i][num..];
      FlattenShorter(before, i, num);
      assert iov[..] == before[i := before[i][num..]];
      assert iov[..i] == before[..i] && iov[..][..i] == iov[..i] && iov[..][..i + 1] == iov[..i + 1];
      if num < left {
        FlattenOneMore(iov[..], i);
      }
    }

    /** The packet to fill up, if there is one: the last of the window, not sent yet and short. */
    method LastPacket() returns (pkt: Option<OutPkt>)
      requires Wired()
      ensures pkt == if curWindowPackets > 0 then Ring.Lookup(win, next - 1) else None
    {
      if curWindowPackets > 0 {
        WDistance(next, 1);
        OutbufHolds(seqNr - 1, next - 1);
        pkt := outbuf.Get(seqNr - 1);
      } else {
        pkt := None;
      }
    }

    method FillUp(pkt: OutPkt, flags: PacketType, data: Bytes, env: Env)
      requires Wired() && CanTopUp(Abs().send, env.packetSize) && pkt == win[next - 1]
      modifies this, outbuf
      ensures Wired() && Abs() == TopUp(old(Abs()), flags, data, env)
    {
      NoteRcvWindow(env.rcvWindow);
      WDistance(next, 1);
      OutbufHolds(seqNr - 1, next - 1);
      StorePacket(seqNr - 1, pkt.(typ := flags, windowSize := lastRcvWin, payload := pkt.payload + data), next - 1);
    }

    method AddPacket(flags: PacketType, data: Bytes, env: Env)
      requires Wired() && curWindowPackets < OUTGOING_BUFFER_MAX_SIZE
      modifies this, outbuf
      ensures Wired() && Abs() == Append(old(Abs()), flags, data, env)
    {
      NoteRcvWindow(env.rcvWindow);
      PlaceNew(OutPkt(flags, seqNr, lastRcvWin, data, 0, false));
      UseNumber();
    }

    method PlaceNew(pkt: OutPkt)
      requires Wired() && curWindowPackets < OUTGOING_BUFFER_MAX_SIZE
      modifies this`win, outbuf
      ensures Wired()
      ensures Abs() == old(Abs()).(send := old(Abs()).send.(
                         win := old(win)[next := pkt],
                         ringSize := Ring.GrownSize(old(|outbuf.buf|), curWindowPackets)))
    {
      MakeRoom();
      Ring.SameSlot(seqNr, next, |outbuf.buf|);
      StorePacket(seqNr, pkt, next);
    }

    method UseNumber()
      requires Wired() && curWindowPackets < Min(|outbuf.buf|, OUTGOING_BUFFER_MAX_SIZE)
      modifies this`seqNr, this`curWindowPackets, this`next
      ensures Wired()
      ensures Abs() == old(Abs()).(send := old(Abs()).send.(next := old(next) + 1, count := old(curWindowPackets) + 1))
    {
      WDistance(next, -1);
      seqNr := W(seqNr + 1);
      curWindowPackets := curWindowPackets + 1;
      next := next + 1;
    }

    method MakeRoom()
      requires Wired() && curWindowPackets < OUTGOING_BUFFER_MAX_SIZE
      modifies outbuf
      ensures Wired()
      ensures var k := old(Abs());
              Abs() == k.(send := k.send.(ringSize := Ring.GrownSize(k.send.ringSize, curWindowPackets)))
    {
      WDistance(next, curWindowPackets);
      Ring.AgreesEnsure(outbuf.buf, next - curWindowPackets, win, seqNr, curWindowPackets);
      outbuf.EnsureSize(seqNr, curWindowPackets);
    }

    /** The body of the loop of `write_outgoing_packet`; `added` bytes of the list are placed. */
    method WriteSome(payload: nat, flags: PacketType, iov: array<Bytes>, env: Env) returns (added: nat)
      requires Wired() && curWindowPackets < OUTGOING_BUFFER_MAX_SIZE && payload <= |Flatten(iov[..])|
      modifies this, outbuf, iov
      ensures Wired()
      ensures var data := old(Flatten(iov[..]))[..payload];
              && added == Added(old(Abs()).send, data, env.packetSize)
              && Abs() == WriteRound(old(Abs()), flags, data, env)
              && Flatten(iov[..]) == old(Flatten(iov[..]))[added..]
    {
      var pkt := LastPacket();
      var fill := payload > 0 && pkt.Some? && pkt.value.transmissions == 0 && |pkt.value.payload| < env.packetSize;
      added := if fill then Min(payload, env.packetSize - |pkt.value.payload|) else payload;
      var data := Gather(iov, added);
      assert data == old(Flatten(iov[..]))[..payload][..added];
      if fill {
        FillUp(pkt.value, flags, data, env);
      } else {
        AddPacket(flags, data, env);
      }
    }

    method WriteOutgoingPacket(payload: nat, flags: PacketType, iov: array<Bytes>, env: Env)
      requires Valid() && payload <= |Flatten(iov[..])|
      requires curWindowPackets < if finSent then OUTGOING_BUFFER_MAX_SIZE else OUTGOING_BUFFER_MAX_SIZE - 1
      modifies this, outbuf, iov
      ensures Valid()
      ensures Abs() == Protocol.WriteOutgoingPacket(old(Abs()), flags, old(Flatten(iov[..]))[..payload], env)
      ensures Flatten(iov[..]) == old(Flatten(iov[..]))[payload..]
      ensures finSent == old(finSent)
    {
      ghost var data := Flatten(iov[..]);
      WriteOutgoingPacketKeeps(Abs(), flags, data[..payload], env);
      AppendAndFlush(payload, flags, iov, env);
    }

    method AppendAndFlush(payload: nat, flags: PacketType, iov: array<Bytes>, env: Env)
      requires Wired() && curWindowPackets < OUTGOING_BUFFER_MAX_SIZE && payload <= |Flatten(iov[..])|
      modifies this, outbuf, iov
      ensures Wired()
      ensures Abs() == Protocol.WriteOutgoingPacket(old(Abs()), flags, old(Flatten(iov[..]))[..payload], env)
      ensures Flatten(iov[..]) == old(Flatten(iov[..]))[payload..]
    {
      if curWindowPackets == 0 {
        SetRetransmit(retransmitCount, env.rto);
      }
      PutInWindow(payload, flags, iov, env);
      var _ := FlushPackets(env);
    }

    /** One round: `left` bytes of the list are still to be placed, which would lead to `outcome`. */
    method PutRound(left: nat, flags: PacketType, iov: array<Bytes>, env: Env, ghost outcome: Sock) returns (left': nat)
      requires Wired() && curWindowPackets < OUTGOING_BUFFER_MAX_SIZE && left <= |Flatten(iov[..])|
      requires outcome == WriteRounds(Abs(), flags, Flatten(iov[..])[..left], env)
      modifies this, outbuf, iov
      ensures Wired() && left' <= left <= |old(Flatten(iov[..]))| && (left' > 0 ==> left' < left)
      ensures Flatten(iov[..]) == old(Flatten(iov[..]))[left - left'..]
      ensures left' > 0 ==> curWindowPackets < OUTGOING_BUFFER_MAX_SIZE
      ensures outcome == if left' > 0 then WriteRounds(Abs(), flags, Flatten(iov[..])[..left'], env) else Abs()
    {
      ghost var k, data := Abs(), Flatten(iov[..]);
      var added := WriteSome(left, flags, iov, env);
      RoundsGoOn(k, flags, data[..left], added, Abs(), env);
      PieceAfter(data, left, added);
      left' := left - added;
    }

    method PutInWindow(payload: nat, flags: PacketType, iov: array<Bytes>, env: Env)
      requires Wired() && curWindowPackets < OUTGOING_BUFFER_MAX_SIZE && payload <= |Flatten(iov[..])|
      modifies this, outbuf, iov
      ensures Wired()
      ensures Abs() == WriteRounds(old(Abs()), flags, old(Flatten(iov[..]))[..payload], env)
      ensures Flatten(iov[..]) == old(Flatten(iov[..]))[payload..]
    {
      ghost var data := Flatten(iov[..]);
      ghost var outcome := WriteRounds(Abs(), flags, data[..payload], env);
      var left: nat := PutRound(payload, flags, iov, env, outcome);
      while left > 0
        invariant Wired() && left <= payload && Flatten(iov[..]) == data[payload - left..]
        invariant left > 0 ==> curWindowPackets < OUTGOING_BUFFER_MAX_SIZE
        invariant outcome == if left > 0 then WriteRounds(Abs(), flags, Flatten(iov[..])[..left], env) else Abs()
      {
        left := PutRound(left, flags, iov, env, outcome);
      }
    }

    /** Scatter/gather write; at most UTP_IOV_MAX entries are looked at. */
    method Writev(iovecInput: seq<Bytes>, env: Env) returns (sent: nat)
      requires Valid()
      modifies this, outbuf
      ensures Valid()
      ensures (Abs(), sent) == Protocol.Writev(old(Abs()), Flatten(iovecInput[..Min(|iovecInput|, UTP_IOV_MAX)]), env)
    {
      var num := Min(|iovecInput|, UTP_IOV_MAX);
      var iov := new Bytes[num](i requires 0 <= i < num => iovecInput[i]);
      assert iov[..] == iovecInput[..num];
      var bytes := TotalLength(iov);
      if state != Connected || finSent {
        return 0;
      }
      sent := WriteAll(iov, bytes, env);
    }

    static method TotalLength(iov: array<Bytes>) returns (bytes: nat)
      ensures bytes == |Flatten(iov[..])|
    {
      bytes := 0;
      for i := 0 to iov.Length
        invariant bytes == |Flatten(iov[..i])|
      {
        FlattenSplit(iov[..i + 1], i);
        assert iov[..i + 1][..i] == iov[..i] && iov[..i + 1][i..] == [iov[i]];
        assert Flatten([iov[i]]) == iov[i] + Flatten([]);
        bytes := bytes + |iov[i]|;
      }
      assert iov[..iov.Length] == iov[..];
    }

    method WriteAll(iov: array<Bytes>, bytes: nat, env: Env) returns (sent: nat)
      requires Valid() && !finSent && bytes == |Flatten(iov[..])|
      modifies this, outbuf, iov
      ensures Valid()
      ensures (Abs(), sent) == WriteChunks(old(Abs()), old(Flatten(iov[..])), env)
    {
      ghost var outcome := WriteChunks(Abs(), Flatten(iov[..]), env);
      var left: nat := bytes;
      sent := 0;
      var more := true;
      while more
        invariant Valid() && !finSent && left == |Flatten(iov[..])|
        invariant if more then Resumes(outcome, sent, Abs(), Flatten(iov[..]), env) else outcome == (Abs(), sent)
        decreases left, more
      {
        left, sent, more := WriteNext(left, sent, iov, env, outcome);
      }
    }

    /** With `sent` bytes accepted, the rest of the list leads to `outcome`, or there is no more to do. */
    ghost predicate Reaches(outcome: (Sock, nat), sent: nat, more: bool, iov: array<Bytes>, env: Env)
      reads this, inbuf, outbuf, iov
    {
      if more then Resumes(outcome, sent, Abs(), Flatten(iov[..]), env) else outcome == (Abs(), sent)
    }

    /** One round of the loop of `writev`: stop when the window is full for the next piece. */
    method WriteNext(left: nat, sent: nat, iov: array<Bytes>, env: Env, ghost outcome: (Sock, nat))
      returns (left': nat, sent': nat, more: bool)
      requires Valid() && !finSent && left == |Flatten(iov[..])|
      requires Reaches(outcome, sent, true, iov, env)
      modifies this, outbuf, iov
      ensures Valid() && !finSent && left' == |Flatten(iov[..])| <= left && (more ==> left' < left)
      ensures Reaches(outcome, sent', more, iov, env)
    {
      var numToSend: nat := Min(left, env.packetSize);
      var full := IsFull(numToSend, env);
      if full {
        StopWriting(env, outcome, sent, Flatten(iov[..]));
        return left, sent, false;
      }
      more := WritePiece(numToSend, left, iov, env, outcome, sent);
      left', sent' := left - numToSend, sent + numToSend;
    }

    method StopWriting(env: Env, ghost outcome: (Sock, nat), ghost sent: nat, ghost rest: Bytes)
      requires Valid() && Protocol.IsFull(Abs(), Min(|rest|, env.packetSize), env)
      requires Resumes(outcome, sent, Abs(), rest, env)
      modifies this`state
      ensures Valid() && outcome == (Abs(), sent)
    {
      ResumesFull(outcome, sent, Abs(), rest, env);
      var full := IsFull(-1, env);
      if full {
        SetConnState(ConnectedFull);
      }
    }

    method SetConnState(s: ConnState)
      requires Valid()
      modifies this`state
      ensures Valid() && Abs() == old(Abs()).(state := s)
    {
      ghost var k := Abs();
      state := s;
      SameWindow(k, Abs());
    }

    method WritePiece(num: nat, left: nat, iov: array<Bytes>, env: Env, ghost outcome: (Sock, nat), ghost sent: nat)
      returns (more: bool)
      requires Valid() && !finSent && left == |Flatten(iov[..])| && num == Min(left, env.packetSize)
      requires !Protocol.IsFull(Abs(), num, env) && Reaches(outcome, sent, true, iov, env)
      modifies this, outbuf, iov
      ensures Valid() && !finSent && Flatten(iov[..]) == old(Flatten(iov[..]))[num..]
      ensures more ==> num > 0
      ensures Reaches(outcome, sent + num, more, iov, env)
    {
      ghost var k, rest := Abs(), Flatten(iov[..]);
      WriteOutgoingPacket(num, StData, iov, env);
      ResumesAfter(outcome, sent, k, rest, num, Abs(), env);
      more := Min(left - num, env.packetSize) > 0;
    }

    method MarkFinSent()
      requires Valid()
      modifies this`finSent
      ensures Valid() && Abs() == old(Abs()).(send := old(Abs()).send.(finSent := true))
    {
      ghost var k := Abs();
      finSent := true;
      SameWindow(k, Abs());
    }

    method SendFin(env: Env)
      requires Valid() && !finSent
      modifies this, outbuf
      ensures Valid() && Abs() == Protocol.SendFin(old(Abs()), env)
    {
      MarkFinSent();
      var none := new Bytes[0];
      assert Flatten(none[..]) == [];
      WriteOutgoingPacket(0, StFin, none, env);
    }

    // -------------------------------------------------------------- acknowledging

    /** One bit for each of the numbers from `ackNr + 2` on that the reorder ring holds. */
    method HeldMask() returns (m: nat)
      requires Wired()
      ensures m == MaskOf(SackBits(Abs().recv))
    {
      m := 0;
      var window := Min(SACK_BITS, inbuf.Size());
      for i := 0 to window
        invariant m == MaskOf(HeldFrom(inbuf.buf, ack + 2, i))
      {
        HeldOneMore(ack, i);
        var pkt := inbuf.Get(ackNr + i + 2);
        if pkt.Some? {
          m := m + Ring.Pow2(i);
        }
      }
    }

    lemma HeldOneMore(n: int, i: nat)
      requires Wired() && n == ack
      ensures Ring.Get(inbuf.buf, ackNr + i + 2) == Ring.Get(inbuf.buf, n + 2 + i)
      ensures MaskOf(HeldFrom(inbuf.buf, n + 2, i + 1))
           == MaskOf(HeldFrom(inbuf.buf, n + 2, i)) + if Ring.Get(inbuf.buf, n + 2 + i).Some? then Ring.Pow2(i) else 0
    {
      WPlus(i + 2, ack);
      Ring.SameSlot(ackNr + i + 2, n + 2 + i, |inbuf.buf|);
      MaskOfOneMore(HeldFrom(inbuf.buf, n + 2, i), Ring.Get(inbuf.buf, n + 2 + i).Some?);
    }

    method SendAck(env: Env)
      requires Wired()
      modifies this
      ensures Wired() && Abs() == Protocol.SendAck(old(Abs()), env)
    {
      NoteRcvWindow(env.rcvWindow);
      var sack := BuildSack();
      SendTo(Packet(StState, seqNr, ackNr, lastRcvWin, sack, []), next);
    }

    /** A mask goes along while packets wait above a gap and the end has not been reached. */
    method BuildSack() returns (sack: Option<Mask>)
      requires Wired()
      ensures sack == SackOf(Abs().recv)
    {
      sack := None;
      if reorderCount != 0 && !gotFinReached {
        var m := HeldMask();
        sack := Some(MaskBytes(m));
      }
    }

    /** `ackNr` one number back, or one on. */
    method StepAck(step: int)
      requires Wired()
      modifies this`ackNr, this`ack
      ensures Wired() && Abs() == old(Abs()).(recv := old(Abs()).recv.(ack := old(ack) + step))
    {
      WDistance(ack, -step);
      ackNr, ack := W(ackNr + step), ack + step;
    }

    method SendKeepAlive(env: Env)
      requires Wired()
      modifies this
      ensures Wired() && Abs() == Protocol.SendKeepAlive(old(Abs()), env)
    {
      StepAck(-1);
      SendAck(env);
      StepAck(1);
    }

    // -------------------------------------------------------------- acknowledgement processing

    /** Take a packet of the window out of the ring. */
    method TakePacket(nr: int, ghost n: int)
      requires Wired() && W(nr) == W(n) && next - curWindowPackets <= n < next - curWindowPackets + |outbuf.buf|
      modifies this`win, outbuf
      ensures Wired() && Abs() == old(Abs()).(send := old(Abs()).send.(win := old(win) - {n}))
    {
      Ring.SameSlot(nr, n, |outbuf.buf|);
      Ring.AgreesTake(outbuf.buf, next - curWindowPackets, win, n);
      var _ := outbuf.Take(nr);
      win := win - {n};
    }

    method AckPacket(nr: int, env: Env, ghost n: int) returns (status: AckStatus)
      requires Wired() && W(nr) == W(n) && next - curWindowPackets <= n < next - curWindowPackets + |outbuf.buf|
      modifies this, outbuf
      ensures Wired() && (Abs(), status) == Protocol.AckPacket(old(Abs()), n, env)
    {
      OutbufHolds(nr, n);
      var pkt := outbuf.Get(nr);
      if pkt == None {
        return NotThere;
      }
      if pkt.value.transmissions == 0 {
        return NeverSent;
      }
      TakePacket(nr, n);
      SetRetransmit(0, env.rto);
      if !pkt.value.needResend {
        RemoveInFlight(|pkt.value.payload|);
      }
      status := Acked;
    }

    /** The head of the window is gone from the ring: the window starts one number later. */
    method DropHead()
      requires Wired() && curWindowPackets > 0 && next - curWindowPackets !in win
      modifies this`curWindowPackets
      ensures Wired() && Abs() == old(Abs()).(send := old(Abs()).send.(count := old(curWindowPackets) - 1))
    {
      Ring.AgreesSlide(outbuf.buf, next - curWindowPackets, win);
      curWindowPackets := curWindowPackets - 1;
    }

    method AckUpTo(acks: nat, env: Env)
      requires Wired() && acks <= curWindowPackets
      modifies this, outbuf
      ensures Wired() && Abs() == AckCumulative(old(Abs()), acks, env)
    {
      var i := 0;
      while i < acks
        invariant 0 <= i <= acks && Wired() && acks - i <= curWindowPackets
        invariant AckCumulative(Abs(), acks - i, env) == AckCumulative(old(Abs()), acks, env)
      {
        var stopped := AckHead(env, acks - i);
        if stopped {
          return;
        }
        i := i + 1;
      }
    }

    method AckHead(env: Env, ghost acks: nat) returns (stopped: bool)
      requires Wired() && 0 < acks <= curWindowPackets
      modifies this, outbuf
      ensures Wired() && curWindowPackets == old(curWindowPackets) - if stopped then 0 else 1
      ensures AckCumulative(old(Abs()), acks, env) == if stopped then Abs() else AckCumulative(Abs(), acks - 1, env)
    {
      ghost var k := Abs();
      WDistance(next, curWindowPackets);
      var status := AckPacket(seqNr - curWindowPackets, env, next - curWindowPackets);
      stopped := status == NeverSent;
      if stopped {
        AckStops(k, acks, env);
      } else {
        ghost var k1 := Abs();
        DropHead();
        AckGoesOn(k, acks, env, k1, Abs());
      }
    }

    method HeadIsPresent() returns (present: bool)
      requires Wired() && curWindowPackets > 0
      ensures present <==> next - curWindowPackets in win
    {
      WDistance(next, curWindowPackets);
      OutbufHolds(seqNr - curWindowPackets, next - curWindowPackets);
      var pkt := outbuf.Get(seqNr - curWindowPackets);
      present := pkt.Some?;
    }

    method SkipGaps()
      requires Wired()
      modifies this`curWindowPackets
      ensures Wired() && Abs() == SkipAcked(old(Abs()))
      ensures curWindowPackets > 0 ==> next - curWindowPackets in win
    {
      ghost var outcome := SkipAcked(Abs());
      while true
        invariant Wired() && SkipAcked(Abs()) == outcome
        decreases curWindowPackets
      {
        if curWindowPackets == 0 {
          return;
        }
        var present := HeadIsPresent();
        if present {
          return;
        }
        DropHead();
      }
    }

    method SendIfLone()
      requires Wired() && (curWindowPackets > 0 ==> next - curWindowPackets in win)
      modifies this, outbuf
      ensures Wired() && Abs() == SendLoneUnsent(old(Abs()))
    {
      if curWindowPackets == 1 {
        WDistance(next, 1);
        OutbufHolds(seqNr - 1, next - 1);
        var pkt := outbuf.Get(seqNr - 1);
        if pkt.value.transmissions == 0 {
          SendPacket(seqNr - 1, pkt.value, next - 1);
        }
      }
    }

    method RetryAfterTimeout()
      requires Wired()
      modifies this, outbuf
      ensures Wired() && Abs() == FastTimeout(old(Abs()))
    {
      WDistance(next, curWindowPackets);
      if fastTimeout {
        if W(seqNr - curWindowPackets) != fastResendSeqNr {
          fastTimeout := false;
        } else {
          RetryHead();
        }
      }
    }

    method RetryHead()
      requires Wired() && fastTimeout && W(next - curWindowPackets) == fastResendSeqNr
      modifies this, outbuf
      ensures Wired() && Abs() == FastTimeout(old(Abs()))
    {
      ghost var n := next - curWindowPackets;
      WDistance(next, curWindowPackets);
      OutbufHolds(seqNr - curWindowPackets, n);
      var pkt := outbuf.Get(seqNr - curWindowPackets);
      if pkt.Some? && pkt.value.transmissions > 0 {
        StepOverMark();
        SendPacket(seqNr - curWindowPackets, pkt.value, n);
      }
    }

    /** The packet at the mark is about to be resent. */
    method StepOverMark()
      requires Wired()
      modifies this`events, this`fastResendSeqNr
      ensures Wired()
      ensures var k := old(Abs());
              Abs() == Report(k.(ctl := k.ctl.(fastResend := W(k.ctl.fastResend + 1))),
                              FastResend(k.ctl.fastResend, |k.out|))
    {
      Tell(FastResend(fastResendSeqNr, |out|));
      SetFastResend(W(fastResendSeqNr + 1));
    }

    method AdvanceSendWindow(p: Packet, acks: nat, env: Env)
      requires Wired() && acks <= curWindowPackets
      modifies this, outbuf
      ensures Wired() && Abs() == Protocol.AdvanceSendWindow(old(Abs()), p, acks, env)
    {
      NoteAcknowledgement(p, acks);
      SkipResent(p.ackNr);
      MoveWindow(acks, env);
      SendIfLone();
      RetryAfterTimeout();
    }

    method MoveWindow(acks: nat, env: Env)
      requires Wired() && acks <= curWindowPackets
      modifies this, outbuf
      ensures Wired() && Abs() == SkipAcked(AckCumulative(old(Abs()), acks, env))
      ensures curWindowPackets > 0 ==> next - curWindowPackets in win
    {
      AckUpTo(acks, env);
      SkipGaps();
    }

    method NoteAcknowledgement(p: Packet, acks: nat)
      requires Wired()
      modifies this
      ensures Wired() && Abs() == AdvanceState(old(Abs()), p, acks)
    {
      SetPeerWindow(p.windowSize);
      if p.typ == StData && state == SynRecv {
        EnterState(Connected);
      }
      if p.typ == StState && state == SynSent {
        EnterState(Connected);
        Tell(OnConnect);
      } else if finSent && curWindowPackets == acks {
        FinAcked();
      }
    }

    method SetPeerWindow(window: nat)
      requires Wired()
      modifies this`maxWindowUser
      ensures Wired() && Abs() == old(Abs()).(send := old(Abs()).send.(maxWindowUser := window))
    {
      maxWindowUser := window;
    }

    method FinAcked()
      requires Wired()
      modifies this`finSentAcked, this`state
      ensures Wired()
      ensures var k := old(Abs());
              Abs() == k.(send := k.send.(finSentAcked := true), 
                      state := if k.send.closeRequested then Destroy else k.state)
    {
      finSentAcked := true;
      if closeRequested {
        state := Destroy;
      }
    }

    method SkipResent(nr: U16)
      requires Wired()
      modifies this`fastResendSeqNr
      ensures Wired() && Abs() == RaiseFastResend(old(Abs()), nr)
    {
      if WrappingLess(fastResendSeqNr, W(nr + 1), MOD16) {
        fastResendSeqNr := W(nr + 1);
      }
    }

    /** Bit `bits` of a mask: one iteration of the scan of `selective_ack`. The candidates for
        resending are `resends[..nr]`, `count` is the number of bits found set. */
    method VisitBit(base: int, mask: Mask, bits: int, count: nat, resends: array<int>, nr: nat, env: Env, ghost c: Scan)
      returns (count': nat, nr': nat)
      requires Wired() && curWindowPackets > 0 && -1 <= bits < 8 * |mask|
      requires resends.Length == MAX_EACK && nr <= MAX_EACK - 2 && c == Scan(Abs(), count, Wrapped(resends[..nr]))
      modifies this, outbuf, resends
      ensures Wired() && curWindowPackets == old(curWindowPackets) && nr' <= MAX_EACK - 2
      ensures Scan(Abs(), count', Wrapped(resends[..nr'])) == SackVisit(c, base, mask, bits, env)
    {
      count', nr' := count, nr;
      var v := base + bits;
      SackNumberIs(next, v);
      if W(seqNr - v - 1) >= W(curWindowPackets - 1) {
        return;
      }
      var bitSet := SackBitSet(mask, bits);
      if bitSet {
        count' := count' + 1;
      }
      ghost var n := next - 1 - W(next - v - 1);
      VisitIsPacket(c, base, mask, bits, env, n);
      nr' := VisitPacket(v, bitSet, count', resends, nr, env, n, c);
    }

    /** The packet `n` a bit speaks about: acknowledged, listed for resending, or left alone. */
    method VisitPacket(v: int, bitSet: bool, count: nat, resends: array<int>, nr: nat, env: Env, ghost n: int,
                       ghost c: Scan)
      returns (nr': nat)
      requires Wired() && W(v) == W(n) && next - curWindowPackets < n < next
      requires resends.Length == MAX_EACK && nr <= MAX_EACK - 2 && c.sock == Abs()
      requires c.resends == Wrapped(resends[..nr])
      modifies this, outbuf, resends
      ensures Wired() && curWindowPackets == old(curWindowPackets) && nr' <= MAX_EACK - 2
      ensures (Abs(), Wrapped(resends[..nr'])) == SackPacket(c.sock, n, v, bitSet, count, c.resends, env)
    {
      nr' := nr;
      OutbufHolds(v, n);
      var pkt := outbuf.Get(v);
      if pkt == None || pkt.value.transmissions == 0 {
        return;
      }
      if bitSet {
        var _ := AckPacket(v, env, n);
      } else if W(v - fastResendSeqNr) <= OUTGOING_BUFFER_MAX_SIZE && count >= DUPLICATE_ACKS_BEFORE_RESEND {
        nr' := AddCandidate(resends, nr, v);
      }
    }

    /** Append to the list, moving its newer half down first when it is about to fill up. */
    static method AddCandidate(resends: array<int>, nr: nat, v: int) returns (nr': nat)
      requires resends.Length == MAX_EACK && nr <= MAX_EACK - 2
      modifies resends
      ensures nr' <= MAX_EACK - 2 && Wrapped(resends[..nr']) == PushResend(old(Wrapped(resends[..nr])), W(v))
    {
      nr' := nr;
      if nr >= MAX_EACK - 2 {
        forall i | 0 <= i < MAX_EACK / 2 {
          resends[i] := resends[MAX_EACK / 2 + i];
        }
        nr' := nr - MAX_EACK / 2;
      }
      resends[nr'] := v;
      nr' := nr' + 1;
      assert Wrapped(resends[..nr']) == PushResend(old(Wrapped(resends[..nr])), W(v));
    }

    method SelectiveAck(base: int, mask: Mask, env: Env)
      requires Wired()
      modifies this, outbuf
      ensures Wired() && Abs() == Protocol.SelectiveAck(old(Abs()), base, mask, env)
    {
      if curWindowPackets == 0 {
        return;
      }
      var resends := new int[MAX_EACK];
      var count, nr := VisitBits(base, mask, resends, env);
      nr := AddLastCandidate(base, count, resends, nr);
      Resend(resends, nr);
    }

    /** The number just acknowledged cumulatively is considered last. */
    method AddLastCandidate(base: int, count: nat, resends: array<int>, nr: nat) returns (nr': nat)
      requires resends.Length == MAX_EACK && nr <= MAX_EACK - 2
      modifies resends
      ensures nr' <= MAX_EACK
      ensures Wrapped(resends[..nr']) == SackCandidates(Scan(Abs(), count, old(Wrapped(resends[..nr]))), base)
    {
      nr' := nr;
      if W(base - 1 - fastResendSeqNr) <= OUTGOING_BUFFER_MAX_SIZE && count >= DUPLICATE_ACKS_BEFORE_RESEND {
        ghost var before := Wrapped(resends[..nr]);
        resends[nr] := W(base - 1);
        nr' := nr + 1;
        WSmall(W(base - 1));
        assert Wrapped(resends[..nr']) == before + [W(base - 1)];
      }
    }

    method VisitBits(base: int, mask: Mask, resends: array<int>, env: Env) returns (count: nat, nr: nat)
      requires Wired() && curWindowPackets > 0 && resends.Length == MAX_EACK
      modifies this, outbuf, resends
      ensures Wired() && nr <= MAX_EACK - 2
      ensures Scan(Abs(), count, Wrapped(resends[..nr]))
           == SackScan(Scan(old(Abs()), 0, []), base, mask, 8 * |mask| - 1, env)
    {
      count, nr := 0, 0;
      var bits := 8 * |mask| - 1;
      assert Wrapped(resends[..0]) == [];
      while bits >= -1
        invariant -2 <= bits < 8 * |mask| && Wired() && curWindowPackets > 0 && nr <= MAX_EACK - 2
        invariant SackScan(Scan(Abs(), count, Wrapped(resends[..nr])), base, mask, bits, env)
               == SackScan(Scan(old(Abs()), 0, []), base, mask, 8 * |mask| - 1, env)
      {
        count, nr := VisitBit(base, mask, bits, count, resends, nr, env, Scan(Abs(), count, Wrapped(resends[..nr])));
        bits := bits - 1;
      }
    }

    /** Resend from the end of the list, four packets at most. */
    method Resend(resends: array<int>, nr: nat)
      requires Wired() && nr <= resends.Length
      modifies this, outbuf
      ensures Wired() && Abs() == ResendLast(old(Abs()), old(Wrapped(resends[..nr])), MAX_RESENDS)
    {
      var left: nat := nr;
      var i: nat := 0;
      ghost var list := resends[..nr];
      ghost var outcome := ResendLast(Abs(), Wrapped(list), MAX_RESENDS);
      assert list[..nr] == list;
      while left > 0 && i < MAX_RESENDS
        invariant Wired() && left <= nr && i <= MAX_RESENDS
        invariant ResendLast(Abs(), Wrapped(list[..left]), MAX_RESENDS - i) == outcome
        decreases left
      {
        ghost var k := Abs();
        left := left - 1;
        var resent := ResendCandidate(resends[left]);
        ResendFrom(k, list, left, MAX_RESENDS - i, Abs(), resent);
        if resent {
          i := i + 1;
        }
      }
      ResendEnds(Abs(), list, left, MAX_RESENDS - i);
    }

    method ResendCandidate(v: int) returns (resent: bool)
      requires Wired()
      modifies this, outbuf
      ensures Wired()
      ensures var k := old(Abs());
              var n := Ring.Alias(W(v), Head(k.send), k.send.ringSize);
              resent == (n in k.send.win) && Abs() == if resent then ResendOne(k, W(v), n) else k
    {
      ghost var n := Ring.Alias(W(v), next - curWindowPackets, |outbuf.buf|);
      AliasHolds(v);
      var pkt := outbuf.Get(v);
      if pkt == None {
        return false;
      }
      Tell(FastResend(W(v), |out|));
      SendPacket(v, pkt.value, n);
      WDistance(v, -1);
      SetFastResend(W(v + 1));
      resent := true;
    }

    /** Whatever number is asked for, the ring answers for the number of its range in that slot. */
    lemma AliasHolds(v: int)
      requires Wired()
      ensures var n := Ring.Alias(W(v), next - curWindowPackets, |outbuf.buf|);
              SharesSlot(v, n) && Ring.Get(outbuf.buf, v) == Ring.Lookup(win, n)
    {
      Ring.SlotOfWrapped(v, |outbuf.buf|);
      Ring.AgreesGet(outbuf.buf, next - curWindowPackets, win, W(v));
      Ring.AliasSharesSlot(W(v), next - curWindowPackets, |outbuf.buf|);
    }


    // -------------------------------------------------------------- receiving data

    method OnReadCallback(data: Bytes)
      requires Wired()
      modifies this`events
      ensures Wired() && Abs() == Read(old(Abs()), data)
    {
      if |data| > 0 && !readShutdown {
        events := events + [OnRead(data)];
      }
    }

    method AdvanceAck()
      requires Wired()
      modifies this`ackNr, this`ack
      ensures Wired() && Abs() == old(Abs()).(recv := old(Abs()).recv.(ack := old(ack) + 1))
    {
      WDistance(ack, -1);
      ackNr, ack := W(ackNr + 1), ack + 1;
    }

    method ReachEof(env: Env)
      requires Wired()
      modifies this
      ensures Wired() && Abs() == PostEof(old(Abs()), env)
    {
      if !gotFinReached && gotFin && eofPkt == ackNr {
        SetReached();
        Tell(OnEof);
        SendAck(env);
        SetReorderCount(0);
      }
    }

    method SetReached()
      requires Wired()
      modifies this`gotFinReached
      ensures Wired() && Abs() == old(Abs()).(recv := old(Abs()).recv.(gotFinReached := true))
    {
      gotFinReached := true;
    }

    method SetReorderCount(count: nat)
      requires Wired()
      modifies this`reorderCount
      ensures Wired() && Abs() == old(Abs()).(recv := old(Abs()).recv.(reorderCount := count))
    {
      reorderCount := count;
    }

    method ScheduleAck()
      requires Wired()
      modifies this`ackPending
      ensures Wired() && Abs() == old(Abs()).(ackPending := true)
    {
      ackPending := true;
    }

    /** The slot of the packet that follows `ackNr`, emptied. */
    method TakeNext() returns (pkt: Option<Bytes>)
      requires Wired()
      modifies inbuf
      ensures Wired() && pkt == Ring.Get(old(inbuf.buf), ack + 1)
      ensures Abs() == old(Abs()).(recv := old(Abs()).recv.(inbuf := Ring.Take(old(inbuf.buf), ack + 1)))
      ensures pkt == None ==> inbuf.buf == old(inbuf.buf)
    {
      WDistance(ack, -1);
      WDistance(ackNr + 1, 0);
      Ring.SameSlot(ackNr + 1, ack + 1, |inbuf.buf|);
      pkt := inbuf.Take(ackNr + 1);
      assert pkt == None ==> inbuf.buf == old(inbuf.buf);
    }

    /** The packet that follows `ackNr`, which leaves the reorder ring and is delivered. */
    method DeliverNext() returns (found: bool)
      requires Wired() && reorderCount > 0
      modifies this, inbuf
      ensures Wired()
      ensures var k := old(Abs());
              var data := Ring.Get(k.recv.inbuf, k.recv.ack + 1);
              found == data.Some? && Abs() == if found then Protocol.Drained(k, data.value) else k
    {
      var pkt := TakeNext();
      if pkt == None {
        return false;
      }
      OnReadCallback(pkt.value);
      AdvanceAck();
      SetReorderCount(reorderCount - 1);
      found := true;
    }

    method DrainReorderBuffer(env: Env)
      requires Wired()
      modifies this, inbuf
      ensures Wired() && Abs() == Drain(old(Abs()), env)
    {
      while true
        invariant Wired() && Drain(Abs(), env) == Drain(old(Abs()), env)
        decreases reorderCount
      {
        ghost var k := Abs();
        ReachEof(env);
        ghost var k1 := Abs();
        if reorderCount == 0 {
          DrainStops(k, k1, env);
          return;
        }
        var found := DeliverNext();
        if !found {
          DrainStops(k, k1, env);
          return;
        }
        DrainGoesOn(k, k1, Abs(), env);
      }
    }

    method DeliverInOrder(payload: Bytes, env: Env)
      requires Wired()
      modifies this, inbuf
      ensures Wired() && Abs() == Protocol.DeliverInOrder(old(Abs()), payload, env)
    {
      OnReadCallback(payload);
      AdvanceAck();
      DrainReorderBuffer(env);
      ScheduleAck();
    }

    /** Make room in the reorder ring for the packet `seqnr` places past the next one. */
    method GrowInbuf(item: nat, seqnr: nat)
      requires Wired() && 0 < seqnr < REORDER_BUFFER_MAX_SIZE
      modifies inbuf
      ensures Wired()
      ensures Abs() == old(Abs()).(recv := old(Abs()).recv.(inbuf := Ring.Ensure(old(inbuf.buf), item + 1, seqnr + 1)))
    {
      Ring.GrownSizeProperties(|inbuf.buf|, seqnr + 1);
      inbuf.EnsureSize(item + 1, seqnr + 1);
    }

    method PutInbound(item: nat, payload: Bytes)
      requires Wired()
      modifies inbuf
      ensures Wired()
      ensures Abs() == old(Abs()).(recv := old(Abs()).recv.(inbuf := Ring.Put(old(inbuf.buf), item, payload)))
    {
      inbuf.Put(item, payload);
    }

    method BufferOutOfOrder(p: Packet, seqnr: nat) returns (taken: nat)
      requires Wired() && 0 < seqnr < REORDER_BUFFER_MAX_SIZE
      modifies this, inbuf
      ensures Wired() && (Abs(), taken) == Buffer(old(Abs()), p, seqnr)
    {
      GrowInbuf(p.seqNr, seqnr);
      var there := inbuf.Get(p.seqNr);
      if there.Some? {
        return 0;
      }
      StoreInbound(p.seqNr, p.payload);
      taken := |p.payload|;
    }

    method StoreInbound(item: nat, payload: Bytes)
      requires Wired()
      modifies this, inbuf
      ensures Wired()
      ensures var k := old(Abs());
              Abs() == k.(recv := k.recv.(inbuf := Ring.Put(k.recv.inbuf, item, payload),
                                          reorderCount := k.recv.reorderCount + 1),
                          ackPending := true)
    {
      PutInbound(item, payload);
      SetReorderCount(reorderCount + 1);
      ScheduleAck();
    }

    method DeliverData(p: Packet, seqnr: nat, env: Env) returns (taken: nat)
      requires Wired()
      modifies this, inbuf
      ensures Wired() && (Abs(), taken) == Protocol.DeliverData(old(Abs()), p, seqnr, env)
    {
      TakeFin(p);
      taken := Deliver(p, seqnr, env);
    }

    method TakeFin(p: Packet)
      requires Wired()
      modifies this`gotFin, this`eofPkt
      ensures Wired() && Abs() == NoteFin(old(Abs()), p)
    {
      if p.typ == StFin && !gotFin {
        gotFin := true;
        eofPkt := p.seqNr;
      }
    }

    method Deliver(p: Packet, seqnr: nat, env: Env) returns (taken: nat)
      requires Wired()
      modifies this, inbuf
      ensures Wired() && (Abs(), taken) == DeliverAt(old(Abs()), p, seqnr, env)
    {
      if seqnr == 0 {
        DeliverInOrder(p.payload, env);
        return |p.payload|;
      }
      OffsetFrom(eofPkt, ack);
      if gotFin && seqnr > W(eofPkt - ackNr - 1) {
        return 0;
      }
      if seqnr > 0x3ff {
        return 0;
      }
      taken := BufferOutOfOrder(p, seqnr);
    }

    // -------------------------------------------------------------- an arriving packet

    method Reopen(env: Env)
      requires Wired()
      modifies this
      ensures Wired() && Abs() == ReopenWindow(old(Abs()), env)
    {
      if state == ConnectedFull {
        var full := IsFull(-1, env);
        if !full {
          state := Connected;
          events := events + [OnWritable];
        }
      }
    }

    method AcknowledgeUpTo(p: Packet, env: Env)
      requires Wired()
      modifies this, outbuf
      ensures Wired()
      ensures var acks := AckCount(old(seqNr), old(curWindowPackets), p.ackNr);
              Abs() == Protocol.AdvanceSendWindow(old(Abs()), p, acks, env)
    {
      var acks: nat := W(p.ackNr - (seqNr - 1 - curWindowPackets));
      if acks > curWindowPackets {
        acks := 0;
      }
      AdvanceSendWindow(p, acks, env);
    }

    method ProcessAcks(p: Packet, env: Env)
      requires Wired()
      modifies this, outbuf
      ensures Wired() && Abs() == Protocol.ProcessAcks(old(Abs()), p, env)
    {
      AcknowledgeUpTo(p, env);
      if p.sack.Some? {
        SelectiveAck(p.ackNr + 2, p.sack.value, env);
      }
    }

    method ProcessInWindow(p: Packet, seqnr: nat, env: Env) returns (taken: nat)
      requires Wired()
      modifies this, inbuf, outbuf
      ensures Wired() && (Abs(), taken) == Protocol.ProcessInWindow(old(Abs()), p, seqnr, env)
    {
      ProcessAcks(p, env);
      Reopen(env);
      if p.typ == StState {
        return 0;
      }
      if state != Connected && state != ConnectedFull {
        return 0;
      }
      taken := DeliverData(p, seqnr, env);
    }

    method ProcessIncoming(p: Packet, env: Env) returns (taken: nat)
      requires Valid()
      modifies this, inbuf, outbuf
      ensures Valid() && (Abs(), taken) == Protocol.ProcessIncoming(old(Abs()), p, env)
    {
      IncomingKeeps(Abs(), p, env);
      taken := CheckAndProcess(p, env);
    }

    method CheckAndProcess(p: Packet, env: Env) returns (taken: nat)
      requires Wired()
      modifies this, inbuf, outbuf
      ensures Wired() && (Abs(), taken) == Protocol.ProcessIncoming(old(Abs()), p, env)
    {
      if (p.typ != StSyn || state != SynRecv) && !AckAcceptable(seqNr, curWindowPackets, p.ackNr) {
        return 0;
      }
      LearnNumber(p);
      taken := ProcessAtOffset(p, env);
    }

    method ProcessAtOffset(p: Packet, env: Env) returns (taken: nat)
      requires Wired()
      modifies this, inbuf, outbuf
      ensures Wired() && (Abs(), taken) == Placed(old(Abs()), p, env)
    {
      var seqnr: nat := W(p.seqNr - ackNr - 1);
      OffsetFrom(p.seqNr, ack);
      if seqnr >= REORDER_BUFFER_MAX_SIZE {
        if seqnr >= MOD16 - REORDER_BUFFER_MAX_SIZE && p.typ != StState {
          ScheduleAck();
        }
        return 0;
      }
      taken := ProcessInWindow(p, seqnr, env);
    }

    method LearnNumber(p: Packet)
      requires Wired()
      modifies this`ackNr, this`ack
      ensures Wired() && Abs() == LearnPeerNumber(old(Abs()), p)
    {
      if state == SynSent {
        ackNr, ack := W(p.seqNr - 1), p.seqNr - 1;
      }
    }


    // -------------------------------------------------------------- timeouts

    /** Mark every packet in flight for resending, last one first. */
    method MarkAll()
      requires Wired()
      modifies this, outbuf
      ensures Wired() && Abs() == MarkForResend(old(Abs()))
    {
      ghost var k := Abs();
      var i := 0;
      while i < curWindowPackets
        invariant 0 <= i <= curWindowPackets && Wired()
        invariant Abs() == MarkedFrom(k, k.send.next - i)
      {
        MarkOne(i, k);
        i := i + 1;
      }
      WDistance(next, curWindowPackets);
      flushScanStart := W(seqNr - curWindowPackets);
      MarkedAll(k);
    }

    method MarkOne(i: nat, ghost k: Sock)
      requires Wired() && i < curWindowPackets && Abs() == MarkedFrom(k, k.send.next - i)
      modifies this, outbuf
      ensures Wired() && curWindowPackets == old(curWindowPackets) && Abs() == MarkedFrom(k, k.send.next - i - 1)
    {
      ghost var n := next - i - 1;
      WDistance(next, i + 1);
      OutbufHolds(seqNr - i - 1, n);
      MarkedOneMore(k, n);
      var pkt := outbuf.Get(seqNr - i - 1);
      if pkt == None || pkt.value.transmissions == 0 || pkt.value.needResend {
        return;
      }
      MarkSlot(seqNr - i - 1, pkt.value, n);
    }

    method MarkSlot(nr: int, pkt: OutPkt, ghost n: int)
      requires Wired() && SharesSlot(nr, n) && n in win && win[n] == pkt
      modifies this, outbuf
      ensures Wired() && curWindowPackets == old(curWindowPackets)
      ensures var k := old(Abs());
              Abs() == k.(send := k.send.(win := k.send.win[n := pkt.(needResend := true)]),
                          ctl := k.ctl.(curWindow := k.ctl.curWindow - |pkt.payload|))
    {
      Ring.AgreesRange(outbuf.buf, next - curWindowPackets, win, n);
      StorePacket(nr, pkt.(needResend := true), n);
      RemoveInFlight(|pkt.payload|);
    }

    method ResendHead()
      requires Wired() && (curWindowPackets > 0 ==> next - curWindowPackets in win)
      modifies this, outbuf
      ensures Wired() && Abs() == ResendAfterTimeout(old(Abs()))
    {
      MarkAll();
      if curWindowPackets > 0 {
        CountRetry();
        SendHead();
      }
    }

    method CountRetry()
      requires Wired()
      modifies this`retransmitCount, this`fastTimeout
      ensures Wired()
      ensures var k := old(Abs());
              Abs() == k.(ctl := k.ctl.(retransmitCount := k.ctl.retransmitCount + 1, fastTimeout := true))
    {
      retransmitCount := retransmitCount + 1;
      fastTimeout := true;
    }

    method SendHead()
      requires Wired() && next - curWindowPackets in win
      modifies this, outbuf
      ensures Wired() && Abs() == Protocol.SendPacket(old(Abs()), old(next - curWindowPackets))
    {
      WDistance(next, curWindowPackets);
      OutbufHolds(seqNr - curWindowPackets, next - curWindowPackets);
      var pkt := outbuf.Get(seqNr - curWindowPackets);
      SendPacket(seqNr - curWindowPackets, pkt.value, next - curWindowPackets);
    }

    /** The retransmission timer has expired. */
    method OnRtoExpired(probeTimedOut: bool) returns (alive: bool)
      requires Wired() && (curWindowPackets > 0 ==> next - curWindowPackets in win)
      modifies this, outbuf
      ensures Wired() && (Abs(), alive) == RtoExpired(old(Abs()), probeTimedOut)
    {
      var newTimeout := if probeTimedOut then retransmitTimeout else retransmitTimeout * 2;
      if state == SynRecv {
        EnterState(Destroy);
        Tell(OnError);
        return false;
      }
      if retransmitCount >= 4 || (state == SynSent && retransmitCount >= 2) {
        EnterState(if closeRequested then Destroy else Reset);
        Tell(OnError);
        return false;
      }
      SetRetransmit(retransmitCount, newTimeout);
      ResendHead();
      alive := true;
    }

    method CheckTimeouts(timers: Timers, before: Env, after: Env)
      requires Valid()
      modifies this, outbuf
      ensures Valid() && Abs() == Protocol.CheckTimeouts(old(Abs()), timers, before, after)
    {
      CheckTimeoutsKeeps(Abs(), timers, before, after);
      FlushIfAlive(before);
      RunTimers(timers, after);
    }

    method FlushIfAlive(env: Env)
      requires Valid()
      modifies this, outbuf
      ensures Wired() && Abs() == FlushUnlessDestroyed(old(Abs()), env)
      ensures curWindowPackets > 0 ==> next - curWindowPackets in win
    {
      FlushUnlessDestroyedKeeps(Abs(), env);
      if state != Destroy {
        var _ := FlushPackets(env);
      }
    }

    method RunTimers(timers: Timers, env: Env)
      requires Wired() && (curWindowPackets > 0 ==> next - curWindowPackets in win)
      modifies this, outbuf
      ensures Wired() && Abs() == Protocol.RunTimers(old(Abs()), timers, env)
    {
      if state != SynSent && state != SynRecv && state != Connected && state != ConnectedFull {
        return;
      }
      OpenZeroWindow(timers);
      var alive := CheckRto(timers);
      if !alive {
        return;
      }
      Reopen(env);
      KeepAliveIfDue(timers, env);
    }

    method OpenZeroWindow(timers: Timers)
      requires Wired()
      modifies this`maxWindowUser
      ensures Wired() && Abs() == LiftZeroWindow(old(Abs()), timers)
    {
      if timers.zeroWindowOver && maxWindowUser == 0 {
        maxWindowUser := PACKET_SIZE;
      }
    }

    method CheckRto(timers: Timers) returns (alive: bool)
      requires Wired() && (curWindowPackets > 0 ==> next - curWindowPackets in win)
      modifies this, outbuf
      ensures Wired() && (Abs(), alive) == MaybeExpire(old(Abs()), timers)
    {
      alive := true;
      if timers.expired {
        alive := OnRtoExpired(timers.probeTimedOut);
      }
    }

    method KeepAliveIfDue(timers: Timers, env: Env)
      requires Wired()
      modifies this
      ensures Wired() && Abs() == KeepAlive(old(Abs()), timers, env)
    {
      if (state == Connected || state == ConnectedFull) && !finSent && timers.keepAliveDue {
        SendKeepAlive(env);
      }
    }

    // -------------------------------------------------------------- opening and closing

    method Initialize()
      requires Wired()
      modifies this`state
      ensures Wired() && Abs() == old(Abs()).(state := Idle)
    {
      state := Idle;
    }

    /** The SYN takes the random number `nr` that the caller's random source answered. */
    method Connect(nr: U16, env: Env)
      requires Valid() && Abs() == Fresh().(state := Uninitialized)
      modifies this, outbuf
      ensures Valid() && Abs() == Protocol.Connect(Fresh(), nr, env)
    {
      ConservationOverRuns(env, nr, 0, []);
      Initialize();
      StartConnecting(nr);
      AddPacket(StSyn, [], env);
      SendLast();
    }

    method StartConnecting(nr: U16)
      requires Wired() && win == map[] && ackNr == 0
      modifies this
      ensures Wired()
      ensures var k := old(Abs());
              Abs() == k.(state := SynSent, send := k.send.(next := nr), recv := k.recv.(ack := UNKNOWN),
                          ctl := k.ctl.(retransmitTimeout := 3000))
    {
      SetNumber(nr);
      ForgetPeer();
      EnterState(SynSent);
      SetRetransmit(retransmitCount, 3000);
    }

    /** Nothing is known of the peer's numbers; `ackNr` stays 0. */
    ghost method ForgetPeer()
      requires Wired() && ackNr == 0
      modifies this`ack
      ensures Wired() && Abs() == old(Abs()).(recv := old(Abs()).recv.(ack := UNKNOWN))
    {
      ack := UNKNOWN;
    }

    method SendLast()
      requires Wired() && curWindowPackets > 0 && next - 1 in win
      modifies this, outbuf
      ensures Wired() && Abs() == Protocol.SendPacket(old(Abs()), old(next - 1))
    {
      WDistance(next, 1);
      OutbufHolds(seqNr - 1, next - 1);
      var pkt := outbuf.Get(seqNr - 1);
      SendPacket(seqNr - 1, pkt.value, next - 1);
    }

    /** An empty outgoing ring may start anywhere. */
    method SetNumber(nr: U16)
      requires Wired() && win == map[]
      modifies this`seqNr, this`next
      ensures Wired() && next == nr && Abs() == old(Abs()).(send := old(Abs()).send.(next := nr))
    {
      Ring.AgreesEmpty<OutPkt>(outbuf.buf, next - curWindowPackets, nr - curWindowPackets);
      seqNr, next := nr, nr;
    }

    method AcceptSyn(peerSeq: U16, nr: U16)
      requires Valid() && Abs() == Fresh()
      modifies this
      ensures Valid() && Abs() == Protocol.AcceptSyn(Fresh(), peerSeq, nr)
    {
      ghost var k := Abs();
      SetNumber(nr);
      LearnSyn(peerSeq);
      SameEmptyWindow(k, Abs());
    }

    method LearnSyn(peerSeq: U16)
      requires Wired()
      modifies this`ackNr, this`ack, this`fastResendSeqNr, this`state
      ensures Wired()
      ensures Abs() == old(Abs()).(state := SynRecv, recv := old(Abs()).recv.(ack := peerSeq),
                                   ctl := old(Abs()).ctl.(fastResend := seqNr))
    {
      SetAck(peerSeq);
      SetFastResend(seqNr);
      EnterState(SynRecv);
    }

    method SetAck(nr: U16)
      requires Wired()
      modifies this`ackNr, this`ack
      ensures Wired() && Abs() == old(Abs()).(recv := old(Abs()).recv.(ack := nr))
    {
      WSmall(nr);
      ackNr, ack := nr, nr;
    }

    method Close(env: Env)
      requires Valid()
      modifies this, outbuf
      ensures Valid() && Abs() == Protocol.Close(old(Abs()), env)
    {
      if state == Connected || state == ConnectedFull {
        MarkReadShut();
        RequestClose();
        if !finSent {
          SendFin(env);
        } else if finSentAcked {
          SetConnState(Destroy);
        }
      } else {
        SetConnState(Destroy);
      }
    }

    method MarkReadShut()
      requires Valid()
      modifies this`readShutdown
      ensures Valid() && Abs() == MarkReadShutdown(old(Abs()))
    {
      ghost var k := Abs();
      readShutdown := true;
      SameWindow(k, Abs());
    }

    method RequestClose()
      requires Valid()
      modifies this`closeRequested
      ensures Valid() && Abs() == old(Abs()).(send := old(Abs()).send.(closeRequested := true))
    {
      ghost var k := Abs();
      closeRequested := true;
      SameWindow(k, Abs());
    }

    method Shutdown(how: How, env: Env)
      requires Valid()
      modifies this, outbuf
      ensures Valid() && Abs() == Protocol.Shutdown(old(Abs()), how, env)
    {
      if how != ShutWr {
        MarkReadShut();
      }
      if (state == Connected || state == ConnectedFull) && how != ShutRd && !finSent {
        SendFin(env);
      }
    }

    method ReadDrained(env: Env)
      requires Wired()
      modifies this
      ensures Wired() && Abs() == Protocol.ReadDrained(old(Abs()), env)
    {
      if env.rcvWindow > lastRcvWin {
        if lastRcvWin == 0 {
          SendAck(env);
        } else {
          ackPending := true;
        }
      }
    }

    method OnReset()
      requires Wired()
      modifies this
      ensures Wired() && Abs() == Abort(old(Abs()))
    {
      state := if closeRequested then Destroy else Reset;
      events := events + [OnError];
    }

    method OnIcmpError()
      requires Wired()
      modifies this
      ensures Wired() && Abs() == IcmpError(old(Abs()))
    {
      if state != Idle {
        OnReset();
      }
    }

    /** Any call from outside: the class goes through exactly the run of its value. */
    method Perform(c: Call)
      requires Valid()
      modifies this, inbuf, outbuf
      ensures Valid() && Abs() == Do(old(Abs()), c)
    {
      DoKeeps(Abs(), c);
      match c {
        case CallWritev(data, env) =>
          assert [data][1..] == [] && [data][..1] == [data];
          assert data + Flatten([]) == data;
          var _ := Writev([data], env);
        case CallIncoming(p, env) => var _ := ProcessIncoming(p, env);
        case CallTimeouts(timers, before, after) => CheckTimeouts(timers, before, after);
        case CallClose(env) => Close(env);
        case CallShutdown(how, env) => Shutdown(how, env);
        case CallReadDrained(env) => ReadDrained(env);
        case CallDeferredAck(env) => if ackPending { SendAck(env); }
        case CallReset => OnReset();
        case CallIcmpError => OnIcmpError();
      }
    }

    /** What a debug build checks on every timer tick: the slot after `ackNr` is empty while
        packets wait above it, and the bytes in flight are those charged. */
    method CheckInvariant() returns (outstanding: nat)
      requires Valid() && (!gotFinReached ==> exists m :: Reorder.Stores(Abs().recv, m))
      ensures outstanding == curWindow
      ensures reorderCount > 0 && !gotFinReached ==> Ring.Get(inbuf.buf, ackNr + 1) == None
    {
      if !gotFinReached {
        ghost var m :| Reorder.Stores(Abs().recv, m);
        GapIsEmpty(m);
      }
      outstanding := CountInFlight();
    }

    lemma GapIsEmpty(m: map<int, Bytes>)
      requires Wired() && Reorder.Stores(Abs().recv, m)
      ensures Ring.Get(inbuf.buf, ackNr + 1) == None
    {
      WDistance(ack, -1);
      WDistance(ackNr + 1, 0);
      Ring.SameSlot(ackNr + 1, ack + 1, |inbuf.buf|);
      Ring.AgreesRange(inbuf.buf, ack, m, ack + 1);
    }

    method CountInFlight() returns (outstanding: nat)
      requires Wired()
      ensures outstanding == BytesInFlight(win, next - curWindowPackets, next)
    {
      outstanding := 0;
      var i := 0;
      while i < curWindowPackets
        invariant 0 <= i <= curWindowPackets
        invariant outstanding == BytesInFlight(win, next - i, next)
      {
        ghost var n := next - i - 1;
        WDistance(next, i + 1);
        OutbufHolds(seqNr - i - 1, n);
        BytesWithoutHead(win, n, next);
        var pkt := outbuf.Get(seqNr - i - 1);
        if pkt.Some? && pkt.value.transmissions > 0 && !pkt.value.needResend {
          outstanding := outstanding + |pkt.value.payload|;
        }
        i := i + 1;
      }
    }
  }

  /** Writing `rest` now, after `sent` bytes, leads to `outcome`. */
  ghost predicate Resumes(outcome: (Sock, nat), sent: nat, k: Sock, rest: Bytes, env: Env) {
    var r := WriteChunks(k, rest, env);
    outcome == (r.0, sent + r.1)
  }

  lemma ResumesAfter(outcome: (Sock, nat), sent: nat, k: Sock, rest: Bytes, num: nat, k1: Sock, env: Env)
    requires Resumes(outcome, sent, k, rest, env) && num == Min(|rest|, env.packetSize)
    requires !Protocol.IsFull(k, num, env) && k1 == Protocol.WriteOutgoingPacket(k, StData, rest[..num], env)
    ensures if Min(|rest| - num, env.packetSize) == 0 then outcome == (k1, sent + num)
            else Resumes(outcome, sent + num, k1, rest[num..], env)
  {
    var r1 := WriteChunks(k1, rest[num..], env);
  }

  lemma ResumesFull(outcome: (Sock, nat), sent: nat, k: Sock, rest: Bytes, env: Env)
    requires Resumes(outcome, sent, k, rest, env) && Protocol.IsFull(k, Min(|rest|, env.packetSize), env)
    ensures outcome == (if Protocol.IsFull(k, -1, env) then k.(state := ConnectedFull) else k, sent)
  {
  }

  lemma {:induction false} FlattenSplit(iov: seq<Bytes>, i: nat)
    requires i <= |iov|
    ensures Flatten(iov) == Flatten(iov[..i]) + Flatten(iov[i..])
  {
    if i > 0 {
      FlattenSplit(iov[1..], i - 1);
      assert iov[1..][..i - 1] == iov[..i][1..] && iov[1..][i - 1..] == iov[i..];
    } else {
      assert iov[..0] == [] && iov[0..] == iov;
    }
  }

  /** Taking bytes off one entry after empty ones takes them off the front. */
  lemma FlattenShorter(iov: seq<Bytes>, i: nat, num: nat)
    requires i < |iov| && num <= |iov[i]| && Flatten(iov[..i]) == []
    ensures Flatten(iov) == iov[i][..num] + Flatten(iov[i := iov[i][num..]])
  {
    var iov' := iov[i := iov[i][num..]];
    FlattenSplit(iov, i);
    FlattenSplit(iov', i);
    assert iov'[..i] == iov[..i] && iov'[i..][1..] == iov[i..][1..];
  }

  lemma FlattenOneMore(iov: seq<Bytes>, i: nat)
    requires i < |iov| && iov[i] == [] && Flatten(iov[..i]) == []
    ensures Flatten(iov[..i + 1]) == []
  {
    FlattenSplit(iov[..i + 1], i);
    assert iov[..i + 1][..i] == iov[..i] && iov[..i + 1][i..] == [iov[i]];
    assert Flatten([iov[i]]) == iov[i] + Flatten([]);
  }

  lemma FlushSkips(k: Sock, left: nat, inPrefix: bool, env: Env, k1: Sock)
    requires 0 < left && Settled(k.send.win, k.send.next - left)
    requires k1 == WithCursor(k, if inPrefix then W(k.send.next - left + 1) else k.send.flushScanStart)
    ensures FlushScan(k, left, inPrefix, env) == FlushScan(k1, left - 1, inPrefix, env)
  {
  }

  lemma FlushSends(k: Sock, left: nat, inPrefix: bool, env: Env, k1: Sock)
    requires 0 < left && !Settled(k.send.win, k.send.next - left) && !Protocol.IsFull(k, -1, env)
    requires left != 1 || k.send.count == 1 || |k.send.win[k.send.next - left].payload| >= env.packetSize
    requires k1 == WithCursor(Protocol.SendPacket(k, k.send.next - left),
                              if inPrefix then W(k.send.next - left + 1) else k.send.flushScanStart)
    ensures FlushScan(k, left, inPrefix, env) == FlushScan(k1, left - 1, inPrefix, env)
  {
  }

  lemma WPlus(a: int, b: int)
    ensures W(a + W(b)) == W(a + b)
  {
    WShift(a + W(b), b / MOD16);
  }

  /** The two places where 16-bit differences are taken say what the unbounded ones say. */
  lemma CursorDistance(s: SendState)
    ensures W(W(s.next) - s.count) == W(Head(s))
    ensures W(s.flushScanStart - W(W(s.next) - s.count)) == W(s.flushScanStart - Head(s))
  {
    WDistance(s.next, s.count);
    WDistance(s.flushScanStart, Head(s));
  }

  /** Going up from the head by the cursor's distance leads to the cursor. */
  lemma HeadToCursor(head: int, cursor: U16)
    ensures W(head + W(cursor - head)) == cursor
  {
    WPlus(head, cursor - head);
    WSmall(cursor);
  }

  /** Where the scan starts: at the cursor, or at the head when the cursor is not in the window. */
  lemma SpanOfCursor(s: SendState, begin: U16)
    requires var head := W(W(s.next) - s.count);
             begin == if W(s.flushScanStart - head) > s.count then head else s.flushScanStart
    requires s.count < MOD16
    ensures FlushSpan(s) <= s.count && begin == W(s.next - FlushSpan(s))
  {
    CursorDistance(s);
    HeadToCursor(Head(s), s.flushScanStart);
  }

  lemma SameNumber(a: int, d: nat)
    requires d < MOD16
    ensures W(a - d) == W(a) <==> d == 0
  {
    WDistance(a, a - d);
    WSmall(d);
  }

  /** Walking the 16-bit numbers from `next - left` meets `next` after exactly `left` steps. */
  lemma CursorNext(next: int, left: nat)
    requires left < MOD16
    ensures W(next - left) == W(next) <==> left == 0
    ensures W(W(next - left) + 1) == W(next - left + 1)
    ensures W(next - left) == W(W(next) - 1) <==> left == 1
  {
    SameNumber(next, left);
    WPlus(1, next - left);
    WPlus(-1, next);
    if left > 0 {
      SameNumber(next - 1, left - 1);
    } else {
      SameNumber(next, 1);
    }
  }

  lemma {:induction false} MaskOfOneMore(bits: seq<bool>, bit: bool)
    ensures MaskOf(bits + [bit]) == MaskOf(bits) + if bit then Ring.Pow2(|bits|) else 0
  {
    if bits == [] {
      assert [bit][1..] == [];
    } else {
      MaskOfOneMore(bits[1..], bit);
      assert (bits + [bit])[1..] == bits[1..] + [bit];
    }
  }

  lemma AckStops(k: Sock, acks: nat, env: Env)
    requires acks > 0 && k.send.count > 0 && Protocol.AckPacket(k, Head(k.send), env).1 == NeverSent
    ensures AckCumulative(k, acks, env) == Protocol.AckPacket(k, Head(k.send), env).0
  {
  }

  lemma AckGoesOn(k: Sock, acks: nat, env: Env, k1: Sock, k2: Sock)
    requires acks > 0 && k.send.count > 0 && Protocol.AckPacket(k, Head(k.send), env).1 != NeverSent
    requires k1 == Protocol.AckPacket(k, Head(k.send), env).0 && k1.send.count > 0
    requires k2 == k1.(send := k1.send.(count := k1.send.count - 1))
    ensures AckCumulative(k, acks, env) == AckCumulative(k2, acks - 1, env)
  {
  }

  /** The 16-bit numbers of a list of unwrapped ones. */
  function Wrapped(s: seq<int>): (r: seq<U16>)
    ensures |r| == |s| && forall i :: 0 <= i < |s| ==> r[i] == W(s[i])
  {
    if s == [] then [] else Wrapped(s[..|s| - 1]) + [W(s[|s| - 1])]
  }

  lemma SackNumberIs(next: int, v: int)
    ensures W(W(next) - v - 1) == W(next - v - 1)
    ensures W(next - 1 - W(next - v - 1)) == W(v)
  {
    WDistance(next, v + 1);
    WDistance(next - 1, next - v - 1);
  }

  lemma OffsetFrom(nr: int, ack: int)
    ensures W(nr - W(ack) - 1) == W(nr - ack - 1)
  {
    WDistance(nr - 1, ack);
  }

  lemma DrainStops(k: Sock, k1: Sock, env: Env)
    requires k1 == PostEof(k, env)
    requires k1.recv.reorderCount == 0 || Ring.Get(k1.recv.inbuf, k1.recv.ack + 1) == None
    ensures Drain(k, env) == k1
  {
  }

  lemma DrainGoesOn(k: Sock, k1: Sock, k2: Sock, env: Env)
    requires k1 == PostEof(k, env) && k1.recv.reorderCount > 0 && Ring.Get(k1.recv.inbuf, k1.recv.ack + 1).Some?
    requires k2 == Protocol.Drained(k1, Ring.Get(k1.recv.inbuf, k1.recv.ack + 1).value)
    ensures Drain(k, env) == Drain(k2, env)
  {
  }

  /** The socket when the packets from `lo` on have been marked for resending. */
  ghost function MarkedFrom(k: Sock, lo: int): Sock {
    var s := k.send;
    k.(send := s.(win := map n | n in s.win ::
                    if lo <= n < s.next && InFlight(s.win[n]) then s.win[n].(needResend := true) else s.win[n]),
       ctl := k.ctl.(curWindow := k.ctl.curWindow - BytesInFlight(s.win, lo, s.next)))
  }

  lemma MarkedOneMore(k: Sock, n: int)
    requires n < k.send.next
    ensures var k1, k2 := MarkedFrom(k, n + 1), MarkedFrom(k, n);
            && Ring.Lookup(k1.send.win, n) == Ring.Lookup(k.send.win, n)
            && k2 == if Settled(k1.send.win, n) && n in k1.send.win
                     then k1.(send := k1.send.(win := k1.send.win[n := k1.send.win[n].(needResend := true)]),
                              ctl := k1.ctl.(curWindow := k1.ctl.curWindow - |k1.send.win[n].payload|))
                     else k1
  {
    BytesWithoutHead(k.send.win, n, k.send.next);
    var k1, k2 := MarkedFrom(k, n + 1), MarkedFrom(k, n);
    if n in k.send.win && InFlight(k.send.win[n]) {
      assert k2.send.win == k1.send.win[n := k1.send.win[n].(needResend := true)];
    } else {
      assert k2.send.win == k1.send.win;
    }
  }

  lemma MarkedAll(k: Sock)
    ensures var k1 := MarkedFrom(k, Head(k.send));
            MarkForResend(k) == k1.(send := k1.send.(flushScanStart := W(Head(k.send))))
  {
  }

  lemma SameEmptyWindow(k: Sock, k': Sock)
    requires SenderInv(k) && k.send.win == map[] && k.send.count == 0
    requires k'.send == k.send.(next := k'.send.next) && k'.ctl.curWindow == k.ctl.curWindow
    ensures SenderInv(k')
  {
  }

  /** What a bit about packet `n`, called `v` in the mask, does to the socket and to the list. */
  function SackPacket(k: Sock, n: int, v: int, bitSet: bool, count: nat, resends: seq<U16>, env: Env): (Sock,
                      seq<U16>) {
    if n !in k.send.win || k.send.win[n].transmissions == 0 then (k, resends)
    else if bitSet then (Protocol.AckPacket(k, n, env).0, resends)
    else if Resendable(k, v, count) then (k, PushResend(resends, W(v)))
    else (k, resends)
  }

  lemma VisitIsPacket(c: Scan, base: int, mask: Mask, bits: int, env: Env, n: int)
    requires -1 <= bits < 8 * |mask| && SackNumber(c.sock.send, base, bits) == Some(n)
    ensures var found := c.found + BoolBit(SackBitSet(mask, bits));
            var r := SackPacket(c.sock, n, base + bits, SackBitSet(mask, bits), found, c.resends, env);
            SackVisit(c, base, mask, bits, env) == Scan(r.0, found, r.1)
  {
  }

  lemma JoinPieces(data: Bytes, piece: Bytes, rest: Bytes, whole: Bytes)
    requires data + (piece + rest) == whole
    ensures (data + piece) + rest == whole
  {
  }

  /** At the end of the list there is nothing left to copy. */
  lemma NoneLeft(data: Bytes, iov: seq<Bytes>, i: nat, needed: nat, left: nat)
    requires i <= |iov| && |data| + left == needed <= |data + Flatten(iov)|
    requires (left > 0 ==> Flatten(iov[..i]) == []) && (i == |iov| || left == 0)
    ensures left == 0
  {
    assert i == |iov| ==> iov[..i] == iov;
  }

  /** Processing once the peer's number is known: in the window, or too old or too new. */
  function Placed(k: Sock, p: Packet, env: Env): (Sock, nat) {
    var seqnr := IncomingOffset(k, p);
    if seqnr >= REORDER_BUFFER_MAX_SIZE then
      (if seqnr >= MOD16 - REORDER_BUFFER_MAX_SIZE && p.typ != StState then k.(ackPending := true) else k, 0)
    else Protocol.ProcessInWindow(k, p, seqnr, env)
  }

  lemma WrappedPrefix(list: seq<int>, left: nat)
    requires left < |list|
    ensures Wrapped(list[..left + 1]) == Wrapped(list[..left]) + [W(list[left])]
  {
    assert list[..left + 1][..left] == list[..left];
  }

  /** One candidate from the end of the list. */
  lemma ResendFrom(k: Sock, list: seq<int>, left: nat, budget: nat, k1: Sock, resent: bool)
    requires left < |list| && budget > 0 && k.send.ringSize > 0
    requires var n := Ring.Alias(W(list[left]), Head(k.send), k.send.ringSize);
             resent == (n in k.send.win) && k1 == if resent then ResendOne(k, W(list[left]), n) else k
    ensures ResendLast(k, Wrapped(list[..left + 1]), budget)
         == ResendLast(k1, Wrapped(list[..left]), if resent then budget - 1 else budget)
  {
    WrappedPrefix(list, left);
    ResendStep(k, Wrapped(list[..left]), W(list[left]), budget, k1, resent);
  }

  lemma ResendEnds(k: Sock, list: seq<int>, left: nat, budget: nat)
    requires left <= |list| && (left == 0 || budget == 0)
    ensures ResendLast(k, Wrapped(list[..left]), budget) == k
  {
    assert left == 0 ==> Wrapped(list[..left]) == [];
  }

  lemma PieceAfter(data: Bytes, left: nat, added: nat)
    requires added <= left <= |data|
    ensures data[..left][added..] == data[added..][..left - added]
  {
  }

  lemma RoundsGoOn(k: Sock, flags: PacketType, data: Bytes, added: nat, k1: Sock, env: Env)
    requires added == Added(k.send, data, env.packetSize) && k1 == WriteRound(k, flags, data, env)
    ensures WriteRounds(k, flags, data, env) == if added < |data| then WriteRounds(k1, flags, data[added..],
            env) else k1
  {
  }
}
