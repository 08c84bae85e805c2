/** One uTP socket as a value, and what each operation of `UtpSocket` does to it.

    The sender's outgoing ring is represented by what it stands for: a map from unbounded
    sequence numbers to packets (module Ring relates the two). Everything that
    travels in a packet or is compared with a packet field stays a wrapped 16-bit number.
    The receiver's reorder ring is kept slot by slot.

    What the clock, the congestion controller and the MTU search answer is a parameter of each
    operation, so every result below holds for all their answers. */
module Protocol {
  import opened Serial
  import Ring

  type Bytes = seq<bv8>

  /** The bit mask of a selective acknowledgement, byte by byte. */
  type Mask = seq<Byte>

  const REORDER_BUFFER_MAX_SIZE := 1024
  const OUTGOING_BUFFER_MAX_SIZE := 1024
  const DUPLICATE_ACKS_BEFORE_RESEND := 3
  const PACKET_SIZE := 1435
  const MAX_RESENDS := 4

  datatype PacketType = StData | StFin | StState | StReset | StSyn

  /** A packet on the wire, without its timestamps and connection id. */
  datatype Packet = Packet(typ: PacketType, seqNr: U16, ackNr: U16, windowSize: nat,
                           sack: Option<Mask>, payload: Bytes)

  /** The unbounded numbers behind the two 16-bit numbers of a packet that was sent. */
  datatype Tag = Tag(seqno: int, ackno: int)

  datatype OutPkt = OutPkt(typ: PacketType, seqNr: U16, windowSize: nat, payload: Bytes,
                           transmissions: nat, needResend: bool)

  datatype ConnState = Uninitialized | Idle | SynSent | SynRecv | Connected | ConnectedFull | Reset | Destroy

  datatype Event =
    | OnRead(data: Bytes)
    | OnEof
    | OnWritable
    | OnConnect
    | OnError
    | FastResend(v: U16, at: nat) // the slot of `v` was looked up, and its packet sent as `out[at]`

  datatype SendState = SendState(
    next: int,              // the unbounded number whose wrapped value is seq_nr
    count: nat,             // cur_window_packets
    ringSize: nat,          // outbuf.size()
    win: map<int, OutPkt>,  // outbuf
    finSent: bool,
    finSentAcked: bool,
    closeRequested: bool,
    maxWindowUser: nat,
    flushScanStart: U16)

  datatype RecvState = RecvState(
    ack: int,               // the unbounded number whose wrapped value is ack_nr
    reorderCount: nat,
    eofPkt: U16,
    gotFin: bool,
    gotFinReached: bool,
    readShutdown: bool,
    lastRcvWin: nat,
    inbuf: seq<Option<Bytes>>)

  /** The part of the congestion controller and timing state that the socket itself drives. */
  datatype Control = Control(
    curWindow: int,
    retransmitCount: nat,
    retransmitTimeout: nat,
    fastTimeout: bool,
    fastResend: U16)

  datatype Sock = Sock(
    state: ConnState,
    send: SendState,
    recv: RecvState,
    ctl: Control,
    ackPending: bool,
    out: seq<Packet>,       // everything handed to sendto, oldest first
    tags: seq<Tag>,         // the numbers behind `out`
    events: seq<Event>)     // everything reported to the application, oldest first

  /** Answers of the environment during one operation: `windowLimit` is the smaller of the
      congestion window and the send buffer, `rto` the retransmission timeout estimate. */
  datatype Env = Env(packetSize: nat, windowLimit: nat, rcvWindow: nat, rto: nat)

  datatype Timers = Timers(expired: bool, probeTimedOut: bool, zeroWindowOver: bool, keepAliveDue: bool)

  function Min(a: int, b: int): int {
    if a <= b then a else b
  }

  function Head(s: SendState): int {
    s.next - s.count
  }

  function WithCursor(k: Sock, cursor: U16): Sock {
    k.(send := k.send.(flushScanStart := cursor))
  }

  function Report(k: Sock, e: Event): Sock {
    k.(events := k.events + [e])
  }

  // ---------------------------------------------------------------- sending packets

  predicate InFlight(pkt: OutPkt) {
    pkt.transmissions > 0 && !pkt.needResend
  }

  function Sent(pkt: OutPkt): OutPkt {
    pkt.(transmissions := pkt.transmissions + 1, needResend := false)
  }

  function OnWire(pkt: OutPkt, ackNr: U16): Packet {
    Packet(pkt.typ, pkt.seqNr, ackNr, pkt.windowSize, None, pkt.payload)
  }

  function SendPacket(k: Sock, n: int): Sock
    requires n in k.send.win
  {
    var pkt := k.send.win[n];
    k.(send := k.send.(win := k.send.win[n := Sent(pkt)]),
       ctl := k.ctl.(curWindow := k.ctl.curWindow + if InFlight(pkt) then 0 else |pkt.payload|),
       ackPending := false,
       out := k.out + [OnWire(pkt, W(k.recv.ack))],
       tags := k.tags + [Tag(n, k.recv.ack)])
  }

  /** `is_full`; a negative size asks for one whole packet. */
  predicate IsFull(k: Sock, bytes: int, env: Env) {
    var size := if bytes < 0 then env.packetSize else Min(bytes, env.packetSize);
    || k.send.count >= OUTGOING_BUFFER_MAX_SIZE - 1
    || k.ctl.curWindow + size > Min(env.windowLimit, k.send.maxWindowUser)
  }

  /** A packet the flush has nothing to do for. */
  predicate Settled(win: map<int, OutPkt>, n: int) {
    n !in win || InFlight(win[n])
  }

  /** A packet that has left can no longer be filled up. */
  predicate Frozen(win: map<int, OutPkt>, n: int) {
    n !in win || win[n].transmissions > 0
  }

  /** The scan of `flush_packets` over the last `left` numbers of the window. */
  function FlushScan(k: Sock, left: nat, inPrefix: bool, env: Env): (Sock, bool)
    decreases left
  {
    if left == 0 then (k, false) else
    var n := k.send.next - left;
    var cursor := if inPrefix then W(n + 1) else k.send.flushScanStart;
    if Settled(k.send.win, n) then
      FlushScan(WithCursor(k, cursor), left - 1, inPrefix, env)
    else if IsFull(k, -1, env) then
      (k, true)
    else if left != 1 || k.send.count == 1 || |k.send.win[n].payload| >= env.packetSize then
      FlushScan(WithCursor(SendPacket(k, n), cursor), left - 1, inPrefix, env)
    else
      FlushScan(k, left - 1, false, env)
  }

  /** How many numbers the flush visits: it starts at the cursor when that lies in the window
      and at the head of the window otherwise. */
  function FlushSpan(s: SendState): nat {
    var ahead := W(s.flushScanStart - Head(s));
    if ahead > s.count then s.count else s.count - ahead
  }

  function Flush(k: Sock, env: Env): (Sock, bool) {
    FlushScan(k, FlushSpan(k.send), true, env)
  }

  // ---------------------------------------------------------------- writing

  predicate CanTopUp(s: SendState, packetSize: nat) {
    && s.count > 0
    && s.next - 1 in s.win
    && s.win[s.next - 1].transmissions == 0
    && |s.win[s.next - 1].payload| < packetSize
  }

  function TopUp(k: Sock, typ: PacketType, data: Bytes, env: Env): Sock
    requires k.send.next - 1 in k.send.win
  {
    var n := k.send.next - 1;
    var pkt := k.send.win[n];
    var pkt' := pkt.(typ := typ, windowSize := env.rcvWindow, payload := pkt.payload + data);
    k.(send := k.send.(win := k.send.win[n := pkt']),
       recv := k.recv.(lastRcvWin := env.rcvWindow))
  }

  function Append(k: Sock, typ: PacketType, data: Bytes, env: Env): Sock {
    var s := k.send;
    var pkt := OutPkt(typ, W(s.next), env.rcvWindow, data, 0, false);
    k.(send := s.(next := s.next + 1,
                  count := s.count + 1,
                  ringSize := if s.ringSize == 0 then 0 else Ring.GrownSize(s.ringSize, s.count),
                  win := s.win[s.next := pkt]),
       recv := k.recv.(lastRcvWin := env.rcvWindow))
  }

  /** How many of the `|data|` bytes the next round of `write_outgoing_packet` places. */
  function Added(s: SendState, data: Bytes, packetSize: nat): (added: nat)
    ensures added <= |data| && (data != [] ==> added > 0)
  {
    if data != [] && CanTopUp(s, packetSize)
    then Min(|data|, packetSize - |s.win[s.next - 1].payload|)
    else |data|
  }

  function WriteRound(k: Sock, typ: PacketType, data: Bytes, env: Env): Sock {
    if data != [] && CanTopUp(k.send, env.packetSize)
    then TopUp(k, typ, data[..Added(k.send, data, env.packetSize)], env)
    else Append(k, typ, data, env)
  }

  function WriteRounds(k: Sock, typ: PacketType, data: Bytes, env: Env): Sock
    decreases |data|
  {
    var added := Added(k.send, data, env.packetSize);
    var k' := WriteRound(k, typ, data, env);
    if added < |data| then WriteRounds(k', typ, data[added..], env) else k'
  }

  function WriteOutgoingPacket(k: Sock, typ: PacketType, data: Bytes, env: Env): Sock {
    var k0 := if k.send.count == 0 then k.(ctl := k.ctl.(retransmitTimeout := env.rto)) else k;
    Flush(WriteRounds(k0, typ, data, env), env).0
  }

  function WriteChunks(k: Sock, data: Bytes, env: Env): (Sock, nat)
    decreases |data|
  {
    var num := Min(|data|, env.packetSize);
    if IsFull(k, num, env) then
      (if IsFull(k, -1, env) then k.(state := ConnectedFull) else k, 0)
    else
      var k' := WriteOutgoingPacket(k, StData, data[..num], env);
      if Min(|data| - num, env.packetSize) == 0 then (k', num)
      else
        var (k'', sent) := WriteChunks(k', data[num..], env);
        (k'', num + sent)
  }

  /** `writev` on the flattened buffers; the second result is the number of bytes accepted. */
  function Writev(k: Sock, data: Bytes, env: Env): (Sock, nat) {
    if k.state != Connected || k.send.finSent then (k, 0) else WriteChunks(k, data, env)
  }

  function SendFin(k: Sock, env: Env): Sock {
    WriteOutgoingPacket(k.(send := k.send.(finSent := true)), StFin, [], env)
  }

  // ---------------------------------------------------------------- selective acknowledgements

  /** Bit `i` of a number. */
  predicate NatBit(m: nat, i: nat) {
    if i == 0 then m % 2 == 1 else NatBit(m / 2, i - 1)
  }

  /** `mask[i >> 3] & (1 << (i & 7))`. */
  predicate MaskBit(mask: Mask, i: nat)
    requires i < 8 * |mask|
  {
    NatBit(mask[i / 8], i % 8)
  }

  function BoolBit(b: bool): nat {
    if b then 1 else 0
  }

  /** The number whose bit `i` is `bits[i]`. */
  function MaskOf(bits: seq<bool>): nat {
    if bits == [] then 0 else BoolBit(bits[0]) + 2 * MaskOf(bits[1..])
  }

  function ByteAt(m: nat, j: nat): Byte {
    if j == 0 then m % 0x100 else ByteAt(m / 0x100, j - 1)
  }

  /** The four bytes of a mask, least significant first. */
  function MaskBytes(m: nat): Mask {
    [ByteAt(m, 0), ByteAt(m, 1), ByteAt(m, 2), ByteAt(m, 3)]
  }

  const SACK_BITS := 30

  /** Which of the `count` numbers from `n` on the reorder ring holds. */
  function HeldFrom(inbuf: seq<Option<Bytes>>, n: int, count: nat): (bits: seq<bool>)
    ensures |bits| == count
  {
    if count == 0 then [] else HeldFrom(inbuf, n, count - 1) + [Ring.Get(inbuf, n + count - 1).Some?]
  }

  function SackBits(r: RecvState): seq<bool> {
    HeldFrom(r.inbuf, r.ack + 2, Min(SACK_BITS, |r.inbuf|))
  }

  function SackOf(r: RecvState): Option<Mask> {
    if r.reorderCount != 0 && !r.gotFinReached then Some(MaskBytes(MaskOf(SackBits(r)))) else None
  }

  function SendAck(k: Sock, env: Env): Sock {
    k.(recv := k.recv.(lastRcvWin := env.rcvWindow),
       ackPending := false,
       out := k.out + [Packet(StState, W(k.send.next), W(k.recv.ack), env.rcvWindow, SackOf(k.recv), [])],
       tags := k.tags + [Tag(k.send.next, k.recv.ack)])
  }

  /** An acknowledgement that is one number out of date. */
  function SendKeepAlive(k: Sock, env: Env): Sock {
    var k' := SendAck(k.(recv := k.recv.(ack := k.recv.ack - 1)), env);
    k'.(recv := k'.recv.(ack := k.recv.ack))
  }

  // ---------------------------------------------------------------- acknowledgement processing

  datatype AckStatus = Acked | NotThere | NeverSent

  function AckPacket(k: Sock, n: int, env: Env): (Sock, AckStatus) {
    if n !in k.send.win then (k, NotThere)
    else if k.send.win[n].transmissions == 0 then (k, NeverSent)
    else
      var pkt := k.send.win[n];
      (k.(send := k.send.(win := k.send.win - {n}),
          ctl := k.ctl.(curWindow := k.ctl.curWindow - if pkt.needResend then 0 else |pkt.payload|,
                        retransmitCount := 0,
                        retransmitTimeout := env.rto)),
       Acked)
  }

  function AckCumulative(k: Sock, acks: nat, env: Env): Sock
    decreases acks
  {
    if acks == 0 || k.send.count == 0 then k else
    var (k', status) := AckPacket(k, Head(k.send), env);
    if status == NeverSent then k'
    else AckCumulative(k'.(send := k'.send.(count := k'.send.count - 1)), acks - 1, env)
  }

  /** Packets at the head that were acknowledged selectively leave the window. */
  function SkipAcked(k: Sock): Sock
    decreases k.send.count
  {
    if k.send.count > 0 && Head(k.send) !in k.send.win
    then SkipAcked(k.(send := k.send.(count := k.send.count - 1)))
    else k
  }

  function AdvanceState(k: Sock, p: Packet, acks: nat): Sock {
    var k1 := k.(send := k.send.(maxWindowUser := p.windowSize));
    var k2 := if p.typ == StData && k1.state == SynRecv then k1.(state := Connected) else k1;
    if p.typ == StState && k2.state == SynSent then
      Report(k2.(state := Connected), OnConnect)
    else if k2.send.finSent && k2.send.count == acks then
      k2.(send := k2.send.(finSentAcked := true),
          state := if k2.send.closeRequested then Destroy else k2.state)
    else k2
  }

  function RaiseFastResend(k: Sock, ackNr: U16): Sock {
    if WrappingLess(k.ctl.fastResend, W(ackNr + 1), MOD16)
    then k.(ctl := k.ctl.(fastResend := W(ackNr + 1)))
    else k
  }

  /** A last packet that was held back to be filled up is sent once it is alone. */
  function SendLoneUnsent(k: Sock): Sock {
    var n := k.send.next - 1;
    if k.send.count == 1 && n in k.send.win && k.send.win[n].transmissions == 0
    then SendPacket(k, n)
    else k
  }

  /** After a timeout, every acknowledgement that exposes the next packet resends it. */
  function FastTimeout(k: Sock): Sock {
    var n := Head(k.send);
    if !k.ctl.fastTimeout then k
    else if W(n) != k.ctl.fastResend then k.(ctl := k.ctl.(fastTimeout := false))
    else if n in k.send.win && k.send.win[n].transmissions > 0 then
      var k' := Report(k.(ctl := k.ctl.(fastResend := W(k.ctl.fastResend + 1))), FastResend(W(n), |k.out|));
      SendPacket(k', n)
    else k
  }

  function AdvanceSendWindow(k: Sock, p: Packet, acks: nat, env: Env): Sock {
    var k1 := RaiseFastResend(AdvanceState(k, p, acks), p.ackNr);
    var k2 := SkipAcked(AckCumulative(k1, acks, env));
    FastTimeout(SendLoneUnsent(k2))
  }

  datatype Scan = Scan(sock: Sock, found: nat, resends: seq<U16>)

  /** Is `v` close enough above the last number resent to be considered for resending? */
  predicate Resendable(k: Sock, v: int, found: nat) {
    W(v - k.ctl.fastResend) <= OUTGOING_BUFFER_MAX_SIZE && found >= DUPLICATE_ACKS_BEFORE_RESEND
  }

  /** The number of the window that bit `bits` of a mask speaks about, or None when that bit
      speaks about the head of the window or about no number of the window. */
  function SackNumber(s: SendState, base: int, bits: int): Option<int> {
    var off := W(s.next - (base + bits) - 1);
    if off >= s.count - 1 then None else Some(s.next - 1 - off)
  }

  const MAX_EACK := 128

  /** The list of candidates drops its older half when it is about to fill up. */
  function PushResend(resends: seq<U16>, v: U16): seq<U16> {
    (if |resends| >= MAX_EACK - 2 then resends[MAX_EACK / 2..] else resends) + [v]
  }

  predicate SackBitSet(mask: Mask, bits: int)
    requires -1 <= bits < 8 * |mask|
  {
    bits >= 0 && MaskBit(mask, bits)
  }

  function SackVisit(c: Scan, base: int, mask: Mask, bits: int, env: Env): Scan
    requires -1 <= bits < 8 * |mask|
  {
    var k := c.sock;
    match SackNumber(k.send, base, bits)
    case None => c
    case Some(n) =>
      var isSet := SackBitSet(mask, bits);
      var found := c.found + BoolBit(isSet);
      if n !in k.send.win || k.send.win[n].transmissions == 0 then c.(found := found)
      else if isSet then Scan(AckPacket(k, n, env).0, found, c.resends)
      else if Resendable(k, base + bits, found) then Scan(k, found, PushResend(c.resends, W(base + bits)))
      else c.(found := found)
  }

  function SackScan(c: Scan, base: int, mask: Mask, bits: int, env: Env): Scan
    requires -2 <= bits < 8 * |mask|
    decreases bits + 2
  {
    if bits == -2 then c else SackScan(SackVisit(c, base, mask, bits, env), base, mask, bits - 1, env)
  }

  /** Resend from the end of the list, at most `budget` packets that are still there. */
  function ResendLast(k: Sock, resends: seq<U16>, budget: nat): Sock
    decreases |resends|
  {
    if resends == [] || budget == 0 then k else
    var v := resends[|resends| - 1];
    var rest := resends[..|resends| - 1];
    var n := if k.send.ringSize == 0 then v else Ring.Alias(v, Head(k.send), k.send.ringSize);
    if n !in k.send.win then ResendLast(k, rest, budget)
    else
      var k' := SendPacket(Report(k, FastResend(v, |k.out|)), n);
      ResendLast(k'.(ctl := k'.ctl.(fastResend := W(v + 1))), rest, budget - 1)
  }

  function SackCandidates(c: Scan, base: int): seq<U16> {
    if Resendable(c.sock, base - 1, c.found) then c.resends + [W(base - 1)] else c.resends
  }

  function SelectiveAck(k: Sock, base: int, mask: Mask, env: Env): Sock {
    if k.send.count == 0 then k else
    var c := SackScan(Scan(k, 0, []), base, mask, 8 * |mask| - 1, env);
    ResendLast(c.sock, SackCandidates(c, base), MAX_RESENDS)
  }

  // ---------------------------------------------------------------- receiving data

  function Read(k: Sock, data: Bytes): Sock {
    if data != [] && !k.recv.readShutdown then Report(k, OnRead(data)) else k
  }

  function PostEof(k: Sock, env: Env): Sock {
    if !k.recv.gotFinReached && k.recv.gotFin && k.recv.eofPkt == W(k.recv.ack) then
      var k' := SendAck(Report(k.(recv := k.recv.(gotFinReached := true)), OnEof), env);
      k'.(recv := k'.recv.(reorderCount := 0))
    else k
  }

  /** The state after one more number has been delivered. */
  function Drained(k: Sock, data: Bytes): Sock
    requires k.recv.reorderCount > 0
  {
    var k2 := Read(k, data);
    k2.(recv := k2.recv.(ack := k2.recv.ack + 1,
                         reorderCount := k2.recv.reorderCount - 1,
                         inbuf := Ring.Take(k2.recv.inbuf, k2.recv.ack + 1)))
  }

  /** Deliver what the reorder ring holds from `ack + 1` on, without a gap. */
  function Drain(k: Sock, env: Env): Sock
    decreases k.recv.reorderCount
  {
    var k1 := PostEof(k, env);
    if k1.recv.reorderCount == 0 then k1 else
    match Ring.Get(k1.recv.inbuf, k1.recv.ack + 1)
    case None => k1
    case Some(data) => Drain(Drained(k1, data), env)
  }

  function NoteFin(k: Sock, p: Packet): Sock {
    if p.typ == StFin && !k.recv.gotFin
    then k.(recv := k.recv.(gotFin := true, eofPkt := p.seqNr))
    else k
  }

  function DeliverInOrder(k: Sock, payload: Bytes, env: Env): Sock {
    var k1 := Read(k, payload);
    Drain(k1.(recv := k1.recv.(ack := k1.recv.ack + 1)), env).(ackPending := true)
  }

  /** Room is made for the packet's number before the slot is looked at. */
  function StoreOutOfOrder(r: RecvState, p: Packet, seqnr: nat): (RecvState, bool) {
    if r.inbuf == [] then (r, false) else
    var buf := Ring.Ensure(r.inbuf, p.seqNr + 1, seqnr + 1);
    if Ring.Get(buf, p.seqNr).Some? then (r.(inbuf := buf), false)
    else (r.(inbuf := Ring.Put(buf, p.seqNr, p.payload), reorderCount := r.reorderCount + 1), true)
  }

  function Buffer(k: Sock, p: Packet, seqnr: nat): (Sock, nat) {
    var (r, stored) := StoreOutOfOrder(k.recv, p, seqnr);
    (k.(recv := r, ackPending := k.ackPending || stored), if stored then |p.payload| else 0)
  }

  function DeliverAt(k: Sock, p: Packet, seqnr: nat, env: Env): (Sock, nat) {
    if seqnr == 0 then (DeliverInOrder(k, p.payload, env), |p.payload|)
    else if k.recv.gotFin && seqnr > W(k.recv.eofPkt - k.recv.ack - 1) then (k, 0)
    else if seqnr > 0x3ff then (k, 0)
    else Buffer(k, p, seqnr)
  }

  function DeliverData(k: Sock, p: Packet, seqnr: nat, env: Env): (Sock, nat) {
    DeliverAt(NoteFin(k, p), p, seqnr, env)
  }

  function ProcessAcks(k: Sock, p: Packet, env: Env): Sock {
    var acks := AckCount(W(k.send.next), k.send.count, p.ackNr);
    var k1 := AdvanceSendWindow(k, p, acks, env);
    match p.sack
    case None => k1
    case Some(mask) => SelectiveAck(k1, p.ackNr + 2, mask, env)
  }

  function ReopenWindow(k: Sock, env: Env): Sock {
    if k.state == ConnectedFull && !IsFull(k, -1, env)
    then Report(k.(state := Connected), OnWritable)
    else k
  }

  /** The part of `process_incoming` after the packet has been found to lie in the window. */
  function ProcessInWindow(k: Sock, p: Packet, seqnr: nat, env: Env): (Sock, nat) {
    var k1 := ReopenWindow(ProcessAcks(k, p, env), env);
    if p.typ == StState || (k1.state != Connected && k1.state != ConnectedFull) then (k1, 0)
    else DeliverData(k1, p, seqnr, env)
  }

  /** While connecting, the first answer tells where the peer's numbers start. */
  function LearnPeerNumber(k: Sock, p: Packet): Sock {
    if k.state == SynSent then k.(recv := k.recv.(ack := p.seqNr - 1)) else k
  }

  function IncomingOffset(k: Sock, p: Packet): nat {
    W(p.seqNr - k.recv.ack - 1)
  }

  /** `process_incoming`; the second result is the number of payload bytes taken. */
  function ProcessIncoming(k: Sock, p: Packet, env: Env): (Sock, nat) {
    if (p.typ != StSyn || k.state != SynRecv) && !AckAcceptable(W(k.send.next), k.send.count, p.ackNr) then
      (k, 0)
    else
      var k0 := LearnPeerNumber(k, p);
      var seqnr := IncomingOffset(k0, p);
      if seqnr >= REORDER_BUFFER_MAX_SIZE then
        (if seqnr >= MOD16 - REORDER_BUFFER_MAX_SIZE && p.typ != StState then k0.(ackPending := true) else k0, 0)
      else ProcessInWindow(k0, p, seqnr, env)
  }

  // ---------------------------------------------------------------- timeouts

  /** Payload bytes of the packets of `[lo, hi)` that are sent and not marked for resending. */
  function BytesInFlight(win: map<int, OutPkt>, lo: int, hi: int): nat
    decreases hi - lo
  {
    if lo >= hi then 0
    else BytesInFlight(win, lo, hi - 1) +
         if hi - 1 in win && InFlight(win[hi - 1]) then |win[hi - 1].payload| else 0
  }

  function MarkForResend(k: Sock): Sock {
    var s := k.send;
    k.(send := s.(win := map n | n in s.win ::
                    if Head(s) <= n < s.next && InFlight(s.win[n]) then s.win[n].(needResend := true) else s.win[n],
                  flushScanStart := W(Head(s))),
       ctl := k.ctl.(curWindow := k.ctl.curWindow - BytesInFlight(s.win, Head(s), s.next)))
  }

  predicate TimeoutActive(state: ConnState) {
    state == SynSent || state == SynRecv || state == Connected || state == ConnectedFull
  }

  predicate GiveUp(k: Sock) {
    k.ctl.retransmitCount >= 4 || (k.state == SynSent && k.ctl.retransmitCount >= 2)
  }

  function ResendAfterTimeout(k: Sock): Sock {
    var k1 := MarkForResend(k);
    if k1.send.count == 0 then k1
    else
      var k2 := k1.(ctl := k1.ctl.(retransmitCount := k1.ctl.retransmitCount + 1, fastTimeout := true));
      if Head(k2.send) in k2.send.win then SendPacket(k2, Head(k2.send)) else k2
  }

  /** What an expired retransmission timer does; false when the connection is given up. */
  function RtoExpired(k: Sock, probeTimedOut: bool): (Sock, bool) {
    var newTimeout := if probeTimedOut then k.ctl.retransmitTimeout else k.ctl.retransmitTimeout * 2;
    if k.state == SynRecv then (Report(k.(state := Destroy), OnError), false)
    else if GiveUp(k) then
      (Report(k.(state := if k.send.closeRequested then Destroy else Reset), OnError), false)
    else (ResendAfterTimeout(k.(ctl := k.ctl.(retransmitTimeout := newTimeout))), true)
  }

  function FlushUnlessDestroyed(k: Sock, env: Env): Sock {
    if k.state != Destroy then Flush(k, env).0 else k
  }

  function LiftZeroWindow(k: Sock, timers: Timers): Sock {
    if timers.zeroWindowOver && k.send.maxWindowUser == 0
    then k.(send := k.send.(maxWindowUser := PACKET_SIZE))
    else k
  }

  function KeepAlive(k: Sock, timers: Timers, env: Env): Sock {
    if (k.state == Connected || k.state == ConnectedFull) && !k.send.finSent && timers.keepAliveDue
    then SendKeepAlive(k, env)
    else k
  }

  function MaybeExpire(k: Sock, timers: Timers): (Sock, bool) {
    if timers.expired then RtoExpired(k, timers.probeTimedOut) else (k, true)
  }

  function RunTimers(k: Sock, timers: Timers, env: Env): Sock {
    if !TimeoutActive(k.state) then k else
    var (k1, alive) := MaybeExpire(LiftZeroWindow(k, timers), timers);
    if !alive then k1 else KeepAlive(ReopenWindow(k1, env), timers, env)
  }

  /** `check_timeouts`; the flush sees the environment `before` the timer, the rest the one
      `after` it, because an expiry shrinks the congestion window. */
  function CheckTimeouts(k: Sock, timers: Timers, before: Env, after: Env): Sock {
    RunTimers(FlushUnlessDestroyed(k, before), timers, after)
  }

  // ---------------------------------------------------------------- opening and closing

  datatype How = ShutRd | ShutWr | ShutRdWr

  function MarkReadShutdown(k: Sock): Sock {
    k.(recv := k.recv.(readShutdown := true))
  }

  function Close(k: Sock, env: Env): Sock {
    if k.state == Connected || k.state == ConnectedFull then
      var k1 := MarkReadShutdown(k);
      var k2 := k1.(send := k1.send.(closeRequested := true));
      if !k2.send.finSent then SendFin(k2, env)
      else if k2.send.finSentAcked then k2.(state := Destroy)
      else k2
    else k.(state := Destroy)
  }

  function Shutdown(k: Sock, how: How, env: Env): Sock {
    var k1 := if how != ShutWr then MarkReadShutdown(k) else k;
    if (k.state == Connected || k.state == ConnectedFull) && how != ShutRd && !k1.send.finSent
    then SendFin(k1, env)
    else k1
  }

  function ReadDrained(k: Sock, env: Env): Sock {
    if env.rcvWindow > k.recv.lastRcvWin then
      if k.recv.lastRcvWin == 0 then SendAck(k, env) else k.(ackPending := true)
    else k
  }

  /** A reset from the peer, or an ICMP error: the connection is gone. */
  function Abort(k: Sock): Sock {
    Report(k.(state := if k.send.closeRequested then Destroy else Reset), OnError)
  }

  function IcmpError(k: Sock): Sock {
    if k.state == Idle then k else Abort(k)
  }

  /** A socket after `initialize`. */
  function Fresh(): Sock {
    Sock(Idle,
         SendState(1, 0, 16, map[], false, false, false, 255 * PACKET_SIZE, 1),
         RecvState(0, 0, 0, false, false, false, 0, seq(16, _ => None)),
         Control(0, 0, 0, false, 1),
         false, [], [], [])
  }

  /** Until the peer's numbers are known `ack_nr` is 0. The model puts a number a whole turn below 0
      behind it, which is below every number a peer can have. */
  const UNKNOWN := -0x1_0000

  /** `connect`: the SYN takes the random number `seqNr`. */
  function Connect(k: Sock, seqNr: U16, env: Env): Sock {
    var k1 := k.(state := SynSent,
                 send := k.send.(next := seqNr),
                 recv := k.recv.(ack := UNKNOWN),
                 ctl := k.ctl.(retransmitTimeout := 3000));
    SendPacket(Append(k1, StSyn, [], env), seqNr)
  }

  function AcceptSyn(k: Sock, peerSeq: U16, seqNr: U16): Sock {
    k.(state := SynRecv,
       recv := k.recv.(ack := peerSeq),
       send := k.send.(next := seqNr),
       ctl := k.ctl.(fastResend := seqNr))
  }
}
