# A verified model of the uTP engine

uTP carries a reliable byte stream over UDP (BEP-29) with LEDBAT congestion control (RFC 6817).
This project models the engine of this library in Dafny: how writes become packets, how the
sending window moves, what acknowledgements and masks do, how lost packets are resent, how the
receiver reorders, and how a connection ends. It proves what those parts are for.

## How it is built

The engine is modelled twice, and the two are tied together.

* **`UtpSocket.dfy`** has the class `UtpSocket` as the library runs it: 16-bit fields, two rings
  (`SequenceBuffer.dfy`), loops over the window, a 128-entry array of resend candidates, a
  scatter/gather list whose entries are shortened in place. Ghost fields hold the unbounded
  numbers behind the 16-bit ones.
* **`Protocol.dfy`** has the socket as a value, with unbounded numbers and a map for the outgoing
  ring, and one function for each operation. Every method of the class is proved to do exactly
  what its function says (`ensures Abs() == ...(old(Abs()), ...)`); `Perform` says it for every
  call from outside.

The theorems are then about the functions, over all calls, runs and packets:

| file | what it proves |
|---|---|
| `Serial.dfy`, `Ring.dfy` | 16- and 32-bit order and distance, the acknowledgement check, rings as maps |
| `Conservation.dfy` | the bytes charged to the congestion window are those in flight, over every run |
| `SendWindow.dfy`, `RoomAgain.dfy` | what is sent, within which limits, and when a writer hears of room again |
| `Timeouts.dfy` | what the timer sends again, and what the flush after it does |
| `Arrivals.dfy`, `CumulativeAcks.dfy`, `Acknowledging.dfy` | which packets are taken, what they acknowledge, and that receipt is acknowledged |
| `Endings.dfy` | `close`, `shutdown` and the last acknowledgement |
| `FlushCursor.dfy`, `CursorLag.dfy`, `FirstWrite.dfy` | exactly when the cursor of `flush_packets` loses nothing |
| `Segmentation.dfy` | how accepted bytes are laid out in packets |
| `Sack.dfy`, `Wire.dfy`, `SackRoundTrip.dfy` | masks from ring to wire to window |
| `Reorder.dfy`, `ReorderRuns.dfy` | in-order delivery, for any sender, until the end of the stream |
| `FastResend.dfy`, `ResendList.dfy` | what is resent fast, in which order, and exactly when under its own number and only once |
| `ConnectMark.dfy` | the fast-resend mark after `connect` |
| `Traces.dfy`, `CalmPeers.dfy`, `StaleKeepAlive.dfy`, `LyingPeer.dfy`, `EarlyAckRun.dfy` | runs, step by step, in which a packet is resent fast twice or an acknowledgement misleads |
| `GiveUp.dfy` | retries and back-off |
| `Channel*.dfy`, `EndToEnd.dfy`, `Network.dfy`, `Handshake.dfy`, `EarlyAcks.dfy` | two sockets and a network: safety in both directions and graceful close |
| `DelayHistory.dfy`, `Ledbat.dfy`, `MtuDiscovery.dfy` | base-delay filter, window growth, path MTU search |
| `DeferredAcks.dfy`, `ChatFraming.dfy` | the list of owed acknowledgements; the chat example's frames |

The network is every packet ever sent: at each step any of them may arrive, any number of times.
What the clock, the congestion controller, the read buffer and the MTU search answer during a
call is a parameter of the call (`Env`, `Timers`), so the results hold for all their answers.
Callbacks are events appended to a trace. A `FastResend` event stands for the log line the code
writes when it resends: the number it looked up, and which of the frames sent went out for it.

Sequence numbers are related to unbounded ones by `W`, the remainder by 2^16. The end-to-end
results need what belongs to a stream, and what acknowledges it, to arrive less than 64,512 =
2^16 - 1024 numbers late; older numbers cannot be told from new ones by 16 bits.

## Where the code and its comments differ

The model follows the code.

* `src/utp_context.cpp:86-87` says `connect()` and `accept_syn()` realign the fast-resend mark with
  the random `seq_nr`; only `accept_syn` does (`src/utp_socket.hpp:276`). `MarkAfterConnect` and
  `NothingResentBeforeTurn` say what follows: for half of the numbers `connect` can draw, nothing
  is resent fast before the numbers have come round.
* `src/utp_socket.cpp:1029` says a selective acknowledgement resends high numbers first; the list is
  built downwards and resent from its end, so the lowest comes first (`SelectiveAckClimbs`).
* A packet can be resent fast twice. The number below a mask is looked up in the ring without
  asking whether it is still in the window (`src/utp_socket.cpp:1101-1119`); when it is not, the
  slot may hold the packet of a number one ring size above, which is then sent although it is
  not the one reported. `Misfires` is the exact condition (`SendsOwnExactly`, `OwnOverRuns`),
  `ResentTwice` an honest run in which it happens, and `ClientResendsAscend` says that without it
  nothing is resent twice.
* Apart from that, one mask can resend a packet twice when the peer acknowledges past a packet that
  was never sent: the number below the mask is then listed by the loop and again after it.
  `ResendsOnceExactly` gives the exact condition and `LyingAckResendsTwice` a run.
* `flush_scan_start` is left at 1 by `connect` and `accept_syn`, and a cursor far enough behind the
  window looks as if it were inside it. `FlushExactly` says when that matters. It does when the
  first packet's number wraps to 0 (`FirstPacketSentExactly`): the packet is not flushed. The
  comment at `src/utp_socket.cpp:598` counts on a stale cursor being outside the window.
* An acknowledgement sent while connecting carries the number 0 (`src/utp_socket.cpp:1456-1471`),
  which the server takes at its word (`HastyAckMisleads`, `EarlyTakesExactly`).
* The reorder ring can grow to 2,048 slots, not 1,024: room is made for an index one above the
  packet's offset (`src/utp_process.cpp:558`, `RingGrowsTo2048`).
* `src/utp/ledbat.cpp:99-100` counts on a minimum further down for large reductions of the window.
  The minimum is tested with a negative number converted to an unsigned one, which C++ leaves
  undefined; `NoGrowthAboveTargetExactly` says when that can make the window larger.
* A keep-alive takes an owed acknowledgement off the list and acknowledges one number less
  (`src/utp_socket.cpp:421-433`, `KeepAliveForgets`); and a window counts as announced when a packet
  is built, even if it does not leave (`src/utp_socket.cpp:717-726`, `OpeningGoesUntold`).

## Model

| member | source | states |
|---|---|---|
| `Network.EndToEndSafety` | src/utp_process.cpp:482-586 | In every run over a network that loses, repeats and reorders, whatever both applications and both timers do, the bytes the server has read are a prefix of the bytes the client's `writev` accepted, provided nothing of the client's stream and no acknowledgement of it arrives 64,512 or more numbers late; SYNs may arrive at any time |
| `Handshake.BothDirections` | src/utp_process.cpp:118-212 | From the SYN on, whichever of the server's answers arrives first and whenever it does, SYNs repeated or either side giving up meanwhile: in every timely run what each side has read is a prefix of what the other side's `writev` accepted, and an acknowledged FIN means that the other side has posted EOF and, if it still reads, has read everything; an acknowledgement the client sent before it knew any number of the server's must not arrive while a packet of the server's window has a number that wraps to 0 |
| `EarlyAcks.ZeroCountsExactly` | src/utp_process.cpp:134-166 | The number 0 in such an early acknowledgement covers a part of the server's window if and only if the window has a number that wraps to 0 |
| `EarlyAcks.EarlyTakesExactly` | src/utp_process.cpp:409-433 | An early acknowledgement takes the head of a sent window for received if and only if that is so |
| `EarlyAckRun.HastyAckMisleads` | src/utp_socket.cpp:1456-1471 | A run with the server's first number 65,535: an acknowledgement sent by `read_drained` while connecting has the server's one packet and its FIN, number 65,536, count as acknowledged although the client has received neither |
| `Network.FinAckedIsDelivered` | src/utp_process.cpp:396-401 | When the client's FIN has been acknowledged the server has posted EOF and, if it still reads, has delivered exactly what was accepted |
| `Network.GracefulClose` | src/utp_process.cpp:396-401 | A closing client that reaches CS_DESTROY through the acknowledgement of its FIN (or by `close` after it) leaves a server that posted EOF and delivered every accepted byte |
| `Network.ClientResendsAscend` | src/utp_process.cpp:402-478 | Against a peer running this receiver, over a network that loses, repeats and reorders: every fast resend of the client sends the packet whose number was looked up if and only if no mask misfires in the run, and then the packets it resends fast, by their unbounded numbers on the wire, strictly ascend, so none is resent fast twice, and the mark ends no lower than it began |
| `StaleKeepAlive.ResentTwice` | src/utp_socket.cpp:1101-1136 | A run of 31 steps over an honest network in which nothing is late: a keep-alive that arrives twice has packet 18 sent for the number 2, and packet 18 is resent fast again later |
| `ConnectMark.MarkAfterConnect` | src/utp_process.cpp:402-404 | `connect` leaves the mark at 1; the first answer raises it to the next number if and only if the number drawn was below 32,768 |
| `ConnectMark.NothingResentBeforeTurn` | src/utp_socket.cpp:1080-1104 | When `connect` drew 32,768 or more: over every run against an honest peer in which no packet beyond number 65,536 has been written and nothing from before the SYN is acknowledged, the mark stays at 1 and nothing is resent fast |
| `ConnectMark.MarkRaisedExactly` | src/utp_process.cpp:402-404 | In such a run an acknowledgement that passes the check raises the mark if and only if it is one of the numbers 32,764 to 32,767, from before the SYN |
| `Network.DestroyedByFinAck` | src/utp_process.cpp:396-401 | A packet that takes a live socket to CS_DESTROY has acknowledged its FIN |
| `Network.FirstAnswer` | src/utp_process.cpp:150-157 | The first answer connects the client, takes the SYN off its window and sets `ack_nr` just below the server's first number |
| `Network.AcceptedStarts` | src/utp_socket.hpp:273-278 | After SYN, `accept_syn` and the SYN-ACK the channel invariant holds with the client's data starting one above its SYN |
| `Channel.FreshDataIsNear` | src/utp_process.cpp:154-163 | Everything below the head of the sender's window has been received, so every number not yet received is less than 1,024 above the receiver's |
| `Channel.DeliveredIsPrefix` | src/utp_process.cpp:482-586 | Under the channel invariant the delivered bytes are a prefix of the written ones |
| `Channel.EofIsComplete` | src/utp_process.cpp:505-517 | At EOF, with the reading side open, the delivered bytes are all of the written ones |
| `Channel.FinAckedIsReached` | src/utp_process.cpp:396-401 | When the FIN has been acknowledged the receiver has reached EOF |
| `EndToEnd.ArrivesAtReceiver` | src/utp_process.cpp:482-586 | Any frame the sender ever sent, arriving in any state less than 64,512 numbers late, keeps the channel invariant |
| `EndToEnd.ArrivesAtSender` | src/utp_process.cpp:134-199 | Any packet the receiver ever sent, old masks included, takes only received packets off the window |
| `EndToEnd.AcksAreReceived` | src/utp_process.cpp:165-166 | A truthful acknowledgement that passes the check covers only numbers that were received |
| `EndToEnd.WritevKeeps` | src/utp_socket.cpp:1381-1450 | `writev` extends the recorded stream by exactly the bytes it accepts and never changes a segment that has been sent |
| `ChannelReceiver.NotPastEof` | src/utp_process.cpp:536-545 | A sender that ends its stream once never has a packet refused as past EOF |
| `ChannelReceiver.AckIsTruthful` | src/utp_socket.cpp:361-389 | Every acknowledgement and keep-alive sent names only received numbers, in its number and in its mask |
| `ChannelReceiver.StopIsInUse` | src/utp_process.cpp:500-533 | Draining never passes the numbers in use and stops for EOF exactly at the FIN |
| `Conservation.ConservationOverRuns` | src/utp_socket.cpp:752-767 | From `connect` or `accept_syn`, over every sequence of calls with arbitrary packets: `cur_window` is the payload sum of window packets sent and not marked for resending, the window's head is present when the window is not empty, packets stay under their own numbers, and there are at most 1,024 of them |
| `Conservation.DoKeeps` | src/utp_socket.cpp:752-767 | Each call from outside keeps that invariant |
| `Conservation.RemoveInFlightNeverUnderflows` | src/utp_socket.cpp:947-955 | What `ack_packet` takes off `cur_window` is covered by it |
| `Conservation.IncomingKeeps` | src/utp_process.cpp:118-212 | An arbitrary packet keeps the accounting |
| `Conservation.WriteOutgoingPacketKeeps` | src/utp_socket.cpp:644-741 | Writing adds at most one packet to the window, never past its limit, and keeps the accounting |
| `Conservation.RtoExpiredKeeps` | src/utp_socket.cpp:807-870 | Marking the whole window for resending and resending its head keeps the accounting |
| `Conservation.SelectiveAckKeeps` | src/utp_socket.cpp:1031-1142 | A mask, whatever it says, keeps the accounting and never removes the head |
| `SendWindow.FlowControlOverRuns` | src/utp_socket.cpp:543-572 | Over every run from `connect` or `accept_syn` whose packets have at most `size` bytes, with arbitrary packets arriving: when `writev`, `close` or `shutdown` sends anything, `cur_window` afterwards exceeds neither the congestion limit nor the peer's window by more than `size` exceeds the packet size of that moment |
| `SendWindow.CallWithin` | src/utp_socket.cpp:543-572 | The same for one such call: nothing is sent, or what is in flight is within both limits, but for what the longest packet of the window exceeds a whole packet by |
| `SendWindow.FlushWithin` | src/utp_socket.cpp:593-623 | And for the flush of `check_timeouts` |
| `SendWindow.NothingIntoClosedWindow` | src/utp_socket.cpp:543-572 | While the peer's window is closed, `writev`, `close` and `shutdown` send nothing; `writev` accepts nothing and leaves the socket CONNECTED_FULL |
| `SendWindow.WindowIsPeers` | src/utp_process.cpp:383-386 | `max_window_user` is the window of the last packet that was examined, or one packet once a closed window has been closed for its time; no other call changes it |
| `SendWindow.WritevTakesAllThatFits` | src/utp_socket.cpp:1416-1446 | `writev` stops short only when the next piece would exceed 1,023 packets or one of the three limits, and leaves the socket CONNECTED_FULL if and only if it stopped short and a whole packet would exceed one too |
| `SendWindow.WritevElsewhere` | src/utp_socket.cpp:1399-1412 | In any other state, and after the FIN, it changes nothing |
| `SendWindow.FlushSends` | src/utp_socket.cpp:577-623 | Whenever the flush does what a full scan does (`FlushExactly`), it sends what waits, oldest first and each packet once; it returns true only with a full window and something left, and false only when nothing is left but perhaps a last packet held back |
| `Timeouts.TimerSends` | src/utp_socket.cpp:807-885 | A timer that goes on sends after its flush, when it has expired, exactly the oldest packet of the window; every other packet is then out of flight, marked if it was ever sent, `cur_window` is that packet's payload and the flush cursor is back at the head; then exactly one keep-alive if one is due |
| `Timeouts.FlushAfterExpiry` | src/utp_socket.cpp:843-856 | The next flush sends the other packets of the window again, oldest first and each once, until the window is full; if it does not become full, all of them but perhaps a last one held back |
| `Timeouts.TimerSendsNothing` | src/utp_socket.cpp:820-836 | A timer that gives up, or of a connection that is over, sends nothing after its flush and marks nothing |
| `Timeouts.ClosedWindowLifts` | src/utp_socket.cpp:803-805 | A window closed for its time counts as one packet |
| `Timeouts.ClosedWindowIsTried` | src/utp_socket.cpp:803-805 | So with nothing in flight the next flush sends the oldest packet that waits, unless it is a last one held back |
| `RoomAgain.WaitingIsTold` | src/utp_process.cpp:199-207 | Only a `writev` cut short leaves the socket CONNECTED_FULL; an examined packet and every timer that finds room for a whole packet end that; and the application is told exactly when it ends in CONNECTED, once, and never otherwise |
| `Arrivals.InOrderIsTaken` | src/utp_process.cpp:208-212 | An examined packet that is next in order and finds the socket connected, CONNECTED_FULL included, or connects it, and does not destroy it, is taken: its payload is counted and shown while reading is open, `ack_nr` moves past it and an acknowledgement is owed; a FIN is noted |
| `Arrivals.AboveGapIsHeld` | src/utp_process.cpp:536-583 | One above a gap is held afterwards, once, under what came first, and owed an acknowledgement when new; one past EOF changes nothing |
| `Arrivals.AdvancesExactly` | src/utp_process.cpp:118-212 | `ack_nr` moves if and only if the packet is examined, finds the socket listening and is next in order |
| `Arrivals.UnheardIsDropped` | src/utp_process.cpp:208-210 | An examined packet that does not find the socket listening leaves the receiving side as it was |
| `Arrivals.UnexaminedIsDropped` | src/utp_process.cpp:134-163 | A packet that fails the acknowledgement check or is out of the window changes nothing, except that a repetition from up to 1,024 numbers back has an acknowledgement owed |
| `Arrivals.ConnectingTakesNothing` | src/utp_process.cpp:208-210 | While connecting no payload is taken, and data does not connect |
| `CumulativeAcks.ArrivalTakesExactly` | src/utp_process.cpp:409-448 | An examined packet takes off the window exactly the packets below where its number stops, which is above all it covers or at the first one never sent, and then exactly the sent packets above the new head whose bit is set; nothing else leaves and nothing is added |
| `CumulativeAcks.LoneIsSent` | src/utp_process.cpp:449-454 | When an examined packet leaves one packet in the window, that one has been sent |
| `Acknowledging.ReceiptIsTold` | src/utp_socket.cpp:343-404 | Over every run: unless a keep-alive left in place of an acknowledgement, the number received last has been sent to the peer or is on the list of owed acknowledgements, and has been sent once the list is worked off |
| `Acknowledging.DoInforms` | src/utp_socket.cpp:343-433 | Each call keeps that, except, if and only if, a keep-alive is all that leaves while the acknowledgement is still owed |
| `Acknowledging.KeepAliveForgets` | src/utp_socket.cpp:421-433 | A run in which it happens: data arrives, a keep-alive is due, the owed acknowledgement is off the list and the peer has been told one number less |
| `Acknowledging.OpeningIsTold` | src/utp_socket.cpp:1456-1471 | After the application has read, a window last given as zero goes out at once as it is, and one last given as smaller with the next deferred acknowledgement |
| `Acknowledging.OpeningGoesUntold` | src/utp_socket.cpp:717-726 | But a FIN queued while both windows are closed counts as having given the window, although it does not leave: then nothing is announced and nothing is scheduled |
| `Endings.CloseEndsStream` | src/utp_socket.cpp:117-126 | `close` in CONNECTED and CONNECTED_FULL stops reading and puts exactly one FIN behind everything in the window, which stays as it was, unless a FIN was put there before; it destroys such a socket if and only if its FIN was acknowledged, and any other at once, writing nothing |
| `Endings.ShutdownEndsStream` | src/utp_socket.cpp:127-131 | `shutdown` closes the reading side unless only writing is named, puts one FIN behind everything if established, not yet ended and not only reading is named, and leaves the state alone |
| `Endings.FinAckedExactly` | src/utp_process.cpp:396-401 | An established socket's FIN counts as acknowledged if and only if it did before or an examined packet acknowledges the whole window, and that packet destroys the socket if and only if `close` was called |
| `Endings.NoneLingers` | src/utp_socket.cpp:117-126 | Over every run with arbitrary packets: no established connection has been closed and had its FIN acknowledged, in either order, and one that has been closed has queued its FIN |
| `FlushCursor.FlushExactly` | src/utp_socket.cpp:593-623 | Scanning from the cursor sends the same packets in the same order and returns the same as scanning the whole window if and only if nothing that is passed over waits to be sent, or the window is full and something behind the cursor waits too, or all that is passed over is a last packet held back to be filled up |
| `FlushCursor.FlushExactlyOverRuns` | src/utp_socket.cpp:593-623 | That at the end of every run from `connect` or `accept_syn`, with no hypothesis on the run |
| `FlushCursor.FlushRefinesFullScan` | src/utp_socket.cpp:593-623 | When nothing before the cursor, as a number not above `seq_nr`, waits to be sent, the two scans do the same |
| `FlushCursor.FlushRefinesOverRuns` | src/utp_socket.cpp:593-623 | That holds at the end of every run in which the 16-bit distance from cursor to `seq_nr` is below 64,512 at each call |
| `CursorLag.FirstPacketSentExactly` | src/utp_socket.cpp:598-601 | The first whole packet written into an open window while the cursor is at 1 is sent by the flush if and only if its number does not wrap to 0; otherwise it waits although the full scan would send it |
| `FirstWrite.FirstAfterConnect` | src/utp_socket.cpp:1271-1329 | After `connect` and the first answer that happens if and only if `connect` drew 65,535 |
| `FirstWrite.FirstAfterAccept` | src/utp_socket.hpp:273-278 | After `accept_syn` and the client's first packet it happens if and only if `accept_syn` drew 0 |
| `CursorLag.FlushCatchesUp` | src/utp_socket.cpp:603-621 | A flush that no full window stops leaves the cursor at most one number behind |
| `CursorLag.LagHasNoBound` | src/utp_process.cpp:449-453 | For every distance there is a run, of small writes into a window with no room for a whole packet and of prompt acknowledgements, that leaves the cursor that far behind: a lone packet is sent without the flush |
| `FlushCursor.DoKeepsCursor` | src/utp_socket.cpp:852-856 | Flush, append, ACK, SACK, RTO and the rest keep everything before the cursor settled |
| `FlushCursor.CursorAfterConnect` | src/utp_socket.hpp:136-138 | Nothing before the cursor waits to be sent right after `connect` and `accept_syn`, which leave it at 1; after `connect` it is as far behind as the number drawn |
| `FlushCursor.StaleCursorMissesPacket` | src/utp_socket.cpp:598-601 | A window in which the condition fails: the flush misses the packet that the full scan sends |
| `FlushCursor.FlushCursorMoves` | src/utp_socket.cpp:603-621 | A flush never moves the cursor back |
| `Segmentation.WritevSegments` | src/utp_socket.cpp:1381-1450 | The bytes accepted are the first ones offered; the window afterwards holds what it held followed by exactly these; only a never-sent last packet is filled up, no packet outgrows the packet size, and writing stops early only when the window is full |
| `Segmentation.WriteRoundsIs` | src/utp_socket.cpp:652-738 | One call fills up the last packet, or adds one, or does the one and then the other |
| `Segmentation.WriteChunksStops` | src/utp_socket.cpp:1416-1446 | `writev` stops short only because the next piece does not fit |
| `SackRoundTrip.SackRoundTrip` | src/utp_socket.cpp:1054-1099 | The acknowledgement `send_ack` builds parses back unchanged, and takes off the sender's window exactly the sent packets above the head that the receiver has stored among the first min(30, ring size) above its gap |
| `SackRoundTrip.BitIsStored` | src/utp_socket.cpp:361-389 | Bit i of the four mask bytes is set exactly when packet `ack_nr+2+i` is stored |
| `Sack.MaskRoundTrip` | src/utp_socket.cpp:384-388 | Bit i of the bytes on the wire is bit i of the list they were made from |
| `Sack.SelectiveAckExact` | src/utp_socket.cpp:1054-1099 | `selective_ack` removes exactly the sent packets of the window above the head whose bit is set, for every mask of up to 255 bytes |
| `Reorder.SackBitsExact` | src/utp_socket.cpp:370-382 | No bit is set because two numbers share a slot, down to a ring of 16 |
| `Reorder.KeepAliveBitsExact` | src/utp_socket.cpp:421-433 | Neither is one in a keep-alive, whose mask starts one number lower |
| `Wire.ParsePacket` | src/utp_process.cpp:214-276 | The loop over the extension chain computes the recursive parse: masks noted, malformed chains refused |
| `Wire.PacketRoundTrip` | src/utp_process.cpp:239-273 | What is serialized is what is parsed |
| `Wire.ParseExact` | src/utp_process.cpp:239-273 | The parser accepts exactly the tails that start with a well-formed chain (extension 2 eight bytes long), and finds its last mask and the payload |
| `ReorderRuns.DeliversInOrderOnce` | src/utp_process.cpp:492-583 | Whatever arrives, in every run until EOF is reached: the numbers after `ack_nr` are delivered one by one, each once, each with the payload of a packet that carried that number, every one of them shown to the application until it closes its reading side and none after; and the ring holds exactly `reorder_count` packets that came, above the gap |
| `ReorderRuns.RingOverRuns` | src/utp_process.cpp:492-583 | The ring invariant holds over every run, the connecting phase included |
| `Reorder.RingGrowsTo2048` | src/utp_process.cpp:558 | A packet 1,023 above the next one makes the ring 2,048 slots large, whatever its size before |
| `ReorderRuns.OpensHolding` | src/utp_socket.hpp:273-278 | Both ways of opening a connection start with a ring that satisfies it |
| `Reorder.StoredRange` | src/utp_process.cpp:558-571 | Slots `ack_nr` and `ack_nr+1` are empty and everything stored lies in `[ack_nr+2, ack_nr+size-1]` |
| `Reorder.DrainExact` | src/utp_process.cpp:505-533 | Draining delivers exactly the contiguous run above `ack_nr`, number by number, stops at the gap or at EOF, posts EOF once and acknowledges it at once |
| `Reorder.DeliverInOrderExact` | src/utp_process.cpp:492-535 | A packet in order is read, then everything it made deliverable |
| `Reorder.StoreOutOfOrderExact` | src/utp_process.cpp:558-572 | A packet above a gap is stored once under its own number, growth included; a duplicate changes nothing stored |
| `FastResending.ResendsAscend` | src/utp_process.cpp:402-478 | Over every run with acknowledgements of sent packets only in which no mask misfires: `fast_resend_seq_nr`, read as the highest number not above `seq_nr` that wraps to it, never moves back, and the packets that go out for fast resends (SACK and after timeouts together) strictly ascend from the mark at the start to below the mark at the end |
| `FastResending.NoPacketTwice` | src/utp_socket.cpp:1080-1136 | From `connect` or `accept_syn`, in such runs, no packet number is resent fast twice |
| `FastResending.OwnOverRuns` | src/utp_socket.cpp:1115-1136 | In any run at all, every fast resend sends the packet whose number was looked up if and only if no call processes a mask that misfires |
| `FastResending.SendsOwnExactly` | src/utp_socket.cpp:1101-1136 | One SACK sends each packet it resends under its own number if and only if it does not misfire: the number below the mask qualifies at the mark with three bits set, is not in the window, and its slot holds a packet the mask leaves there |
| `FastResending.SelectiveAckClimbs` | src/utp_socket.cpp:1080-1136 | One SACK that neither misfires nor lists a number twice resends at most four packets of the window, lowest number first, none below the mark, and moves the mark past them |
| `FastResending.ResendsOnceExactly` | src/utp_socket.cpp:1080-1136 | One SACK that does not misfire sends no packet twice if and only if the number below its mask is not a sent packet strictly inside the window that qualifies for resending |
| `LyingPeer.LyingAckResendsTwice` | src/utp_socket.cpp:1101-1104 | A run from `connect` whose last packet acknowledges packets never sent and has packet 18 resent twice at once |
| `FastResending.HonestNotTwice` | src/utp_process.cpp:409-446 | An acknowledgement that covers no never-sent packet cannot cause that |
| `ResendList.HalfShiftHarmless` | src/utp_socket.cpp:1082-1086 | Dropping the older half of the 128 candidates changes nothing: the same packets are resent as with an unbounded list |
| `FastResending.FastTimeoutClimbs` | src/utp_process.cpp:454-478 | After a timeout the packet at the mark is resent exactly when it is the head of the window and was sent before; it is the packet that goes out, and the mark steps past it |
| `FastResending.RaiseClimbs` | src/utp_process.cpp:402-404 | An acceptable acknowledgement never lowers the mark |
| `SequenceBuffer.RingRefinesMap` | src/utp/sequence_buffer.hpp:24-68 | After any run of put, take, `ensure_size` and window moves within the callers' rules, asking the ring for a 16-bit number gives what a map has for the unbounded one, across growth and wrap-around |
| `SequenceBuffer.SequenceBuffer.Get` | src/utp/sequence_buffer.hpp:24-27 | Reads the slot `seq & mask`, nothing from a ring of one |
| `SequenceBuffer.SequenceBuffer.Put` | src/utp/sequence_buffer.hpp:30-33 | Overwrites that slot only |
| `SequenceBuffer.SequenceBuffer.Take` | src/utp/sequence_buffer.hpp:36-39 | Empties that slot and returns what it held |
| `SequenceBuffer.SequenceBuffer.EnsureSize` | src/utp/sequence_buffer.hpp:42-44 | Grows exactly when the index does not fit |
| `SequenceBuffer.SequenceBuffer.Grow` | src/utp/sequence_buffer.hpp:51-68 | The size becomes the next power of two above the index and every element keeps its number |
| `SequenceBuffer.SequenceBuffer.constructor` | src/utp/sequence_buffer.hpp:71-75 | All slots empty |
| `Ring.AgreesEnsure` | src/utp/sequence_buffer.hpp:51-68 | Growth keeps the map the ring stands for when `item - index` is the true window start modulo 2^16 |
| `Ring.AgreesGet` | src/utp/sequence_buffer.hpp:24-27 | The ring answers for the one number of its window in the slot asked for, wrapped or not |
| `Ring.GrownSizeProperties` | src/utp/sequence_buffer.hpp:51-54 | Ring sizes stay powers of two dividing 2^16, and bounded by the least that will do |
| `Serial.AckWindowExact` | src/utp_process.cpp:134-144 | A packet passes the check exactly when `ack_nr` lies in `[seq_nr-1-(cur_window_packets+3), seq_nr-1]` modulo 2^16 |
| `Serial.AckCountExact` | src/utp_process.cpp:165-166 | `acks` is then the number of window packets covered, 0 when stale |
| `Serial.WrappingLessIsRfc1982` | src/utp/delay_history.hpp:42-50 | `wrapping_compare_less` is the order of section 3.2 of RFC 1982 at 16 bits |
| `Serial.WrappingLess32IsRfc1982` | src/utp/delay_history.hpp:42-50 | And at 32 bits |
| `Serial.WrappingLessWithinHalf` | src/utp/delay_history.hpp:42-50 | Within half the range it is the order of the unbounded numbers |
| `Serial.WrappingLessUndefinedAtHalf` | src/utp/delay_history.hpp:42-50 | At exactly half the range neither number is less |
| `GiveUp.BoundedGiveUp` | src/utp_socket.cpp:807-870 | While nothing is acknowledged, a socket still active has counted every expiry, at most four (two in SYN_SENT), and its timeout has doubled once for each not put down to a lone MTU probe |
| `GiveUp.FifthExpiryGivesUp` | src/utp_socket.cpp:820-836 | While nothing is acknowledged, an expiry leaves the socket active if and only if it was active, not in SYN_RECV, and has seen fewer than four expiries, or fewer than two in SYN_SENT: the fifth, or the third, ends the attempt, and none before it |
| `GiveUp.ExpiryExactly` | src/utp_socket.cpp:807-836 | One expiry leaves any socket active if and only if it is active, not in SYN_RECV, and has patience left; otherwise an error is reported |
| `GiveUp.SynRecvSawNoExpiry` | src/utp_socket.cpp:826-830 | Whatever happens, a socket in SYN_RECV has seen no expiry, and the first one ends the attempt |
| `GiveUp.DoTried` | src/utp_socket.cpp:956-957 | No call other than an expiry changes the counter while no packet leaves the window |
| `GiveUp.ProgressRestartsCount` | src/utp_socket.cpp:936-957 | A packet that takes anything off the window sets the retry count to zero and the timeout to the estimate; one that takes nothing off leaves both |
| `GiveUp.WritingRestartsTimeout` | src/utp_socket.cpp:646-649 | The first packet written into an empty window starts from the estimate, others leave the timeout |
| `Socket.UtpSocket.constructor` | src/utp_socket.cpp:1164-1179 | A valid socket with empty rings of 16 |
| `Socket.UtpSocket.SendPacket` | src/utp_socket.cpp:484-524 | Charges the payload unless already in flight, counts the transmission, sends under the packet's own number |
| `Socket.UtpSocket.IsFull` | src/utp_socket.cpp:543-572 | Full at 1,023 packets or when the next piece exceeds the least of the three windows |
| `Socket.UtpSocket.FlushPackets` | src/utp_socket.cpp:593-623 | The loop with its 16-bit cursor is the scan of the last numbers of the window |
| `Socket.UtpSocket.Gather` | src/utp_socket.cpp:684-706 | Copies exactly the first bytes of the scatter/gather list and leaves exactly the rest |
| `Socket.UtpSocket.WriteOutgoingPacket` | src/utp_socket.cpp:644-741 | The do-while loop over ring and list appends exactly the given bytes and flushes; the list loses exactly these |
| `Socket.UtpSocket.Writev` | src/utp_socket.cpp:1381-1450 | The loop over at most 1,024 entries accepts what the value function accepts of the flattened list |
| `Socket.UtpSocket.SendFin` | src/utp_socket.cpp:170-174 | Marks the FIN and appends it after everything written |
| `Socket.UtpSocket.SendAck` | src/utp_socket.cpp:343-404 | Sends the number, the window and the mask built bit by bit from the ring |
| `Socket.UtpSocket.SendKeepAlive` | src/utp_socket.cpp:421-433 | Sends an acknowledgement one number out of date and restores the number |
| `Socket.UtpSocket.AckPacket` | src/utp_socket.cpp:909-958 | Removes a sent packet, its charge and the retry count; reports packets missing or never sent |
| `Socket.UtpSocket.AckUpTo` | src/utp_process.cpp:412-433 | Acknowledges from the head, stopping at a packet never sent |
| `Socket.UtpSocket.SkipGaps` | src/utp_process.cpp:440-448 | Packets acknowledged selectively leave at the head, until a packet is found |
| `Socket.UtpSocket.AdvanceSendWindow` | src/utp_process.cpp:380-480 | The whole window advance in its order: state, mark, acknowledgements, gaps, lone packet, fast timeout |
| `Socket.UtpSocket.VisitBit` | src/utp_socket.cpp:1054-1099 | One bit of a mask: acknowledge, list or skip, on the 128-entry array |
| `Socket.UtpSocket.AddCandidate` | src/utp_socket.cpp:1082-1086 | The array never overflows: its newer half is moved down first |
| `Socket.UtpSocket.SelectiveAck` | src/utp_socket.cpp:1031-1142 | The loop from the top bit to the number below the mask, then up to four resends from the end of the list |
| `Socket.UtpSocket.DrainReorderBuffer` | src/utp_process.cpp:504-533 | The loop that delivers contiguous packets and posts EOF |
| `Socket.UtpSocket.DeliverData` | src/utp_process.cpp:482-586 | In order: deliver and drain. Above a gap: refuse past EOF, store once, grow when needed |
| `Socket.UtpSocket.ProcessAcks` | src/utp_process.cpp:165-193 | Counts what is covered, advances the window, then applies the mask |
| `Socket.UtpSocket.ProcessIncoming` | src/utp_process.cpp:118-212 | The whole of packet processing on 16-bit fields is the value function; the invariant holds afterwards |
| `Socket.UtpSocket.MarkAll` | src/utp_socket.cpp:848-855 | The loop from the last packet down marks every packet in flight, uncharges it and resets the cursor |
| `Socket.UtpSocket.OnRtoExpired` | src/utp_socket.cpp:807-870 | Destroys, gives up, or doubles the timeout and resends the head |
| `Socket.UtpSocket.CheckTimeouts` | src/utp_socket.cpp:784-886 | Flush, zero window, expiry, writability and keep-alive, in that order |
| `Socket.UtpSocket.Connect` | src/utp_socket.cpp:1271-1329 | The SYN takes the random number and is sent; the cursor stays |
| `Socket.UtpSocket.AcceptSyn` | src/utp_socket.hpp:273-278 | Takes over the peer's number, a random one of its own, and aligns the fast-resend mark |
| `Socket.UtpSocket.Close` | src/utp_socket.cpp:117-131 | Connected sockets end both directions and go when the FIN is acknowledged; others go at once |
| `Socket.UtpSocket.Shutdown` | src/utp_socket.cpp:87-132 | Closes the reading side, or sends one FIN, or both |
| `Socket.UtpSocket.ReadDrained` | src/utp_socket.cpp:1456-1471 | A window that opens from zero is announced at once, otherwise soon |
| `Socket.UtpSocket.OnReset` | src/utp_socket.hpp:281-286 | A reset destroys a closing socket and resets any other |
| `Socket.UtpSocket.OnIcmpError` | src/utp_socket.hpp:299-304 | An ICMP error does the same except to an idle socket |
| `Socket.UtpSocket.CheckInvariant` | src/utp_socket.cpp:753-766 | The debug check's loop finds exactly the charged bytes and an empty slot after `ack_nr` |
| `Socket.UtpSocket.Perform` | src/utp_socket.cpp:752-767 | Every call takes the class through the same step as its value, so the theorems over runs are about the class |
| `DelayFilter.BaseIsTrueMinimum` | src/utp/delay_history.hpp:107-194 | After any run with live samples spanning less than 2^31, `delay_base` is the true minimum of all samples of the last thirteen minutes, drifts applied |
| `DelayFilter.DelayIsNotNegative` | src/utp/delay_history.hpp:160-170 | The delay recorded for a sample is its distance from that minimum, in [0, 2^31) |
| `DelayFilter.DelayHistory.AddSample` | src/utp/delay_history.hpp:118-194 | Initialisation, two minima, the recorded delay and the minute's rollover on the arrays |
| `DelayFilter.DelayHistory.Shift` | src/utp/delay_history.hpp:107-113 | Every entry and the base move by the offset, wrapping |
| `DelayFilter.DelayHistory.Clear` | src/utp/delay_history.hpp:89-102 | Back to the empty history |
| `DelayFilter.DelayHistory.GetValue` | src/utp/delay_history.hpp:197-204 | The least of the three current delays |
| `DelayFilter.NextBucketTracks` | src/utp/delay_history.hpp:178-193 | The rollover evicts the oldest minute and finds the minimum of the rest |
| `Ledbat.GrowthIsCapped` | src/utp/ledbat.cpp:87-153 | While at most one initial window is acknowledged below the target, the window never shrinks and grows by at most 3,000 bytes in all |
| `Ledbat.OneAckGrows` | src/utp/ledbat.cpp:103-153 | One acknowledgement grows the window by at most its share of 3,000 bytes, and never past the send buffer |
| `Ledbat.GrowthExactly` | src/utp/ledbat.cpp:87-153 | After slow start, up to the target: an acknowledgement adds the floor of 3,000 times the acknowledged share of the window times the unused share of the target, in whole numbers, nothing when rate limited, clamped to 10 bytes and the send buffer |
| `Ledbat.GrowthAtTheEnds` | src/utp/ledbat.cpp:87-124 | Nothing at the target or after a second without filling the window; exactly 3,000 bytes, up to the send buffer, for a whole window acknowledged without delay |
| `Ledbat.LessDelayMoreWindow` | src/utp/ledbat.cpp:87-153 | With everything else equal a smaller delay, up to the target, never gives a smaller window, in slow start or after it, also against a delay above the target |
| `Ledbat.DriftIsNoHelp` | src/utp/ledbat.cpp:74-85 | A clock that runs away further never gives a larger window |
| `Ledbat.NoGrowthAboveTargetExactly` | src/utp/ledbat.cpp:126-128 | Above the target the window never grows, whatever the platform makes of a negative number, if and only if the window asked for is above -1; otherwise it can become the whole send buffer |
| `Ledbat.SumConvertibleExactly` | src/utp/ledbat.cpp:126-128 | That condition in whole numbers: that share of 3,000 bytes, times the excess over the target as a share of it, is less than the window plus one |
| `Ledbat.SlowStartExactly` | src/utp/ledbat.cpp:135-153 | Slow start goes on if and only if the window plus the acknowledged share of a packet is up to the threshold and the delay up to nine tenths of the target; it then takes the larger of that and LEDBAT's growth, and otherwise keeps the window |
| `Ledbat.LedbatController.ApplyCControl` | src/utp/ledbat.cpp:58-156 | Penalty, gain, rate limit, slow start and clamping as coded, for every delay |
| `PathMtu.AlwaysInRange` | src/utp/mtu_discovery.hpp:50-140 | In every order of events, 576 <= floor <= current <= ceiling <= interface MTU, and a probe under way lies in (floor, ceiling] |
| `PathMtu.Converges` | src/utp/mtu_discovery.hpp:61-76 | With probes answered truthfully, a width of at most 16·2^k is searched in at most k probes, with a result in [true-16, true] |
| `PathMtu.FreshSearchConverges` | tests/test_mtu_discovery.cpp:129-155 | The same from a fresh search, for every path MTU |
| `PathMtu.RediscoveryConverges` | src/utp/mtu_discovery.hpp:50-57 | And again after every `reset`, whatever the search had come to |
| `PathMtu.RouterIsObeyed` | src/utp/mtu_discovery.hpp:130-134 | After a router's value nothing larger is used, the largest size left is used at once, and the true MTU, if no larger than it, stays in the search or is at most 16 bytes above its result |
| `PathMtu.ObeyedUntilRediscovery` | src/utp/mtu_discovery.hpp:50-140 | It stays so, probes included, in every order of later events without a reset |
| `PathMtu.UnnamedHalves` | src/utp/mtu_discovery.hpp:137-140 | Without a value the search is halved from above |
| `PathMtu.TimeoutEndsProbe` | src/utp/mtu_discovery.hpp:111-120 | A timeout always ends the probe; the search moves, below the probe's size, only if it was alone |
| `PathMtu.ProbeHalves` | src/utp/mtu_discovery.hpp:101-127 | Each answer halves the width and keeps the true MTU inside |
| `PathMtu.MtuDiscovery.SearchUpdate` | src/utp/mtu_discovery.hpp:61-76 | The midpoint, or the floor when at most 16 bytes are left |
| `PathMtu.MtuDiscovery.HandleProbeTimeout` | src/utp/mtu_discovery.hpp:111-120 | Only a lone probe lowers the ceiling and is forgiven |
| `PathMtu.MtuDiscovery.HandleProbeAck` | src/utp/mtu_discovery.hpp:101-108 | An acknowledged probe raises the floor |
| `PathMtu.MtuDiscovery.HandleProbeLoss` | src/utp/mtu_discovery.hpp:123-127 | A lost probe lowers the ceiling below its size |
| `PathMtu.MtuDiscovery.HandleIcmpFragmentation` | src/utp/mtu_discovery.hpp:130-134 | The router's value caps the ceiling and is adopted |
| `DeferredAcks.UtpContext.IssueDeferredAcks` | src/utp_context.cpp:151-158 | Despite the unsigned index stepping back from 0, exactly one acknowledgement per listed socket, none for others, and an empty list |
| `DeferredAcks.UtpContext.RemoveAck` | src/utp_context.cpp:224-237 | The swap-pop removes that socket only and keeps every back-index true |
| `DeferredAcks.UtpContext.ScheduleAck` | src/utp_context.cpp:215-221 | A socket is listed once |
| `DeferredAcks.UtpContext.NoDuplicates` | src/utp_context.cpp:215-237 | Listed sockets are distinct |
| `DeferredAcks.UtpContext.PurgeRstInfo` | src/utp_context.cpp:174-180 | The purge loop drops exactly the expired entries, counted with multiplicity |
| `DeferredAcks.SwapPopMembers` | src/utp_context.cpp:231-236 | Moving the last element into the gap removes one element |
| `ChatFraming.FramesRoundTrip` | examples/uv-utp-chat/common/protocol.h:30-81 | However the encoded messages are cut and whenever frames are asked for, the drained parser has returned exactly the messages in order, is empty and unbroken |
| `ChatFraming.SessionInStep` | examples/uv-utp-chat/common/protocol.h:51-83 | At every moment what was returned and what is buffered make up what was fed |
| `ChatFraming.NextOfEncoded` | examples/uv-utp-chat/common/protocol.h:59-76 | A whole frame at the front is returned and nothing after it touched |
| `ChatFraming.NextOfPartial` | examples/uv-utp-chat/common/protocol.h:59-69 | Part of a frame changes nothing |
| `ChatFraming.BadLengthBreaks` | examples/uv-utp-chat/common/protocol.h:63-67 | A length of 0 or above 64 KiB breaks the stream for good |
| `ChatFraming.FrameParser.NextFrame` | examples/uv-utp-chat/common/protocol.h:59-76 | The parser's step on its buffer |
| `ChatFraming.FrameParser.Feed` | examples/uv-utp-chat/common/protocol.h:54-56 | Feeding appends |

## Left out

- Socket.UtpSocket.SendPacket: does not mark MTU probes or restart the MTU search (`src/utp_socket.cpp:500-517`); the search itself is in `MtuDiscovery.dfy`, and which packet a probe number names is not modelled, because the code records `seq_nr - 1` whatever packet is sent.
- Socket.UtpSocket.ProcessAcks: does not compute the acknowledged bytes, delays and duplicate counts that feed the congestion controller and the MTU search (`src/utp_process.cpp:168-189`, `src/utp_process.cpp:278-378`); their answers are parameters.
- Socket.UtpSocket.SelectiveAck: does not decay the window after a resend (`src/utp_socket.cpp:1138-1139`), for the same reason.
- Socket.UtpSocket.OnRtoExpired: keeps the timeout as an unbounded number; the code's 32-bit field would wrap for estimates of 2^28 ms and more. The counters of transmissions (31 bits), retries and reordered packets (16 bits) are unbounded too.
- Socket.UtpSocket.AckPacket: an `OutgoingPacket` is a value in its slot, written back when it changes, not an object reached through a pointer.
- Socket.UtpSocket.Shutdown: the back-off of the timer when both sides are shut down in SYN_SENT changes only the deadline, which is a parameter.
- Socket.UtpSocket.Close: the back-off of the timer in SYN_SENT changes only the deadline, which is a parameter.
- Handshake.BothDirections: starts with the SYN accepted and answered, and excludes harmful early acknowledgements step by step, where they arrive; it does not say which calls of the client keep them from being sent.
- ConnectMark.NothingResentBeforeTurn: assumes acknowledgements of sent packets only, no repeated SYN, and none of the numbers 32,764 to 32,767, which `MarkRaisedExactly` shows to raise the mark.
- FlushCursor.FlushRefinesOverRuns: the bound on the distance is a hypothesis on each call, because runs need not keep it (`LagHasNoBound`); so a run from `connect` with a number of 64,512 or more is covered only from the first flush that moves the cursor.
- Socket.UtpSocket.CheckInvariant: the slot after `ack_nr` is claimed empty only until EOF is reached, and for a reorder ring that satisfies `Stores`, which `RingOverRuns` gives for every run.
- Network.GracefulClose: assumes the peer runs this receiver; delivery past EOF from a sender that goes on after its own FIN is not claimed, because the in-order branch has no EOF check.
- FastResending.ResendsAscend: assumes acknowledgements of sent packets only, no repeated SYN, and masks of at most 255 bytes, the most a length byte can say.
- DelayFilter.BaseIsTrueMinimum: needs live samples within 2^31 of each other, as the 32-bit order does.
- Ledbat.LedbatController.ApplyCControl: reals for doubles; converting a negative double to an unsigned integer, which C++ leaves undefined, gives whatever the parameter `Casts` says.
- PathMtu.AlwaysInRange: an ICMP value below the known-good floor is excluded; the caller checks only 576 <= mtu < 0x2000.
- Wire.ParsePacket: the header's byte order and layout, the time stamps and the copy of the extension bits are not modelled.
- DeferredAcks.UtpContext.PurgeRstInfo: the vector's capacity is not modelled.
- Round-trip estimation, delay averages and the loss responses of the controller (`src/utp/ledbat.cpp:167-317`): their results are parameters of the engine.
- Connection identifiers and routing, a listening socket's limits, and resets for unknown connections (`src/utp_process.cpp:593-761`): one connection is fixed, and a repeated SYN is dropped as there.
- Callbacks that call back into the socket.
- Liveness: nothing says that a packet is ever delivered, only that what is delivered is right.
- Address handling, statistics, logging, the C interface and the libuv glue.
