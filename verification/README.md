# Verified model of the vehicle software's hard core

This Dafny 4.11 project models the parts of the vehicle software whose correctness is
hardest to see: the TC375 controller's network checksum, connection state machine, CAN
transport and sensor streams, and the realtime and digital-key applications of the
vehicle computer. `dafny verify dfyconfig.toml` checks it.

Code that changes state in place is modelled by classes and methods with the source's
fields and loops; each is proved equal to a function on values, and the properties of
whole runs are proved about that function.

| files | component |
|---|---|
| `MachineTypes`, `Wrappers` | machine integers, C operators, optional values and results |
| `OnesComplement`, `StandardChecksum`, `ChainChecksum` | Internet checksum of lwIP on a little-endian host: three summation loops and the chain walkers, against RFC 1071 |
| `NetconnModel`, `NetconnProofs`, `NetconnOutcomes`, `Netconn` | lwIP's request state machine for TCP connections under arbitrary TCP answers and callback orders |
| `IsoTp`, `TpReceiver` | ISO-TP segmentation and reassembly in the ECU and in the tester, over a reliable and an unreliable bus |
| `DtcTable` | trouble-code table, its 0x19 response and the tester's decoding |
| `RingQueue`, `TofFramer`, `TofPackets`, `Tof` | drop-oldest rings; time-of-flight framing with time stamps kept in a side table |
| `AverageFilter`, `Ultrasonic` | sliding average and echo-edge pairing |
| `AutoParking`, `ParkingRuns` | automatic parking controller and whole manoeuvres |
| `ChunkAssembler` | reassembly of chunked BLE commands |
| `PairingCache`, `PairingNonces`, `PairingManager` | pairing sessions, handshake contexts, nonces and the session cache |
| `IpcText`, `IpcMessages`, `IpcExchange` | the control socket's printer, parser, server and client |

Environment answers are parameters: TCP's send buffer, write, output and close results,
the arrival of flow control, clock readings, random nonces, base64 and PEM decoding, key
derivation, signature checks, and whether a file could be written.

Results where the code differs from what its comments or checks suggest:

- Checksum versions 1 and 2 work up to 0x20002 octets, not 0x20000, and the limit is exact
  (`ByteSumFits`, `ByteSumWraps`); beyond it they are right exactly when the sum stays in
  32 bits (`WrapIsWrong`).
- The debugging assertion in the partial pseudo-header checksum fails for large lengths
  that the function handles correctly (`InetChksumPseudoPartial`).
- A blocking vectored write spins when the send buffer is empty, what is left of a vector
  is a multiple of 65536 and more vectors follow (`StuckSpins`).
- ISO-TP responses come back intact if and only if they are at most 4095 octets long
  (`RoundTrip`); requests of more than 118 octets can be corrupted by an unreliable bus
  (`FaithfulExactly`, `UnsafeMessage`).
- A session seeded with a key of 16 or 24 octets does not survive a restart
  (`RestartKeepsSession`), and starting a PIN session forgets all PKI sessions (`InitializePin`).
- Recovering a PKI session from a PIN session or from the cached payload never succeeds
  (`RecoverSession`): whatever drops the current session drops their nonces as well.
- The time stamp of a distance survives interrupts inside an iteration only while the ring
  has room for them (`TimeSurvivesExactly`).

Where a result rests on more than the modelled files: the connection state machine takes
any answer of TCP, and `NoLoss` names the one answer it relies on, a close that succeeds
while the connect is in progress. TC375/Libraries/Ethernet/lwip/src/core/tcp.c:397-401
gives exactly that, so the run of `UnconnectedCloseNeeded`, which shows that the condition
cannot be dropped, is hypothetical. The same file turns ERR_MEM into ERR_OK for every close
(lines 449-457); `StuckCloseEnds` is about the retries that the documented interface of
tcp_close (lines 473-477) asks for.

## Model

| member | source | states |
|---|---|---|
| `OnesComplement.OnesSumIsNorm` | TC375/Libraries/Ethernet/lwip/src/core/inet_chksum.c:79-115 | the plain integer sum of the 16-bit words, reduced with zero kept apart, is the one's complement sum of RFC 1071, for every octet string |
| `OnesComplement.HostOrderIsNetworkOrder` | TC375/Libraries/Ethernet/lwip/src/core/inet_chksum.c:79-115 | what a little-endian host computes is the sum of section 1 of RFC 1071 in network order with its octets exchanged, so that storing it puts the higher octet first |
| `OnesComplement.FoldTwice` | TC375/Libraries/Ethernet/lwip/src/include/lwip/inet_chksum.h:52 | two folds of any 32-bit sum give the 16-bit one's complement value exactly, zero only for zero |
| `OnesComplement.SwapIsShift` | TC375/Libraries/Ethernet/lwip/src/include/lwip/inet_chksum.h:47 | swapping the octets of a reduced sum is multiplying the sum by 256 |
| `OnesComplement.SwapRepairs` | TC375/Libraries/Ethernet/lwip/src/core/inet_chksum.c:167-170 | summing from the wrong octet parity and swapping at the end gives the right sum (section 2(B) of RFC 1071) |
| `OnesComplement.ByteSumConcat` | TC375/Libraries/Ethernet/lwip/src/core/inet_chksum.c:274-283 | the sum of a concatenation, with the parity flipped behind an odd first part |
| `StandardChecksum.StandardChksum1` | TC375/Libraries/Ethernet/lwip/src/core/inet_chksum.c:79-115 | version 1, 32-bit wrap-around included, returns the RFC 1071 sum of every buffer up to 0x20002 octets, at any address; beyond that the exact wrapped value |
| `StandardChecksum.StandardChksum2` | TC375/Libraries/Ethernet/lwip/src/core/inet_chksum.c:132-173 | version 2, with its aligned half-word loads, peeled front octet and final swap: the same contract for every start address |
| `StandardChecksum.StandardChksum3` | TC375/Libraries/Ethernet/lwip/src/core/inet_chksum.c:188-255 | version 3, with 32-bit loads unrolled by eight and carries added back, returns the RFC 1071 sum of every buffer of any length at any address |
| `StandardChecksum.AddWord32` | TC375/Libraries/Ethernet/lwip/src/core/inet_chksum.c:214-222 | adding the carry back never wraps a second time and keeps the one's complement value |
| `StandardChecksum.AddBulk` | TC375/Libraries/Ethernet/lwip/src/core/inet_chksum.c:211-225 | the unrolled loop keeps the value of what is summed plus what is left, and leaves at most seven octets |
| `StandardChecksum.AlignFront` | TC375/Libraries/Ethernet/lwip/src/core/inet_chksum.c:199-209 | after the front octet and at most one half-word the address is four-byte aligned and nothing is lost |
| `StandardChecksum.AddTail` | TC375/Libraries/Ethernet/lwip/src/core/inet_chksum.c:227-243 | half-words, dangling octet and front octet complete the sum without overflow |
| `StandardChecksum.ByteSumFits` | TC375/Libraries/Ethernet/lwip/src/core/inet_chksum.c:117-131 | no buffer of up to 0x20002 octets makes the 32-bit accumulator of versions 1 and 2 wrap; the comment promises 0x20000 |
| `StandardChecksum.ByteSumWraps` | TC375/Libraries/Ethernet/lwip/src/core/inet_chksum.c:117-131 | the all-ones buffer of 0x20003 octets makes it wrap, so the limit is exact |
| `StandardChecksum.WrapIsWrong` | TC375/Libraries/Ethernet/lwip/src/core/inet_chksum.c:89-109 | for every buffer below 2 GiB the result of versions 1 and 2 is right if and only if the sum of its words stays below 2 to the 32 |
| `ChainChecksum.InetChksum` | TC375/Libraries/Ethernet/lwip/src/core/inet_chksum.c:554-558 | complement of the RFC 1071 sum, whichever of the three versions is configured |
| `ChainChecksum.InetChksumPbuf` | TC375/Libraries/Ethernet/lwip/src/core/inet_chksum.c:567-588 | the chain walker equals the checksum of the concatenation exactly, for any segment lengths (empty and odd included), any segment addresses, any version |
| `ChainChecksum.SumChain` | TC375/Libraries/Ethernet/lwip/src/core/inet_chksum.c:262-283 | the loop common to the chain walkers: one fold per segment keeps the accumulator in 16 bits, and the swap count comes out even |
| `ChainChecksum.InetChksumPseudo` | TC375/Libraries/Ethernet/lwip/src/core/inet_chksum.c:309-327 | pseudo-header checksum of a chain equals the RFC 1071 checksum of pseudo header and concatenated data |
| `ChainChecksum.FinishPseudo` | TC375/Libraries/Ethernet/lwip/src/core/inet_chksum.c:285-293 | protocol and length may join the sum after the data although they stand before it |
| `ChainChecksum.InetChksumPseudoPartial` | TC375/Libraries/Ethernet/lwip/src/core/inet_chksum.c:455-473 | the partial checksum is that of the chain cut to chksum_len octets; the debugging assertion inside the loop holds if and only if chksum_len stays below 0x7fff plus the first segment's length |
| `ChainChecksum.SumPrefix` | TC375/Libraries/Ethernet/lwip/src/core/inet_chksum.c:398-429 | the swap test reads the unclipped segment length, and the result is right all the same |
| `ChainChecksum.StoreField` | TC375/Libraries/Ethernet/lwip/src/core/inet_chksum.c:296-308 | storing a 16-bit field at any offset of a chain, also across two pbufs, changes exactly these two octets |
| `ChainChecksum.VerifiesExactly` | TC375/Libraries/Ethernet/lwip/src/core/inet_chksum.c:259-294 | which stored values make the checksum vanish: the computed one, and all ones for a computed zero, and no other |
| `ChainChecksum.FillThenVerify` | TC375/Libraries/Ethernet/lwip/src/core/inet_chksum.c:309-327 | fill then verify (section 1 of RFC 1071): storing the computed checksum in its zero field at an even offset makes the second call return 0, and no other stored value does, but for the two forms of zero |
| `NetconnProofs.TryWriteKeepsPrefix` | TC375/Libraries/Ethernet/lwip/src/api/api_msg.c:1676-1726 | whatever TCP answers, what tcp_write accepted is the first `offset` octets of the concatenated vectors, and the last vector is finished only when offset = len |
| `NetconnProofs.LoopTerminates` | TC375/Libraries/Ethernet/lwip/src/api/api_msg.c:1676-1726 | the do-while loop ends within as many turns as octets and vectors are left, unless it meets the stuck point |
| `NetconnProofs.RoomNeverStuck` | TC375/Libraries/Ethernet/lwip/src/api/api_msg.c:1699-1711 | a send buffer that always has room keeps the loop away from the stuck point |
| `NetconnProofs.StuckSpins` | TC375/Libraries/Ethernet/lwip/src/api/api_msg.c:1705-1711 | with an empty send buffer, where tcp_write takes an empty piece (TC375/Libraries/Ethernet/lwip/src/core/tcp_out.c:316-318), a blocking write spins without end if and only if what is left of the vector is a multiple of 65536 and more vectors follow, because of the 16-bit comparison |
| `NetconnProofs.PendingHasOctets` | TC375/Libraries/Ethernet/lwip/src/api/api_msg.c:1655-1657 | the assertion on entry: a pending write has octets to go, provided the caller's last vector is not empty |
| `NetconnProofs.StepKeeps` | TC375/Libraries/Ethernet/lwip/src/api/api_msg.c:1639-2004 | every request and callback keeps the connection good, except the one fatal step, after which a caller is orphaned |
| `NetconnProofs.EveryRun` | TC375/Libraries/Ethernet/lwip/src/api/api_msg.c:356-505 | over every run, for arbitrary answers of TCP and write loops that have not ended included: current_msg is set exactly in WRITE, CLOSE and blocking CONNECT, every message but that one is signalled exactly once, each carries a prefix of its vectors, and success of a blocking write means all octets, if and only if no error callback meets a blocked caller behind a leftover connect flag; in that case the caller is orphaned |
| `NetconnProofs.NoLoss` | TC375/Libraries/Ethernet/lwip/src/api/api_msg.c:1112-1206 | no run of any connection, blocking or not, deleted or not, loses a caller, provided the close of a connection whose connect is in progress succeeds, which TCP ensures by freeing its pcb (TC375/Libraries/Ethernet/lwip/src/core/tcp.c:397-401) |
| `NetconnProofs.OrphanedForever` | TC375/Libraries/Ethernet/lwip/src/api/api_msg.c:431-505 | a caller that lost its wake-up is never signalled by any later event |
| `NetconnProofs.StuckCloseEnds` | TC375/Libraries/Ethernet/lwip/src/api/api_msg.c:366-372 | a close that always gets ERR_MEM, which the interface of tcp_close allows, ends with the poll that uses up polls_left, not earlier and not later, whatever sent callbacks come between, and its caller is signalled once |
| `NetconnOutcomes.WriteOutcome` | TC375/Libraries/Ethernet/lwip/src/api/api_msg.c:1727-1796 | whom one turn of a write tells what: ERR_RTE of tcp_output goes to the caller; all octets taken is ERR_OK; a write that must not block ends in any case, with ERR_WOULDBLOCK only if nothing was taken; any other error of tcp_write is reported unchanged; a blocking write with octets left is not signalled |
| `NetconnOutcomes.LoopReports` | TC375/Libraries/Ethernet/lwip/src/api/api_msg.c:1676-1726 | what the write loop reports: the answer of tcp_write that ended it, or, for a full send buffer under dontblock, that nothing or only a part was taken; without an error it does not stop before the octets or the send buffer run out |
| `NetconnOutcomes.FullBuffer` | TC375/Libraries/Ethernet/lwip/src/api/api_msg.c:1686-1698 | a full send buffer under dontblock is ERR_WOULDBLOCK with nothing taken and ERR_OK after a part |
| `NetconnOutcomes.CloseOutcome` | TC375/Libraries/Ethernet/lwip/src/api/api_msg.c:919-1103 | how a close attempt ends, in terms of which halves are shut: only a full close gives up the pcb, and only it turns a lasting ERR_MEM into success; a half shutdown reports it |
| `NetconnOutcomes.ResumeOutcome` | TC375/Libraries/Ethernet/lwip/src/api/api_msg.c:356-422 | a poll takes one off the polls left and tries again, a sent callback tries again, other states ignore both |
| `NetconnOutcomes.WriteRequest` | TC375/Libraries/Ethernet/lwip/src/api/api_msg.c:1812-1858 | a write request: pending error first and once, then ERR_INPROGRESS, then ERR_CONN, else a write from its first octet |
| `NetconnOutcomes.CloseRequest` | TC375/Libraries/Ethernet/lwip/src/api/api_msg.c:1933-2004 | a close request: ERR_CONN without a pcb or during a connect, ERR_INPROGRESS during a write, else one attempt |
| `NetconnOutcomes.DeleteRequest` | TC375/Libraries/Ethernet/lwip/src/api/api_msg.c:1112-1206 | a delete: ERR_INPROGRESS during a write, a close or a blocking connect, ERR_OK without a pcb, else a full close |
| `NetconnOutcomes.ConnectRequest` | TC375/Libraries/Ethernet/lwip/src/api/api_msg.c:1349-1415 | a connect: ERR_CLSD, ERR_ALREADY, ERR_ISCONN or TCP's own error at once; ERR_INPROGRESS with the flag left behind when nonblocking; else the caller waits |
| `NetconnOutcomes.ConnectedOutcome` | TC375/Libraries/Ethernet/lwip/src/api/api_msg.c:1300-1339 | the connected callback tells a blocked caller its argument and clears flag and state |
| `NetconnOutcomes.ErrOutcome` | TC375/Libraries/Ethernet/lwip/src/api/api_msg.c:431-505 | the error callback drops the pcb, keeps the error for the next write and tells a blocked caller, to whom a close has succeeded |
| `Netconn.PrepareWrite` | TC375/Libraries/Ethernet/lwip/src/api/api_lib.c:1006-1040 | the size_t sum with its wrap check refuses exactly the requests whose true total does not fit, and limits or refuses totals above SSIZE_MAX |
| `Netconn.TotalIsLength` | TC375/Libraries/Ethernet/lwip/src/api/api_lib.c:1006-1040 | the total of the vector lengths is the number of octets that the write request is to write |
| `Netconn.Conn.constructor` | TC375/Libraries/Ethernet/lwip/src/api/api_msg.c:704-785 | a new connection, with its pcb in place, is the initial state of the state machine |
| `Netconn.Conn.WriteMore` | TC375/Libraries/Ethernet/lwip/src/api/api_msg.c:1639-1803 | when the loop ends, the method on the objects does what the state machine's write step says, message fields and state included; `NetconnOutcomes.WriteOutcome` says what that is |
| `Netconn.Conn.Judge` | TC375/Libraries/Ethernet/lwip/src/api/api_msg.c:1743-1782 | which loop results and tcp_output results finish a write, and with which error; `NetconnOutcomes.WriteOutcome` says it in the caller's terms |
| `Netconn.Conn.TryWriteLoop` | TC375/Libraries/Ethernet/lwip/src/api/api_msg.c:1675-1726 | the loop over fields of the message computes TryWrite, which the lemmas above are about |
| `Netconn.Conn.CloseInternal` | TC375/Libraries/Ethernet/lwip/src/api/api_msg.c:919-1103 | one close attempt: finished on success, on a non-memory error or with no polls left; a reset turns into success |
| `Netconn.Conn.SubmitWrite` | TC375/Libraries/Ethernet/lwip/src/api/api_msg.c:1812-1858 | a write request starts, is refused or is answered at once as the state machine says |
| `Netconn.Conn.SubmitClose` | TC375/Libraries/Ethernet/lwip/src/api/api_msg.c:1933-2004 | likewise a close or shutdown request |
| `Netconn.Conn.SubmitDelete` | TC375/Libraries/Ethernet/lwip/src/api/api_msg.c:1112-1206 | likewise a delete; it is refused during a blocking connect or write |
| `Netconn.Conn.SubmitConnect` | TC375/Libraries/Ethernet/lwip/src/api/api_msg.c:1349-1415 | likewise a connect, blocking or not |
| `Netconn.Conn.Connected` | TC375/Libraries/Ethernet/lwip/src/api/api_msg.c:1300-1339 | the connected callback releases the blocked caller, if there is one |
| `Netconn.Conn.SentTcp` | TC375/Libraries/Ethernet/lwip/src/api/api_msg.c:397-422 | the sent callback resumes a pending write or close |
| `Netconn.Conn.PollTcp` | TC375/Libraries/Ethernet/lwip/src/api/api_msg.c:356-388 | the poll callback does so too, after counting a poll off a pending close |
| `Netconn.Conn.ErrTcp` | TC375/Libraries/Ethernet/lwip/src/api/api_msg.c:431-505 | the error callback wakes the blocked caller unless the connection carries the nonblocking-connect flag |
| `IsoTp.CanTpSend` | TC375/BSW/Driver/can.c:281-315 | the ECU's frames are the segmentation of the message: single frame up to seven octets, else first frame and consecutive frames with numbers 1 to 15, 0, 1 and a zero-padded last frame (section 9.6 of ISO 15765-2) |
| `IsoTp.WireFormat` | TC375/BSW/Driver/can.c:281-315 | every octet of every frame in numbers, and how many frames a message takes |
| `IsoTp.ConsecutiveAt` | TC375/BSW/Driver/can.c:303-314 | frame k carries the octets 6 + 7k onward under number (k + 1) mod 16 |
| `IsoTp.SendUdsTpWrite` | uds/can_dash.py:431-480 | the exact trace: the first frame alone without a flow control frame that clears the way; all frames when blocks have no size; otherwise the blocks up to the first wait that fails, and all frames if every wait that is reached succeeds; always a prefix of the segmentation |
| `IsoTp.Reassemble` | uds/can_dash.py:548-593 | the tester's loop computes payload and number of sequence warnings as the fold over frames |
| `IsoTp.FlowIgnored` | uds/can_dash.py:558-559 | flow control frames anywhere in a trace change nothing |
| `IsoTp.AfterFrames` | uds/can_dash.py:570-593 | what the tester holds after the first frame and any number of consecutive frames |
| `IsoTp.Warnings` | uds/can_dash.py:570-593 | behind a first frame, whatever numbers the frames bear: octets are strung together in order of arrival up to the announced length, one warning is counted for each number that is not the frame's place, later frames are ignored |
| `IsoTp.RoundTrip` | TC375/BSW/Driver/can.c:293-314 | the tester rebuilds every response of eight or more octets from the ECU's frames, flow control interleaved anywhere, without sequence warning, if and only if its length is at most 4095; otherwise exactly the octets the length field lets through |
| `IsoTp.RoundTripSingle` | uds/can_dash.py:561-568 | a response of one to seven octets comes back exactly when it starts with the expected service |
| `TpReceiver.Receiver.CanTpRx` | TC375/BSW/Driver/can.c:197-226 | the receiver over its buffer and counters does what Receive says on values, dispatching included |
| `TpReceiver.Bookkeeping` | TC375/BSW/Driver/can.c:211-225 | whatever the bus does to the frames, length, expected number and dispatch count only depend on how many frames were accepted |
| `TpReceiver.BufferIsPrefix` | TC375/BSW/Driver/can.c:214-219 | tpBuf holds a true prefix of the message as far as frames were accepted |
| `TpReceiver.FaithfulExactly` | TC375/BSW/Driver/can.c:197-226 | reassembly is faithful for every loss, repetition and reordering if and only if no sequence number of the message stands for two different frames |
| `TpReceiver.Corrupts` | TC375/BSW/Driver/can.c:214-219 | if two frames share a number, one delivery order makes the receiver take the wrong one |
| `TpReceiver.ShortMessagesAreSafe` | TC375/BSW/Driver/can.c:197-226 | messages of 7 to 118 octets are safe: tpBuf is a true prefix, and the message is dispatched, exact and once, if and only if its frames arrive in order among the others |
| `TpReceiver.UnsafeMessage` | TC375/BSW/Driver/can.c:213-219 | 118 is the limit: a message of 119 octets whose seventeenth frame clashes with its first |
| `DtcTable.DistinctExactly` | TC375/BSW/Driver/can.c:230-252 | the codes of a table are the different codes of its history |
| `DtcTable.TableMeaning` | TC375/BSW/Driver/can.c:228-253 | at most sixteen distinct codes; an entry with k reports since the last clear counts k mod 256 and is Pending exactly when that is 1, Confirmed otherwise |
| `DtcTable.PlaceOf` | TC375/BSW/Driver/can.c:228-253 | the table in numbers: a code first reported after i other codes has place i if i is below sixteen and none otherwise, with its number of reports modulo 256 and status 0x01 or 0x40 |
| `DtcTable.ReportExtends` | TC375/BSW/Driver/can.c:228-253 | a report takes the table of a history to the table of the history one report longer; a seventeenth code is dropped |
| `DtcTable.Table.DtcReport` | TC375/BSW/Driver/can.c:228-253 | the method over list and count keeps the table equal to that of the reports since the last clear |
| `DtcTable.Table.DtcClear` | TC375/BSW/Driver/can.c:275-279 | clearing starts an empty history |
| `DtcTable.ReadDtcResponse` | TC375/BSW/Driver/can.c:488-511 | the 0x19 response encodes exactly the table (section 11.3 of ISO 14229-1) |
| `DtcTable.ResponseFormat` | TC375/BSW/Driver/can.c:488-511 | the response in numbers: 0x59 0x02 0xff, then the three lower octets of each code, highest first, and its status |
| `DtcTable.DecodeDtc` | uds/can_dash.py:660-696 | the tester's decoding loop: code and status of every entry in octets of the payload, and the lengths that count as too short, empty or not recognised |
| `DtcTable.DecodeEncode` | uds/can_dash.py:675-693 | decoding undoes encoding for every table, codes cut to 24 bits |
| `DtcTable.ReadDtcEndToEnd` | TC375/BSW/Driver/can.c:488-511 | through segmentation, interleaved flow control, reassembly and decoding the tester lists exactly the ECU's table, for every report history |
| `RingQueue.Ring.Init` | TC375/Libraries/Utils/Queue/byte_queue.c:3-13 | accepts capacities 1 to 64 and starts empty |
| `RingQueue.Ring.Push` | TC375/Libraries/Utils/Queue/byte_queue.c:15-29 | the queue becomes the last capacity - 1 of its items with the new one appended; the source's event queue is the same text over another element type |
| `RingQueue.Ring.Pop` | TC375/Libraries/Utils/Queue/eru_event_queue.c:31-40 | the oldest item leaves, or nothing happens on an empty queue |
| `RingQueue.WindowGrows` | TC375/Libraries/Utils/Queue/byte_queue.c:20-26 | writing at tail, advancing it and perhaps head is appending and perhaps dropping the first item, across the wrap |
| `RingQueue.KeepLastTwice` | TC375/Libraries/Utils/Queue/byte_queue.c:15-29 | dropping oldest items push by push keeps what dropping them all at once would keep |
| `RingQueue.SlotsStay` | TC375/Libraries/Utils/Queue/byte_queue.c:20-26 | a push leaves every surviving item in its slot |
| `TofFramer.VerifyCheckSum` | TC375/BSW/IO/ToF.c:41-49 | the loop compares the octet sum modulo 256 with the last octet |
| `TofFramer.DistRawIsSigned24` | TC375/BSW/IO/ToF.c:63-64 | shifting three octets to the top of 32 bits and dividing by 256 reads a signed 24-bit distance |
| `TofFramer.FramingIsReadings` | TC375/BSW/IO/ToF.c:83-109 | taking octets one by one publishes exactly the readings that cutting the stream at headers gives; `TofPackets.ReadingsAreFrames` says what these are |
| `TofFramer.EveryRun` | TC375/BSW/IO/ToF.c:31-110 | any interleaving of receive interrupts and loop iterations, overflow included: published readings are those of the octets read, which are received octets in order, with every loss counted |
| `TofFramer.DrainedIsReadings` | TC375/BSW/IO/ToF.c:74-110 | without overflow and with the queue drained the published readings are a pure function of the received octets, whatever the budgets |
| `TofPackets.AcceptedExactly` | TC375/BSW/IO/ToF.c:41-49 | a packet is accepted if and only if it starts with 0x57 and its last octet is the sum of the others modulo 256 |
| `TofPackets.DecodeEncode` | TC375/BSW/IO/ToF.c:51-72 | decoding undoes a packet encoder written from the sender's side, for every id, 32-bit time, signed 24-bit distance, status and 16-bit signal, and stamps the reading with the time it is given |
| `TofPackets.ReadingsAreFrames` | TC375/BSW/IO/ToF.c:83-109 | the readings of a stream are those of its well-formed frames, in order and without exception, field by field, each received when the 0x57 octet that opens its frame arrived |
| `TofPackets.PublishedTimes` | TC375/BSW/IO/ToF.c:31-110 | over every run the published readings are those of the frames of the octets read, each with its own header's arrival time |
| `Tof.TimesAfterPush` | TC375/BSW/IO/ToF.c:31-39 | an arrival time written at tail before the push belongs to the pushed octet, and every other queued header keeps its own |
| `Tof.Receiver.RxHandler` | TC375/BSW/IO/ToF.c:31-39 | the interrupt is one Receive event of the model, keeps every queued header's time at its slot and leaves the packet being collected alone |
| `Tof.Receiver.ParsePacket` | TC375/BSW/IO/ToF.c:51-72 | a 16-octet packet with header and checksum is decoded field by field, stamped with the time of its header, anything else is refused; `TofPackets.DecodeEncode` says what the fields are |
| `Tof.Receiver.ProcessOne` | TC375/BSW/IO/ToF.c:83-109 | one loop iteration, with interrupts between the pop and the look-up of the header's time, counts as an Iterate event followed by the Receive events, as long as the interrupts do not fill the ring |
| `Tof.TimeSurvivesExactly` | TC375/BSW/IO/ToF.c:83-92 | the time looked up behind head is the popped header's, whatever the interrupts since the pop bring, if and only if there are at most as many of them as the ring has free slots |
| `Tof.Receiver.ProcessQueue` | TC375/BSW/IO/ToF.c:74-110 | at most max_bytes_per_call iterations, fewer only if the queue runs empty; packet buffer, index, time and latest reading stay those of the model |
| `Tof.Receiver.GetLatestData` | TC375/BSW/IO/ToF.c:112-120 | hands out the reading published last, once |
| `AverageFilter.SumSlides` | TC375/Libraries/Utils/Filter/avg_filter.c:27-33 | taking out the oldest value and adding the new one keeps the sum of the window |
| `AverageFilter.UpdateKeeps` | TC375/Libraries/Utils/Filter/avg_filter.c:24-36 | after any history, sum is the sum of the last min(n, size) values, far from the limits of 64 bits, and the quotient is their mean truncated toward zero and fits 32 bits |
| `AverageFilter.MeanBetween` | TC375/Libraries/Utils/Filter/avg_filter.c:36 | the truncated mean lies between any bounds of the window |
| `AverageFilter.MeanExactly` | TC375/Libraries/Utils/Filter/avg_filter.c:36 | the mean is the quotient of sum and count with its fraction cut off, for both signs |
| `AverageFilter.Filter.Init` | TC375/Libraries/Utils/Filter/avg_filter.c:3-17 | sizes 1 to the buffer size start an empty history |
| `AverageFilter.Filter.Update` | TC375/Libraries/Utils/Filter/avg_filter.c:19-37 | returns the mean of the last min(n, size) values of the history since Init or Reset, or 0 before Init |
| `AverageFilter.Filter.Reset` | TC375/Libraries/Utils/Filter/avg_filter.c:39-52 | forgets the history |
| `Ultrasonic.DistanceInRange` | TC375/BSW/IO/Ultrasonic.c:12 | for echoes of up to 6.26 seconds the 32-bit product does not wrap and the result is the rounded-down distance |
| `Ultrasonic.Sensor.EchoHandler` | TC375/BSW/IO/Ultrasonic.c:59-67 | queues the edge, dropping the oldest of a full queue |
| `Ultrasonic.Sensor.TakeEdge` | TC375/BSW/IO/Ultrasonic.c:80-97 | a falling edge right behind a rising one feeds the distance between the two, publishes it with its mean and the rise time; any other edge publishes nothing |
| `Ultrasonic.Sensor.ProcessQueue` | TC375/BSW/IO/Ultrasonic.c:69-102 | edges leave the queue in order within the budget, and the filter's history stays exactly the distances of the edges taken so far |
| `Ultrasonic.DistancesConcat` | TC375/BSW/IO/Ultrasonic.c:71-96 | however edges are cut into calls, each rise-fall pair counts once |
| `Ultrasonic.PulsesMeasured` | TC375/BSW/IO/Ultrasonic.c:71-96 | every pulse counts once, in order, as its width times 343 / 2000 rounded down, and stray edges between pulses count for nothing |
| `AutoParking.SizeIsDuration` | vc_software/apps/realtime/control_thread.cpp:211-217 | a gap is large enough exactly when it lasted at least 300 ms |
| `AutoParking.Controller.Start` | vc_software/apps/realtime/control_thread.cpp:74-77 | start resets everything and activates |
| `AutoParking.Controller.Stop` | vc_software/apps/realtime/control_thread.cpp:79-82 | stop resets everything and deactivates |
| `AutoParking.Controller.UpdateSensors` | vc_software/apps/realtime/control_thread.cpp:138-168 | a step is accepted exactly when left and rear readings exist and none of the four is older than five intervals |
| `AutoParking.FreshExactly` | vc_software/apps/realtime/control_thread.cpp:138-168 | the acceptance test in numbers: left and rear are there, and each of the four time stamps is zero, ahead of now or at most five intervals old |
| `AutoParking.Controller.AnalyzeSpace` | vc_software/apps/realtime/control_thread.cpp:170-189 | tracks the smallest distance and tells wall from space |
| `AutoParking.Controller.ProcessStateTransition` | vc_software/apps/realtime/control_thread.cpp:191-203 | start and size of a gap at its two edges |
| `AutoParking.Controller.ComputeOutputs` | vc_software/apps/realtime/control_thread.cpp:219-274 | one computed step over the fields is Compute on values, of which the run lemmas speak |
| `AutoParking.Controller.Step` | vc_software/apps/realtime/control_thread.cpp:86-101 | a fresh step of an active controller computes; any other step stops the car and changes no other field |
| `ParkingRuns.GapClosed` | vc_software/apps/realtime/control_thread.cpp:205-209 | finds the first reading that closes a gap of at least 300 ms, and no earlier one does |
| `ParkingRuns.SpaceExactly` | vc_software/apps/realtime/control_thread.cpp:170-189 | a reading is space if and only if it lies more than 100 mm beyond some reading of the same stage |
| `ParkingRuns.GapExactly` | vc_software/apps/realtime/control_thread.cpp:191-217 | a gap closes exactly at the wall reading that ends a run of space readings, at least 300 ms after the first of that run |
| `ParkingRuns.SearchRun` | vc_software/apps/realtime/control_thread.cpp:205-232 | from start(), detection ends exactly at the first wall reading that closes a run of space readings (more than 100 mm above the running minimum) of at least 300 ms |
| `ParkingRuns.ReverseRun` | vc_software/apps/realtime/control_thread.cpp:234-245 | the way back ends exactly at the first space reading measured against a new minimum |
| `ParkingRuns.RotateRun` | vc_software/apps/realtime/control_thread.cpp:246-265 | rotation counts to thirty, steers, then backs up, and completes exactly at the first reading from the thirtieth on with the rear obstacle within 100 mm |
| `ParkingRuns.Manoeuvre` | vc_software/apps/realtime/control_thread.cpp:219-274 | where the controller stands after any sequence of fresh readings, in terms of the three stage ends |
| `ParkingRuns.DoneIsCompleted` | vc_software/apps/realtime/control_thread.cpp:257-272 | done holds exactly in the last stage |
| `ParkingRuns.CompletionNeeds` | vc_software/apps/realtime/control_thread.cpp:246-265 | completion takes at least 35 fresh readings, one of them from the 35th on with the rear obstacle within 100 mm |
| `ParkingRuns.StepAdvances` | vc_software/apps/realtime/control_thread.cpp:219-274 | phase, execution state and rotation counter never go back, from any state |
| `ParkingRuns.OutputsForgotten` | vc_software/apps/realtime/control_thread.cpp:219-274 | a computed step does not depend on the outputs left by the step before |
| `ParkingRuns.HeldStepsDropOut` | vc_software/apps/realtime/control_thread.cpp:86-101 | steps that are not fresh can be dropped from any run without changing state, and after a fresh step without changing outputs |
| `ChunkAssembler.CountMeansAll` | vc_software/apps/digital_key/digital_key/chunks.py:29-30 | as many parts as the total means that all indices are present; the second test in complete() never decides |
| `ChunkAssembler.RunHolds` | vc_software/apps/digital_key/digital_key/chunks.py:42-87 | after any run the buffer is empty or holds exactly the newest data of one sequence of the latest arrivals: one id and total, no second chunk 0, within the time limit |
| `ChunkAssembler.AssembledExactly` | vc_software/apps/digital_key/digital_key/chunks.py:42-87 | ingest hands a message on if and only if the arrivals end in a stretch that opens with chunk 0, stays with one id and total within the time limit, has no other chunk 0, and gets its last missing index from the last arrival; the message is made of that stretch alone |
| `ChunkAssembler.EveryOutcome` | vc_software/apps/digital_key/digital_key/chunks.py:42-87 | the outcome of every run: a command in one piece is handed through and empties the buffer, a chunk outside its bounds is refused and changes nothing, any other chunk completes a message or waits, each if and only if |
| `ChunkAssembler.Forgets` | vc_software/apps/digital_key/digital_key/chunks.py:42-87 | arrivals behind a command in one piece or behind a message handed on fare as with a new assembler; a refused chunk might as well never have come |
| `ChunkAssembler.DeliversOnce` | vc_software/apps/digital_key/digital_key/chunks.py:54-87 | chunk 0 first and once, the rest in any order with repeats, after any earlier traffic: nothing until the last missing index, then exactly the concatenation, and never again |
| `ChunkAssembler.ChunkState.IsComplete` | vc_software/apps/digital_key/digital_key/chunks.py:29-30 | both tests of complete() |
| `ChunkAssembler.ChunkState.Build` | vc_software/apps/digital_key/digital_key/chunks.py:32-33 | the parts joined in index order |
| `ChunkAssembler.CommandChunkAssembler.Ingest` | vc_software/apps/digital_key/digital_key/chunks.py:42-87 | the method over state and parts is IngestOne on values, whose outcomes `ChunkAssembler.EveryOutcome` and `ChunkAssembler.AssembledExactly` give; the state is dropped before decoding |
| `ChunkAssembler.CommandChunkAssembler.Reset` | vc_software/apps/digital_key/digital_key/chunks.py:39-40 | forgets the buffered sequence |
| `PairingCache.RestartKeepsSession` | vc_software/apps/digital_key/digital_key/pairing.py:994-1089 | a cached session survives a restart if and only if six fields are non-empty and its key has 32 octets, although a seed also accepts 16 and 24; it comes back equal if and only if its optional fields are canonical |
| `PairingNonces.FirstDrawn` | vc_software/apps/digital_key/digital_key/pairing.py:582-609 | the nonce drawn for the first handshake of a session in a run of operations |
| `PairingNonces.FirstHandshakeDecides` | vc_software/apps/digital_key/digital_key/pairing.py:582-645 | over every run: since the last seed of a session every handshake answers with the nonce drawn for the first one, and without a handshake there is no context |
| `PairingManager.Manager.constructor` | vc_software/apps/digital_key/digital_key/pairing.py:157-172 | a new manager is coherent; it holds the restored session or none |
| `PairingManager.Manager.LoadCached` | vc_software/apps/digital_key/digital_key/pairing.py:994-1052 | restores exactly what Restore says, or forgets the payload |
| `PairingManager.Manager.ExportState` | vc_software/apps/digital_key/digital_key/pairing.py:1054-1089 | without a current session all sessions and the cached payload are dropped |
| `PairingManager.Manager.GetState` | vc_software/apps/digital_key/digital_key/pairing.py:463-475 | without an id the current session and nothing else: the fallbacks to the last id and to any session are dead, because sessions never outlive the current one |
| `PairingManager.Manager.OpenContext` | vc_software/apps/digital_key/digital_key/pairing.py:583-608 | a handshake makes or refreshes the context of its session; the vehicle nonce stays the one in the table of all handshakes and seeds |
| `PairingManager.Manager.TouchSession` | vc_software/apps/digital_key/digital_key/pairing.py:610-624 | a handshake makes an established session current and notes key and client nonce |
| `PairingManager.Manager.BeginHandshake` | vc_software/apps/digital_key/digital_key/pairing.py:540-645 | answers with the table's nonce under the chosen id; the context and an established session of that id take the user key and the client nonce, contexts and sessions stay under their own ids, the pending handshake is the stored object |
| `PairingManager.Manager.StoreCertificate` | vc_software/apps/digital_key/digital_key/pairing.py:702-772 | needs a context; notes certificate and key, where given, in the context and in the session of that id, and makes that session current |
| `PairingManager.Manager.FindContext` | vc_software/apps/digital_key/digital_key/pairing.py:799-822 | the context a seed consumes; looking at the pending handshake never finds one that the table lacks |
| `PairingManager.Manager.SeedSession` | vc_software/apps/digital_key/digital_key/pairing.py:774-882 | exactly when a seed succeeds; the seeded session is current and stored under its id, every field of it stated, takes the context's nonce unless the seed brings one, and consumes the context |
| `PairingManager.Manager.NewSession` | vc_software/apps/digital_key/digital_key/pairing.py:824-861 | every field of the seeded session: token from seed, context or cache, keys and certificate from the context, nonces from the seed where they decode, expiry, verified |
| `PairingManager.Manager.RecoverSession` | vc_software/apps/digital_key/digital_key/pairing.py:884-992 | succeeds if and only if there is a current session, a remote key and a derivation from the template's token and nonce: the fallbacks to the PIN session and the cached payload are dead, because neither holds a nonce without a current session; every field of the new session is stated, its template being the session it replaces, else the current one |
| `PairingManager.Manager.RecoveryMaterial` | vc_software/apps/digital_key/digital_key/pairing.py:923-950 | token, key and nonce: all from the template if there is one, else from the PIN session, and what that lacks from the cached payload |
| `PairingManager.Manager.Verified` | vc_software/apps/digital_key/digital_key/pairing.py:973-985 | a recovered session counts as verified if and only if the caller says so or its template, the cached payload or the session it replaces was verified |
| `PairingManager.Manager.InitializePin` | vc_software/apps/digital_key/digital_key/pairing.py:1113-1129 | a new PIN session forgets every PKI session, not only the one with its id |
| `PairingManager.Manager.PinVerified` | vc_software/apps/digital_key/digital_key/pairing.py:1251-1304 | a verified PIN status installs a session exactly when key, token and derivation are there; every field of it is stated, session key and vehicle key from the derivation over token, fresh nonce and user key |
| `PairingManager.Manager.PairingHandshake` | vc_software/apps/digital_key/digital_key/pairing.py:322-376 | finalises the session of that id, current or not; on success the PIN session gets its nonce and the current session is exported |
| `PairingManager.SessionState.Finalize` | vc_software/apps/digital_key/digital_key/pki.py:173-217 | client nonce, the keys tried in order, the verified mark and the key fields noted afterwards, failures included |
| `PairingManager.FirstVerifying` | vc_software/apps/digital_key/digital_key/pki.py:199-217 | the first key that verifies with only failing keys before it |
| `PairingManager.OnlyGoodSignatures` | vc_software/apps/digital_key/digital_key/pki.py:173-217 | when finalising succeeds, and exactly what it changes: only a signature that a key of the session verifies makes it verified and may fill in its keys; a failure changes nothing but the client nonce |
| `PairingManager.CandidatesMeaning` | vc_software/apps/digital_key/digital_key/pki.py:184-199 | the keys tried are handshake, user and certificate key, in this order, each once, absent ones left out |
| `IpcText.ReadForm` | vc_software/apps/realtime/ipc_server.cpp:48-57 | white space, an optional sign and digits read as the number, negated modulo 2 to the 64 behind a minus sign, and are refused if the digits alone exceed 64 bits |
| `IpcText.ReadOnlyForms` | vc_software/apps/realtime/ipc_server.cpp:48-57 | nothing else is accepted, but for the empty text, which reads as 0 |
| `IpcText.ReadBack` | vc_software/apps/realtime/ipc_server.cpp:48-57 | every printed number reads back if it fits 64 bits and is refused otherwise |
| `IpcText.TokensExactly` | vc_software/apps/realtime/ipc_server.cpp:38-65 | the tokens of a text are the only texts without semicolon that, joined by semicolons, give it back |
| `IpcMessages.ParseMessage` | vc_software/apps/realtime/ipc_server.cpp:32-67 | the scan with pos and next computes the fold over tokens of the trimmed message |
| `IpcMessages.ParsedLine` | vc_software/apps/digital_key/digital_key/ipc_client.py:26-27 | what the server makes of a client line whose fields hold no semicolon |
| `IpcMessages.ParsedExactly` | vc_software/apps/realtime/ipc_server.cpp:32-67 | what the server makes of any datagram: of several CMD or SRC fields the last one counts, of several REQ fields the last that can be read, other tokens count for nothing |
| `IpcMessages.RoundTripExactly` | vc_software/apps/digital_key/digital_key/ipc_client.py:26-27 | the server reads back exactly what the client meant if and only if the command is not empty, neither field holds a semicolon, the source does not end in CR or LF and the number fits 64 bits |
| `IpcExchange.Server.Serve` | vc_software/apps/realtime/ipc_server.cpp:124-162 | one turn of the server: flags and reply text as functions of the parsed, truncated datagram |
| `IpcExchange.ReplyTexts` | vc_software/apps/realtime/ipc_server.cpp:124-162 | the text of every reply, and that a request which is turned down changes no flag |
| `IpcExchange.AcceptedExactly` | vc_software/apps/digital_key/digital_key/ipc_client.py:38 | the client takes a reply as success if and only if the server executed the command and the client's number is a decimal prefix of the number replied to; with equal digit counts that is equality |
| `IpcExchange.OwnReplyOnly` | vc_software/apps/digital_key/digital_key/ipc_client.py:26-39 | for request numbers of thirteen digits, as milliseconds have from 2001 to 2286, the client takes a reply as success if and only if the server executed this very request |
| `IpcExchange.Exchange` | vc_software/apps/digital_key/digital_key/ipc_client.py:26-39 | for a request that fits the buffer, success means that the server executed exactly this command |
| `IpcExchange.ReadReply` | vc_software/apps/digital_key/digital_key/command_handler.py:231-240 | the token loop computes the fold that fills values and flags |
| `IpcExchange.TruthTexts` | vc_software/apps/digital_key/digital_key/command_handler.py:243-252 | exactly 1, true and TRUE count as true, with any white space around them |
| `IpcExchange.StateRecovered` | vc_software/apps/digital_key/digital_key/command_handler.py:243-252 | reading the reply to GET_ALL gives back the lock and engine flags |
| `IpcExchange.LatestMeans` | vc_software/apps/realtime/ipc_server.cpp:140-147 | the last of two opposite commands in a run |
| `IpcExchange.LastCommandDecides` | vc_software/apps/realtime/ipc_server.cpp:135-155 | after any datagrams doors and engine are as the last effective command left them; malformed and unknown requests change nothing |
| `IpcExchange.QueryReportsLatest` | vc_software/apps/realtime/ipc_server.cpp:148-162 | printer, parser, server, reply, client test and token loop together: after any datagrams GET_ALL tells the client the outcome of the last lock and engine commands |

## Left out

- IPv6 pseudo headers and LWIP_CHKSUM_COPY: the same loops with other framing around them.
- Big-endian hosts: the model loads words as a little-endian host does, as the TC375 is one.
- Checksummed data is given as octets with a start address; stores into the pbufs are functions on values, since the source leaves them to its callers.
- Mailboxes, select events and the CHECK_WRITESPACE flag of a netconn: they carry no request result.
- Listening, UDP and RAW connections, core locking, full duplex, linger and send timeouts: the variants not configured here; one caller per connection.
- TCP itself: tcp_sndbuf, tcp_write, tcp_output, tcp_close, tcp_shutdown and tcp_connect answer arbitrarily, and tcp_write takes a piece as a whole or not at all.
- Netconn.Conn.WriteMore: requires that TCP's answers end the loop; `NetconnProofs.EveryRun` also covers answers that do not.
- Netconn.Conn.SubmitWrite: takes vectors of positive total length, as the write request guarantees; runs with a total limited to SSIZE_MAX are not followed further than `Netconn.PrepareWrite`.
- Netconn.Conn.Connected: the connected callback is modelled in the CONNECT state only, which its assertion demands.
- The transmission of CAN frames, block sizes seen by the ECU, separation times and the dispatch of completed requests.
- TpReceiver.Receiver.CanTpRx: first frames announce at most 251 octets, because tpBuf has 256 octets and each frame copies seven without a bound check.
- IsoTp.SendUdsTpWrite: requests of 6 to 4095 octets; how long the tester waits for flow control is an answer of the environment.
- DTC_Add, UDS_Handle_19 and the ECU-information record, whose 98-octet layout the tester reads as 100 octets.
- Tof.Receiver.ProcessOne: interrupts inside the pop itself, and more interrupts after it than the ring has free slots, for which `Tof.TimeSurvivesExactly` shows that no time can be promised.
- Interrupts inside one iteration of the ultrasonic loop, which looks nothing up after its pop.
- TofFramer.DistRawIsSigned24: distances are integers before the division by 1000, which the source does in floating point.
- Ultrasonic.DistanceInRange: the 32-bit product in the distance macro is taken to wrap; C leaves its overflow undefined.
- The outer loop over the three ultrasonic sensors, which are independent of one another.
- AutoParking.SizeIsDuration: gap sizes are real numbers; the source rounds to single precision.
- AutoParking.Controller.AnalyzeSpace: distances near the largest int, where adding the threshold would overflow.
- Joystick mapping, motor and lamp control of the control thread: pure tables around the parking outputs.
- Field names and decoding of chunk payloads, UTF-8 and JSON decoding of the assembled octets, and the debug file: ingest's effect on its state does not depend on them.
- Locks and threads of the pairing manager: each operation runs as a whole, so a poller between two locked sections is not modelled.
- Pairing challenges, key storage, synchronisation with the server, PIN polling, observers and exported PIN files: they do not touch the session tables.
- PairingManager.SessionState.Finalize: how a signature is checked is a parameter, and errors other than ValueError count as failures too.
- PairingManager.Manager.RecoverSession: the extraction of key and certificate from the request and the key derivation are parameters; the derivation is a function of token, nonce and key.
- Sockets, directories and permissions of the control socket, and white space beyond ASCII when a reply is read.
- IpcExchange.Exchange: requests longer than 255 octets, which the server's buffer cuts; the model's server cuts them too, but no round trip is claimed.
- SOME/IP, MQTT, HTTP, D-Bus, BLE transport, over-the-air updates, user interfaces and configuration: they would only add easy members.
