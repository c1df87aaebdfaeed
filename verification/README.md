# HRZR packet pipeline: model and proofs

This project models the path of HRZR packets through the Jerry driver, from the sample blocks a client sends to the
buffer a receiver fills, and proves properties of it in Dafny. `dafny verify dfyconfig.toml` checks everything.

## What is modelled

| file | part of the driver |
|---|---|
| `Words.dfy`, `HeaderParser.dfy` | little-endian loads and stores; decoding of the 64-bit header |
| `Samples.dfy` | `HrzrParser`: the flat decode of payloads and the loop that writes it into a caller's array |
| `Quantisation.dfy`, `Transmitter.dfy` | float to 16-bit conversion; `HrzrUdpTransmitter` with its 12-bit counter and byte layout |
| `SequenceTracker.dfy` | the loss counter of the receive threads, on sequence numbers and on true packet indices |
| `DpdkSource.dfy` | `DpdkSource::getSamples` and `RXThread` as loops over a stream's receive queue, ring and pool |
| `MbufSystem.dfy`, `MbufSafety.dfy`, `MbufHistory.dfy` | one stream's buffers under every interleaving of NIC, `RXThread` and `getSamples` |
| `DumpText.dfy`, `DumpThread.dfy` | `dumpThread`: three queues, the drain, the file, and a reader for its text |
| `UdpSource.dfy` | the socket receive path |
| `Loopback.dfy` | frames on the wire; what arrives when the driver's own packets come back |
| `EndToEnd.dfy` | sending and receiving in one run; inputs on which the findings below happen |
| `IqClient.dfy` | the read-modify-write setters, `SetMSR4ByJson` and `SendPayload` |

Modelling decisions.

- `rte_eth_rx_burst`, `rte_ring_enqueue` and `rte_pktmbuf_free` are atomic steps. A burst takes waiting packets from the
  front, as many as the NIC has made `ready` and at most the requested count; `ready` is a parameter of every loop that
  polls. An enqueue fails when the ring is full. Concurrency is a state machine whose runs are all lists of steps; a
  step that is not enabled changes nothing.
- A header is its two low bytes and the 48 bits above them, which is the same as one 64-bit word. The masks and the
  shift are written arithmetically; `MaskControl`, `MaskLowNibble` and `PackedBits` prove them equal to the bit
  operations.
- Samples are exact reals. With norm 1 every 16-bit value divides exactly, so nothing is lost there.
- `dumpThread` reads a clock for every packet. Since that clock never runs backwards, it is given by the index of the
  first packet at which three seconds are over (`deadline`).
- The endless polling loops take a list of polls, after which the `quit` flag of another thread is seen.
- `recv` blocks, so the socket path is given a list of datagrams long enough for its window.
- Nothing catches an exception that leaves a receive or dump thread, so it ends the program. For the thread's own loop
  it is a returned flag, in the state machine no step is enabled any more.
- The queues of `dumpThread` are followed on what matters of a packet, its header, the way the drain treats it, and its
  words (`Item`); the socket path's window on what is done with each datagram (`Treatment`).
- A caller's buffer needs room for what the call may write: the blocks of the largest possible burst on the DPDK path,
  the blocks of the accepted datagrams on the socket path. `DocumentedBufferSufficesIff` says when a buffer of the
  requested size is enough.
- Between sender and receiver the network may drop, repeat and reorder datagrams, but does not change them.
- The device answers write number i with an arbitrary error code `reply(i)`; a rejected write changes nothing.

## What the proofs found

- The transmitter stores the header word in host order, the parser reads network order. The parser recovers the
  transmitter's header exactly for the sixteen numbers 257 k (`HostHeaderRecoveredIff`). A receive thread fed with the
  transmitter's own lossless stream from packet 0 ends the program on packet 144, after reporting 34560 lost
  packets (`OwnStreamEndsThread`, and for concrete frames `OwnStreamThrows`). With the two bytes swapped every type and
  number is recovered (`SwappedHeaderRecovered`).
- The loss counter is known exactly for packets delivered with any gaps, repetitions and changes of order
  (`LossOfRun`). A forward jump is charged its true loss only when nothing is missing (`JumpChargeExactIff`), a
  repetition is never charged (`RepetitionsFree`). Gaps next to number 4095 or 0 are
  invisible (`NoLossReportedIff`); inside an epoch every gap costs one too many (`LossWithinOneEpoch`,
  `GapReportedOneTooHigh`).
- Nothing dequeues the ring. While the program runs, a stream stands still forever exactly when it has accepted as many
  packets as its pool has buffers (`StandsStillIff`, `StandsStill`). Every stream has runs that get there, and, unless
  its pool is empty, runs in which the receive thread ends the program (`StandstillsHappen`).
- `getSamples` polls the queue of `RXThread`. On a lossless stream the thread reports the packets `getSamples` took as
  lost (`StolenPacketsReportedLost`, `OneStolenReportedAsTwo`).
- The repository's README promises at most `number_of_samples` samples from `GetSamples`. That holds exactly when no
  more than `number_of_samples / 366` packets are waiting at the call (`OverDeliveryIff`); otherwise up to 366 more may
  come back. In the README's own example, ten samples, one waiting packet is enough (`TenSamplesOverDelivered`).
- After the first drain every further packet of the same burst drains again and truncates the file. For packets with
  pairwise different payloads the dump file holds every packet with its own words exactly when the clock passed the
  limit at the last packet of the run and no packet outside data and metadata precedes a data packet. For repeated
  payloads the second condition is that every data packet has the words of the packet pushed as many places earlier as
  such packets precede it (`DistinctFileCompleteIff`, `FileCompleteIff`, `StrayFirstSpoilsFile`).
- The socket path leaves holes for skipped datagrams, so its count describes the written samples only when the accepted
  datagrams come first (`CountDescribesWrittenIff`, `ShortFirstLeavesHole`); and it decodes from the header on, two
  samples early (`UdpIsShiftedByTwo`).
- `SetMSR4ByJson` returns normally even when the device rejected the protocol or the request to stop streaming
  (`NotCutShortIff`, `RunCompleted`). A device that rejects exactly these is left with its old protocol and still
  streaming (`RefusedUnnoticed`).

## Model

| member | source | states |
|---|---|---|
| Words.MaskControl | src/dpdkSource/hrzrHeaderParser.cc:28 | the arithmetic control field equals the masked and shifted byte |
| Words.MaskLowNibble | src/dpdkSource/hrzrHeaderParser.cc:52 | the arithmetic low nibble equals the masked byte |
| HeaderParser.ReadInNetworkOrder | src/dpdkSource/hrzrHeaderParser.cc:50-55 | the sequence number is the masked first word with its bytes swapped |
| HeaderParser.NetworkHeaderRecovered | src/dpdkSource/hrzrHeaderParser.cc:26-55 | parsing undoes the protocol's network-order layout for every packet type and 12-bit number, whatever bit 2 and the other 48 bits are |
| HeaderParser.HeaderIsNetworkHeader | src/dpdkSource/hrzrHeaderParser.cc:26-55 | every word is the network-order layout of what is parsed from it; only control bits 0x9 and 0xB are refused |
| HeaderParser.ControlTable | src/dpdkSource/hrzrHeaderParser.cc:28-46 | the type for each of the sixteen values of the first four bits |
| HeaderParser.LoadedRest | src/udpSource/udpSource.cc:88-89 | the loaded header word, byte by byte |
| HeaderParser.HostHeaderDecoded | src/udpTransmitter/hrzrUdpTransmitter.cc:56-63 | what the parser makes of a number stored in host order: nibbles h, m, l are read as number l0h with control m |
| HeaderParser.HostHeaderRecoveredIff | src/udpTransmitter/hrzrUdpTransmitter.cc:58 | the stored header is parsed back as data with its own number exactly for the numbers 257 k |
| Samples.HrzrParser.Create | src/dpdkSource/hrzrParser.cc:27-32 | a parser exists exactly for non-zero norms |
| Samples.HrzrParser.ParsePayloadSamples | src/dpdkSource/hrzrParser.cc:34-45 | block packet_idx becomes the decode of the payload, every other cell is unchanged, 366 is returned |
| Samples.DecodeAllConcat | src/dpdkSource/hrzrParser.cc:38-43 | the flat decode of a concatenation is the concatenation of the flat decodes |
| Quantisation.TruncNearest | src/iqClient/iqClient.cc:269-270 | the conversion to 16 bit rounds toward zero by less than one |
| Quantisation.ResendError | src/iqClient/iqClient.cc:266-273 | truncating a decoded component again misses it by less than the norm |
| Quantisation.AllResendableIff | src/iqClient/iqClient.cc:266-273 | every decodable component fits into 16 bits again exactly for norms above 32768/32769 or below -1 |
| Quantisation.ResendExact | src/iqClient/iqClient.cc:266-273 | with norm 1 it is sent again unchanged |
| Transmitter.PackedBits | src/udpTransmitter/hrzrUdpTransmitter.cc:58 | shift and or of control and number equal their arithmetic form |
| Transmitter.StoredHeaderIsHostHeader | src/udpTransmitter/hrzrUdpTransmitter.cc:58 | the packed word, stored unswapped with control 0, is the header in host order that HostHeaderDecoded and HostHeaderRecoveredIff speak of |
| Transmitter.SwappedHeaderRecovered | src/udpTransmitter/hrzrUdpTransmitter.cc:58 | with the two bytes of the packed word swapped it is the protocol's header, and the parser recovers every type and number |
| Transmitter.HrzrUdpTransmitter.MakeHrzrPacket | src/udpTransmitter/hrzrUdpTransmitter.cc:56-64 | the samples are at the front of the fixed buffer, the header fields are packed |
| Transmitter.SentBytes | src/udpTransmitter/hrzrUdpTransmitter.cc:35 | the sent prefix of the packed structure loads back as the number, its own length, source 0 and the components |
| Transmitter.HrzrUdpTransmitter.SendPacket | src/udpTransmitter/hrzrUdpTransmitter.cc:30-39 | exactly one datagram is sent, with every complete sample; the n-th datagram ever carries n modulo 4096 |
| SequenceTracker.ChargeOfJump | src/dpdkSource/dpdkSource.cc:366-372 | what the totals are charged for a step between any two packets, told from how far the second is ahead |
| SequenceTracker.ForwardCharge | src/dpdkSource/dpdkSource.cc:369-372 | for a step forward by less than 4096, a repetition included, the charge in terms of the true packet indices |
| SequenceTracker.BackwardCharge | src/dpdkSource/dpdkSource.cc:369-372 | the same for a step back |
| SequenceTracker.RepetitionsFree | src/dpdkSource/dpdkSource.cc:366-372 | deleting immediate repetitions from any run leaves the lost total and lowers the packet total by their number |
| SequenceTracker.JumpChargeExactIff | src/dpdkSource/dpdkSource.cc:369-372 | the charge of a jump is its true loss exactly when nothing is missing |
| SequenceTracker.LossOfRun | src/dpdkSource/dpdkSource.cc:355-372 | the exact totals after any delivered packets, with any gaps, repetitions and changes of order |
| SequenceTracker.NoLossReportedIff | src/dpdkSource/dpdkSource.cc:369-372 | no loss is reported exactly when the run starts at number 0 or 1 and every step that is neither a repetition nor to the next number starts from number 4095 or leads to number 0 |
| SequenceTracker.LossWithinOneEpoch | src/dpdkSource/dpdkSource.cc:369-372 | within one epoch the reported loss is the missing packets plus the gaps; it is right only when nothing is missing, and at most twice the truth |
| SequenceTracker.GapReportedOneTooHigh | src/dpdkSource/dpdkSource.cc:369-372 | after packet 0 and packet g + 1 alone, g + 1 packets are reported lost, one more than are missing |
| SequenceTracker.LosslessRun | src/dpdkSource/dpdkSource.cc:355-372 | joining a lossless stream at number s costs s once (nothing for 0 and 1) and nothing ever after |
| SequenceTracker.StartActsAsPacketZero | src/dpdkSource/dpdkSource.cc:355-367 | a thread starts as if it had just received number 0 |
| SequenceTracker.SharedTotals | src/dpdkSource/dpdkSource.cc:368-378 | for every interleaving of streams: total minus lost is the number of packets processed, lost is the sum of the streams' own losses, the rate is at most 4095/4096 |
| DpdkSource.DpdkSource.GetSamples | src/dpdkSource/dpdkSource.cc:211-229 | the buffer's prefix is the flat decode of the packets taken, the rest is unchanged, exactly those packets are freed; the count stays within the request when no more packets are waiting than the request covers, exceeds it by at most 366, and stays at or below it only when everything ready or everything waiting was taken |
| DpdkSource.DocumentedBufferSufficesIff | README.md:118-124 | a buffer of exactly the requested size holds the largest possible delivery exactly when so few packets are waiting |
| DpdkSource.DpdkSource.ReceiveAll | gtest/iqClient/iqClientTest.cc:83-89 | for every sequence of requests and bursts the appended results are the flat decode of the consumed prefix of the queue; with all packets ready every request is more than filled until the queue is empty |
| DpdkSource.DpdkSource.CountPacket | src/dpdkSource/dpdkSource.cc:366-382 | one packet's effect on the two totals is one step of the tracker |
| DpdkSource.DpdkSource.ReceivePacket | src/dpdkSource/dpdkSource.cc:364-395 | a packet is counted and goes to exactly one place: ring, leaked, pool, or the thread throws; Loopback.VerdictIff says which packets go where |
| DpdkSource.DpdkSource.ReceiveBurst | src/dpdkSource/dpdkSource.cc:361-396 | a burst is processed up to its first undecodable packet of the stream |
| DpdkSource.DpdkSource.RXThread | src/dpdkSource/dpdkSource.cc:343-406 | over a whole run: a prefix of the queue is processed, the ring takes the first accepted packets up to its room, the later ones leak, the others are freed in order, the totals are the tracker's; after an exception fewer than 32 polled packets are abandoned; with all packets ready every poll takes 32 or empties the queue |
| MbufSafety.BuffersSafe | src/dpdkSource/dpdkSource.cc:211-396 | in every interleaving every buffer is in exactly one place and its event history is legal: no double free, no access after a free, never both ringed and freed |
| MbufHistory.HistoryAlways | src/dpdkSource/dpdkSource.cc:361-396 | in every interleaving each arrival goes to exactly one reader in order, the totals and the delivered samples are those of what each reader read, the ring and the leaks are the accepted packets in order |
| MbufHistory.RingAsInThread | src/dpdkSource/dpdkSource.cc:385-395 | under interleaving the ring and the leaks are what the thread alone would make of its packets |
| MbufHistory.AcceptedAndLeakedBounded | src/dpdkSource/dpdkSource.cc:385-395 | every run accepts at most as many packets as the pool has buffers and leaks exactly those the ring cannot hold |
| MbufHistory.DriverLeaksAtMostOne | src/dpdkSource/dpdkSource.cc:48-110 | with 4096 buffers and 4095 usable ring slots at most one buffer leaks |
| MbufHistory.StandsStillIff | src/dpdkSource/dpdkSource.cc:211-397 | no step changes anything exactly when an exception has ended the program or the thread has accepted as many packets as the pool has buffers |
| MbufHistory.StandsStill | src/dpdkSource/dpdkSource.cc:211-397 | such a state is kept by every continuation |
| MbufHistory.StandstillReachable | src/dpdkSource/dpdkSource.cc:359-397 | for every acceptable frame there is a run with any number of accepted packets up to the pool size |
| MbufHistory.RoundThrows | src/dpdkSource/dpdkSource.cc:359-397 | a single packet on which the thread throws ends the program |
| MbufHistory.OverDeliveryIff | src/dpdkSource/dpdkSource.cc:211-229 | in every reachable state a call for n samples may deliver more than n, with any steps of the other thread and the NIC meanwhile, exactly when the program runs and more than n / 366 packets are waiting |
| MbufHistory.DeliveredAtMost | src/dpdkSource/dpdkSource.cc:213-228 | between two calls the delivered samples grow by at most what was waiting and by at most the request and 366 more |
| MbufHistory.BurstPossibleIff | src/dpdkSource/dpdkSource.cc:213-361 | the thread can take up to 32 waiting packets, getSamples up to the one that completes its request, and no more |
| MbufHistory.ThreadHoldsOneBurst | src/dpdkSource/dpdkSource.cc:348-361 | in every run the thread holds at most 32 buffers |
| MbufHistory.TenSamplesOverDelivered | README.md:118-124 | a call for ten samples with one packet waiting may deliver more than ten |
| MbufHistory.TotalsOnLosslessStream | src/dpdkSource/dpdkSource.cc:366-372 | on a lossless stream the reported loss is determined by which arrivals the thread has read |
| MbufHistory.NoLossOnLosslessStreamIff | src/dpdkSource/dpdkSource.cc:355-372 | on a lossless stream of any length no loss is reported exactly when the thread started at number 0 or 1 and every stretch getSamples took touches the wrap-around or is invisible modulo 4096 |
| MbufHistory.StolenPacketsReportedLost | src/dpdkSource/dpdkSource.cc:216-372 | on a lossless stream within one epoch the reported loss is the packets getSamples took in between plus one per contiguous run of them; it is 0 exactly when it took none |
| MbufHistory.OneStolenReportedAsTwo | src/dpdkSource/dpdkSource.cc:216-372 | a concrete run: getSamples takes the second of three packets, the thread reports two lost |
| DumpText.HeaderTextIsHex | src/dpdkSource/dpdkSource.cc:305 | a header is written as the sixteen hexadecimal digits of its 64-bit word |
| DumpText.DigitAt | src/dpdkSource/dpdkSource.cc:305-310 | every digit of a number in zero-filled lower-case hexadecimal |
| DumpText.LineOf | src/dpdkSource/dpdkSource.cc:305-323 | a line is the digits of the header word, eight digits for every word in order, the line end |
| DumpText.ReadBackRender | src/dpdkSource/dpdkSource.cc:302-324 | a reader that takes 16 digits and then as many words as the decoded control field says recovers every list of records |
| DumpText.RenderInjective | src/dpdkSource/dpdkSource.cc:302-324 | different record lists have different texts |
| DumpThread.WordIsPayload | src/dpdkSource/dpdkSource.cc:290-296 | the queued words are the payload, four bytes each, least significant first |
| DumpThread.RecordOfPacket | src/dpdkSource/dpdkSource.cc:302-324 | a packet's own record: its header with its whole payload, ten words of it, or nothing, by its type |
| DumpThread.Push | src/dpdkSource/dpdkSource.cc:285-297 | a header and its 10 or 366 words are appended to their queues; it throws exactly for headers without a type |
| DumpThread.WriteWords | src/dpdkSource/dpdkSource.cc:308-312 | the first n words of a queue are written in order and popped |
| DumpThread.DrainKeepsListed | src/dpdkSource/dpdkSource.cc:302-324 | no queue is popped while it has too few words, and the popped words are the header's share |
| DumpThread.WriteRecord | src/dpdkSource/dpdkSource.cc:305-323 | one line is written: the header, its share of the queues, the line end; exactly that share is popped |
| DumpThread.Drain | src/dpdkSource/dpdkSource.cc:302-324 | the text is the queued headers in arrival order, each with its share of the queues; no header is left |
| DumpThread.DumpPacket | src/dpdkSource/dpdkSource.cc:263-329 | one packet is counted, queued, drained when the time is over, and freed |
| DumpThread.DumpBurst | src/dpdkSource/dpdkSource.cc:261-330 | the whole burst is finished even after a drain has set quit |
| DumpThread.DumpPoll | src/dpdkSource/dpdkSource.cc:257-330 | one poll takes a burst and dumps it; with all packets ready it takes 32 or empties the queue |
| DumpThread.DumpThread | src/dpdkSource/dpdkSource.cc:231-341 | the file after any run is the text of the last drain; every packet taken is counted and freed; the thread stops with the burst in which the limit was passed; an exception leaves its packet and fewer than 32 others unfreed |
| DumpThread.LeftAfterDrain | src/dpdkSource/dpdkSource.cc:288-321 | after a drain exactly 366 words per packet outside data and metadata are left in the payload queue, the other queues are empty |
| DumpThread.ReassemblyExactIff | src/dpdkSource/dpdkSource.cc:285-324 | every header gets its own words back exactly when each data packet has the words of the packet pushed as many places earlier as packets outside data and metadata precede it |
| DumpThread.ShiftUnseenIff | src/dpdkSource/dpdkSource.cc:285-324 | that is so when no such packet precedes a data packet, and with pairwise different payloads only then |
| DumpThread.FileOfRun | src/dpdkSource/dpdkSource.cc:299-327 | nothing is written before the limit, everything when it was passed at the last packet, only the last packet's line when others followed |
| DumpThread.FileCompleteIff | src/dpdkSource/dpdkSource.cc:299-327 | the file holds every packet of the run with its own words exactly when the limit was passed at the last packet and the condition of ReassemblyExactIff holds |
| DumpThread.DistinctFileCompleteIff | src/dpdkSource/dpdkSource.cc:299-327 | with pairwise different payloads the file is complete exactly when the limit was passed at the last packet and no packet outside data and metadata precedes a data packet |
| DumpThread.StrayFirstSpoilsFile | src/dpdkSource/dpdkSource.cc:285-324 | a concrete run: a flow-control packet before a data packet makes the file wrong |
| UdpSource.UdpSource.Recv | src/udpSource/udpSource.cc:77 | the front of the buffer is overwritten, what does not fit is dropped |
| UdpSource.UdpSource.ReceiveBlock | src/udpSource/udpSource.cc:77-99 | one datagram is read; an accepted one fills exactly its block, any other writes nothing, an undecodable header throws |
| UdpSource.UdpSource.GetSamples | src/udpSource/udpSource.cc:69-102 | exactly the blocks of the full-size data datagrams of the window are written, the count is 366 times their number and exceeds the request exactly when all datagrams of the full window are accepted; an undecodable header ends the call |
| UdpSource.CountDescribesWrittenIff | src/udpSource/udpSource.cc:71-101 | the written positions are the first count ones exactly when the accepted datagrams form a prefix of the window |
| UdpSource.ShortFirstLeavesHole | src/udpSource/udpSource.cc:79-100 | a short datagram before a data datagram: 366 samples are counted, but the first block is not written |
| Loopback.StreamFrameIff | src/dpdkSource/dpdkSource.cc:385-387 | the filter passes exactly the frames whose bytes are the Ethernet, IPv4 and UDP layout of a full-size datagram to the stream's port |
| Loopback.VerdictIff | src/dpdkSource/dpdkSource.cc:385-395 | for every frame: the thread rings exactly the full-size datagrams to the port that are data by their first four bits, throws exactly on those that are undecodable, frees every other frame |
| Loopback.TreatIff | src/udpSource/udpSource.cc:77-94 | for every datagram: accepted exactly when long enough and data by its first four bits, an exception exactly for undecodable ones |
| Loopback.DumpedDelivery | src/dpdkSource/dpdkSource.cc:283-296 | what the dump queues of a delivered packet: its first eight bytes, and words that hold two sent components each |
| Loopback.SampleDelivered | src/dpdkSource/dpdkSource.cc:221-223 | every sample of a delivered packet is decoded as the components sent, divided by the norm |
| Loopback.LoopbackDecoded | src/iqClient/iqClient.cc:266-273 | blocks sent one per packet and delivered in order are decoded as the samples, truncated and divided by the norm |
| Loopback.LoopbackIdentityIff | src/iqClient/iqClient.cc:266-273 | with norm 1 the way through the wire is the identity exactly on integer samples |
| Loopback.UdpIsShiftedByTwo | src/udpSource/udpSource.cc:96 | sample i + 2 of the socket path is sample i of the DPDK path, the first two come from the header, the last two are never delivered |
| Loopback.OwnPacketRead | src/udpTransmitter/hrzrUdpTransmitter.cc:56-63 | how the receive thread reads and treats the transmitter's packet with a given number |
| Loopback.OwnDatagramTreated | src/udpSource/udpSource.cc:83-94 | how the socket path treats the same packet |
| Loopback.OwnStreamEndsThread | src/dpdkSource/dpdkSource.cc:359-397 | fed with the transmitter's own stream the thread throws on packet 144 exactly, having reported 34560 lost |
| EndToEnd.SendAll | gtest/iqClient/iqClientTest.cc:239-240 | the sender's loop: the k-th block sent is carried by the k-th new datagram with the next number |
| EndToEnd.SendAndReceive | src/iqClient/iqClient.cc:261-273 | blocks go through SendPayload, any selection of the datagrams is framed and queued, any requests drain it: the result is the consumed blocks truncated and divided by the norm; with everything ready and enough requests everything is received; undisturbed and with norm 1 the identity exactly on integer samples |
| EndToEnd.OwnFrame | src/udpTransmitter/hrzrUdpTransmitter.cc:56-64 | every number of the transmitter has a frame that delivers its full-size packet |
| EndToEnd.OwnStreamThrows | src/dpdkSource/dpdkSource.cc:359-397 | the frames of the transmitter's first 145 packets are such a run of the receive thread |
| EndToEnd.OwnVerdicts | src/dpdkSource/dpdkSource.cc:385-395 | the thread accepts the transmitter's packet 0 and throws on packet 144 |
| EndToEnd.StandstillsHappen | src/dpdkSource/dpdkSource.cc:359-397 | every stream can reach a standstill with the program running, and, unless its pool is empty, the end of the program by the receive thread |
| IqClient.IqClient.Quantise | src/iqClient/iqClient.cc:267-271 | the components are the truncated samples, I before Q |
| IqClient.IqClient.SendPayload | src/iqClient/iqClient.cc:266-273 | one datagram is sent that carries exactly the truncated components of the block |
| IqClient.IqClient.SetPort | src/iqClient/iqClient.cc:49-54 | reading and writing the whole record changes the port alone, or nothing when rejected |
| IqClient.IqClient.SetDestinationAddress | src/iqClient/iqClient.cc:56-61 | the same for the address |
| IqClient.IqClient.SetProtocol | src/iqClient/iqClient.cc:63-71 | the same for the protocol; AMMOS is refused before any write |
| IqClient.IqClient.SetStreamingStatus | src/iqClient/iqClient.cc:73-80 | the same for the streaming flag |
| IqClient.IqClient.SetSatFrequencyHz | src/iqClient/iqClient.cc:82-91 | the same for the satellite frequency; the down frequency is kept |
| IqClient.IqClient.SetDownFrequencyHz | src/iqClient/iqClient.cc:93-102 | the same for the down frequency; the satellite frequency is kept |
| IqClient.IqClient.SetBandwidthByAnalysisBandwidth | src/iqClient/iqClient.cc:112-118 | the same for the analysis bandwidth |
| IqClient.IqClient.ConfigureRf | src/iqClient/iqClient.cc:205-215 | the three radio writes are attempted in order up to the first rejection |
| IqClient.IqClient.ConfigureUdp | src/iqClient/iqClient.cc:217-228 | the network writes are attempted in order up to the first rejection, then the protocol, whose answer is ignored |
| IqClient.IqClient.SetMSR4ByJson | src/iqClient/iqClient.cc:168-229 | the run performs a prefix of its plan, ended exactly by the first rejected checked write |
| IqClient.AfterMeans | src/iqClient/iqClient.cc:168-229 | a run of writes changes the selected channel by its accepted edits and no other channel |
| IqClient.DeviceAfter | src/iqClient/iqClient.cc:182-226 | all four channels after a run, told from the channel number and the device's answers: that channel has exactly the settings accepted before the first rejection, the others are unchanged |
| IqClient.NotCutShortIff | src/iqClient/iqClient.cc:202-226 | a run that selected a channel is not cut short exactly when its five checked writes are accepted |
| IqClient.RunCompleted | src/iqClient/iqClient.cc:202-226 | on normal return frequencies, bandwidth, port and address match the input, unrelated fields and other channels are kept, a stop request came first; protocol and streaming flag follow only if the device accepted them |
| IqClient.RefusedUnnoticed | src/iqClient/iqClient.cc:202-226 | for every HRZR configuration: a device that rejects only the protocol, and the stop if it was streaming, is left unchanged in both, and the run ends normally |

## Left out

- DPDK, socket and port set-up, link checks, `rte_exit`, `die` and the teardown after the polling loops: foreign calls.
- The 64-bit wrap-around of the two totals: they are unbounded integers here.
- Lost updates of the shared totals and of `quit` between threads: updates are atomic here.
- IEEE rounding of the division by the norm: exact reals here.
- Requests for a negative number of samples, more than 366 samples in `SendPayload` and components outside 16 bits: the
  C++ behaviour is undefined, so they are preconditions.
- IqClient.IqClient.SetBandwidthByAnalysisBandwidth: does not model the sample rate the device derives from the bandwidth.
- `GrpcClient`, tokens, `JsonParser` and failing remote calls: thin wrappers; the configuration starts from parsed values.
- `HrzrMetadataParser`, the address setters and the plain getters: single expressions.
- Console output.
