# ThinkOS/YARD-ICE core models in Dafny

This project models seven parts of the ThinkOS tree and proves what they keep over every input
and every run:

- the C library's heap allocator: a first-fit allocator whose hole list is threaded through the
  heap itself (`Tiles`, `Blocks`, `HoleList`, `Heap`, `HeapRuns`);
- the BACnet MS/TP master node: frames, and the token-passing state machine of clause 9.5.6 of
  ANSI/ASHRAE 135 as the program has it (`MstpFrame`, `Mstp`, `MstpSweep`, `MstpBudget`,
  `MstpLaws`, `MstpRing`, `MstpQueue`, `MstpNode`, `MstpRuns`);
- the BACnet point-to-point link: the byte-stuffing encoder, the incremental receiver, the
  retransmitting sender, and both ends joined by a lossy line (`PtpFrame`, `PtpReceiver`,
  `PtpSender`, `PtpLaws`, `PtpLoop`, `PtpTransfer`, `PtpDelivery`, `PtpLoss`, `PtpEmpty`,
  `PtpOverflow`);
- the packet capture ring shared by an interrupt and a thread (`Capture`, `CaptureCut`);
- the CRC engines (`Crc8`, `Crc16`, `Octets`, `Fold`);
- the HTTP header line reader (`HttpHeader`, `HttpOutcomes`);
- the query-string decoder and lookup (`Query`, `QueryEdges`).

Code that updates state in place is a class or an array method, proved against a function on
values; what the program promises is then proved about those functions, over whole runs. Steps
of different threads are separate actions of a run, so a statement about all runs is a statement
about all interleavings of those actions. Clocks, received octets, queued messages and the
moments at which other threads act are parameters chosen by the environment.

`dafny verify dfyconfig.toml` checks everything.

## Main results

- Heap. Any sequence of mallocs and frees leaves blocks and holes tiling the heap with no two
  holes touching; the holes are a function of the blocks in use alone, so freeing everything in
  any order leaves one hole; no call changes a word of a block it was not given; the words in the
  heap always encode exactly the abstract tiling. A request is refused if and only if no hole is
  large enough and the break has no room; the blocks in use are always exactly those whose
  pointers were returned and not freed since.
- MS/TP. In every run in which no received frame carries the node's own address, and nothing is
  queued under the label of a token for the node, the node never sends the token to itself; with
  queues that nobody labels, as in this tree, the second condition always holds at stations other
  than 0, and at station 0 the node sends itself a token exactly in the runs that send data. In
  every state any run reaches, whatever it heard, a chain of transitions ends within five passes,
  whatever is queued meanwhile, and the end of a sweep takes exactly five. A sweep polls each
  other address once, in order, and then makes the node sole master if its address is at most 31
  and never otherwise. After a message is queued another can ever be if and only if it is not
  empty and the station's address is not the broadcast address. Any sequence of receptions and
  offered messages given to the program's loop is one of these runs. Every token the node
  originates goes to the station whose reply to a poll it took last, and at most 49 are passed on
  between two polls.
- Point-to-point. Frames that fit the buffer, sent back to back and cut anywhere, are received as
  exactly those frames, with any silences between them and any noise that cannot be taken for a
  header; a silence inside a frame drops that frame and no other; and the link takes exactly their
  steps. A frame leaves the sender if and only if it is owed. With messages and acknowledgements
  lost at will on a line that keeps order, what reaches the peer less repetitions is what the
  sender took and did not give up, in order. A message given up is harmless if and only if no copy
  of it is under way and none has arrived. After an empty message another can ever be taken if and
  only if the empty one was sent, and then it is delivered and acknowledged like any other. After
  the line has lost everything a message can still be delivered if and only if it has a try left.
  A data frame outgrows the transmit buffer by at most two octets, and one does.
- Capture ring. In every interleaving a woken consumer finds a packet, packets come out in order
  as they were sealed, and a slot handed out stays intact until fifteen more are sealed after it.
  The cut into packets is the only one in which a packet begins exactly after a gap that is too
  long or a full packet.
- CRCs. Every table, nibble and bitwise engine computes the bit-serial register; every error burst
  of up to 16 bits is detected by the 16-bit check, and every single corrupted octet by both
  BACnet checks, at any message length.
- HTTP. Whatever the TCP segmentation, the lines handed to the field parser, the result and the
  octets left in the queue are a function of the octet stream; a header is read as complete,
  rejected, too long or ended if and only if its octets mean that.
- Query strings. After decoding any form encoding in place, every key leads to the address of the
  value of its first occurrence among the first 15 pairs if and only if each of those keys has at
  most 30 octets and each value that another of them follows at most 2046.

## Where the code differs from its comments or its standard

- `free` ignores every pointer unless the heap starts on an eight-byte boundary, which the linker
  scripts do not ask for (`Heap.FreeHonoured`).
- A request near 4 GiB wraps to a small block or moves the break backwards (`Heap.RequestCovered`,
  `Heap.BreakExact`).
- MS/TP data frames are sent without their data check and are received only if the receiver's
  buffer happens to hold it (`MstpFrame.DataFrameReceived`).
- The comment at the start of the MS/TP loop sets the token count to Npoll; the code sets it to 0.
- `bacnet_mstp_send` stores a message's data and length but no type or destination, and nothing
  else in the tree does: every queued message leaves as a token for station 0, which station 0
  sends to itself (`Mstp.UnlabelledAtZero`, `Mstp.StationZeroExactly`).
- The point-to-point transmit buffer is up to two octets short for data frames
  (`PtpOverflow.ExcessAtMostTwo`, `PtpOverflow.FloodOverflows`).
- A point-to-point message given up leaves its parity in use, so once a copy of it is under way a
  late acknowledgement releases the next message unheard (`PtpTransfer.LostAfterGivingUp`,
  `PtpLoss.GiveUpLosesExactly`).
- An empty point-to-point message uses up the flag that lets senders in and is never retransmitted
  or given up: unless its one copy and the acknowledgement get through, every later sender waits
  for ever (`PtpEmpty.EmptyExactly`). So does every sender after one that called before the link
  was connected (`PtpEmpty.EarlySendBlocks`).
- An empty MS/TP message is never sent, so every later sender waits for ever, although the queue
  is empty (`MstpQueue.EmptyMessageExactly`).
- The point-to-point loop takes a bad data check, which returns -1, for a timeout, and a 0 from
  the device for a heartbeat with XOFF (`PtpLoop.Turn`).
- The HTTP header reader returns what `tcp_recv` returned at the end of the stream; if that is 0
  the caller takes it for a complete header (`HttpHeader.Reader.ParseHeader`).
- The first packet of a capture is empty unless an octet comes within the maximal gap of the start
  (`CaptureCut.CutExactly`).
- A stray 0x55 before a point-to-point frame makes the receiver discard the frame's own first
  octet, and so the frame; any other stray octet is harmless (`PtpReceiver.StrayOnWire`).
- An escape in a query string is read wrong if its second digit is in lower case
  (`QueryEdges.EscapeExactly`). A field without an equals sign misleads the lookup of those after
  it unless it comes first, or starts just before a multiple of 2048 (`QueryEdges.FlagExactly`).
- A query key of 31 octets is stored with length 0, and longer ones wrap (`Query.LongKeyMisread`,
  `Query.LookupExactly`).

## Model

| member | source | states |
|---|---|---|
| Tiles.ExactlyOneTile | sdk/libc/malloc.c:205-406 | every chunk of the heap lies in exactly one block or hole |
| Tiles.RunKeepsLayout | sdk/libc/malloc.c:205-406 | after any sequence of mallocs and frees the tiles cover heap start to break without gap or overlap and no two holes touch |
| Tiles.ReleaseUndoesTake | sdk/libc/malloc.c:343-397 | freeing at once what a hole served restores the holes exactly, split or absorbed |
| Tiles.Canonical | sdk/libc/malloc.c:336-397 | two coalesced layouts with the same blocks in use have the same holes |
| Tiles.EverythingFreed | sdk/libc/malloc.c:336-397 | when everything is free, after any history, there is one hole over the whole heap, or nothing if the break never moved |
| Tiles.HistoryForgotten | sdk/libc/malloc.c:336-397 | histories that end with the same blocks in use and break end in the same state |
| Tiles.LiveStays | sdk/libc/malloc.c:232-397 | no operation but its own release moves, resizes or drops a block in use |
| Tiles.LiveUntilFreed | sdk/libc/malloc.c:232-397 | a block stays where it is through any history that does not free it |
| Tiles.Granted | sdk/libc/malloc.c:232-299 | a granted request gets a block inside the heap, of its size or one chunk more, disjoint from every block in use |
| Blocks.MallocBlocks | sdk/libc/malloc.c:205-300 | a request is refused exactly when no hole is adequate and the break has no room; otherwise exactly the block due to it joins those in use, and the break moves only if no hole was adequate |
| Blocks.FreeBlocks | sdk/libc/malloc.c:336-397 | a release takes exactly its block from those in use, and the block's chunks end up in one hole |
| Blocks.MallocDetermined | sdk/libc/malloc.c:205-300 | no other tiling without touching holes meets that description of a request |
| Blocks.FreeDetermined | sdk/libc/malloc.c:336-397 | nor of a release |
| HoleList.ReplacedStored | sdk/libc/malloc.c:239-271 | if the hole before a replaced run of tiles and the new tiles hold the right words, the whole list in memory is that of the new tiles |
| HoleList.WholeTaken | sdk/libc/malloc.c:239-250 | linking past a hole taken whole gives the list of the remaining holes and changes no other block's words |
| HoleList.Split | sdk/libc/malloc.c:252-271 | the words written by a split give the list with the remainder in the hole's place, in every list position |
| HoleList.Released | sdk/libc/malloc.c:336-397 | the words written by a release give the list with the block merged with its free neighbours |
| HoleList.PayloadWriteStored | sdk/libc/malloc.c:66-77 | a caller writing any word of its own payload leaves the hole list as it is |
| Heap.RequestCovered | sdk/libc/malloc.c:117-120 | the chunks computed hold the request if and only if it is at most 0xfffffff4 bytes, and are then the fewest that do |
| Heap.BreakExact | sdk/libc/malloc.c:151-176 | `sbrk` accepts exactly the growths that fit if and only if the growth does not wrap past the heap start |
| Heap.FreeHonoured | sdk/libc/malloc.c:106-110 | a block's address passes the alignment test of `free` if and only if the heap starts on a chunk boundary |
| Heap.PayloadIsolated | sdk/libc/malloc.c:205-300 | a pointer given out has the requested bytes behind it inside the heap, disjoint from every block in use with its header |
| Heap.Allocator.constructor | sdk/libc/malloc.c:149-188 | an empty heap: no holes, break at the heap start |
| Heap.Allocator.Sbrk | sdk/libc/malloc.c:151-176 | returns the old break, and accepts exactly the growths that fit below the heap end if and only if the growth does not wrap past 2^32 |
| Heap.Allocator.Find | sdk/libc/malloc.c:231-299 | the list walk finds the lowest hole that is large enough, and the hole before it |
| Heap.Allocator.ServeWhole | sdk/libc/malloc.c:239-250 | a hole that leaves less than two chunks is handed over whole |
| Heap.Allocator.ServeSplit | sdk/libc/malloc.c:252-275 | a larger hole is split and its remainder stays in the list |
| Heap.Allocator.Malloc | sdk/libc/malloc.c:205-300 | for a request of more than zero bytes, null if and only if no hole is large enough and the break has no room, and then nothing changes; otherwise the lowest adequate hole, or else the break, gives a block that joins those in use, alone; no word of a block in use changes; the words still encode the new tiling |
| Heap.Allocator.FindPrev | sdk/libc/malloc.c:343-348 | the walk ends at the last hole before the freed block |
| Heap.Allocator.JoinPrev | sdk/libc/malloc.c:352-369 | the freed block is joined with a hole that touches it or linked after one that does not |
| Heap.Allocator.JoinNext | sdk/libc/malloc.c:381-397 | the freed hole is joined with the next hole if they touch or linked to it |
| Heap.Allocator.Free | sdk/libc/malloc.c:302-406 | a misaligned pointer, such as null, changes nothing; otherwise the block, and it alone, leaves those in use, its chunks lie in one hole, the words encode the new tiling, and no other block's words change |
| Heap.Allocator.Store | sdk/libc/malloc.c:66-77 | a caller's write into its payload keeps the allocator's invariant |
| HeapRuns.Perform | sdk/libc/malloc.c:205-406 | one call on the real heap is one operation on the tiles, returns what the tiles give, keeps the words of every block it does not free, and leaves in use exactly the blocks the caller owns |
| HeapRuns.PerformAll | sdk/libc/malloc.c:205-406 | for every history of legal calls the real heap follows the tiles, returns their pointers, every block in use that is not freed keeps all its words, and the blocks in use are exactly those owned: returned, and not freed since |
| HeapRuns.OwnedInUse | sdk/libc/malloc.c:205-406 | over every legal history the blocks in use are those whose pointers were returned and not freed since, each large enough and at most one chunk larger |
| HeapRuns.MayFreeExactly | sdk/libc/malloc.c:302-334 | a pointer may be freed if and only if it is misaligned, and ignored, or owned |
| HeapRuns.Lifetime | sdk/libc/malloc.c:205-406 | from a new heap, once every returned pointer has been freed one hole covers all the heap ever grew to |
| Crc16.ByteTableStepIsSerial | sdk/libcrc/crc16tbl8.c:48-53 | one step with the 256-entry table is eight steps of the reflected x^16+x^12+x^5+1 register |
| Crc16.NibbleTableStepIsSerial | sdk/libcrc/crc16tbl4.c:19-24 | so is one step with the two nibble tables |
| Crc16.BitwiseStepIsSerial | sdk/libcrc/crc16bwe.c:15-21 | and one step of the shift-and-xor expression, on the 32-bit variable that holds the state |
| Crc16.Crc16Bytes | sdk/libcrc/crc16tbl8.c:43-54 | the table engine computes the bit-serial check of any message |
| Crc16.Crc16Nibbles | sdk/libcrc/crc16tbl4.c:8-26 | the nibble engine computes the same check |
| Crc16.Crc16Bitwise | sdk/libcrc/crc16bwe.c:8-24 | the bitwise engine computes the same check |
| Crc16.BacnetCrc16 | sdk/libbacnet/bacnet_crc.c:109-118 | the BACnet data CRC is the bit-serial remainder from any start value |
| Crc16.OneOctetDetected | sdk/libbacnet/bacnet_crc.c:109-118 | changing one octet of a message of any length changes the remainder |
| Crc16.RemainderLinear | sdk/libbacnet/bacnet_crc.c:109-118 | the remainder of a sum is the sum of the remainders |
| Crc16.BurstDetected | sdk/libcrc/crc16tbl8.c:43-54 | every non-zero error pattern confined to 16 consecutive bits changes the remainder, wherever it falls in a message of any length |
| Crc16.GoodFcsResidue | sdk/libcrc/crc16tbl8.c:43-54 | a message followed by its own check leaves the constant remainder 0xf0b8 of appendix C of RFC 1662 |
| Crc8.BacnetCrc8 | sdk/libbacnet/bacnet_crc.c:63-72 | the BACnet header CRC is the bit-serial remainder from any start value |
| Crc8.OneOctetDetected | sdk/libbacnet/bacnet_crc.c:63-72 | changing one octet of a message of any length changes the remainder |
| Crc8.Crc8Bytes | sdk/libcrc/crc8tbl8.c:43-55 | the table engine computes the bit-serial 8-bit check |
| Crc8.Crc8Nibbles | sdk/libcrc/crc8tbl4.c:8-29 | the nibble engine computes the same check |
| Crc8.Crc8Bitwise | sdk/libcrc/crc8bwe.c:8-30 | the bitwise expression computes the same check |
| Crc8.GoodHeaderResidue | sdk/libbacnet/bacnet_crc.c:63-72 | octets followed by the complement of their check always leave 0x55, the receiver test of Annex G of ANSI/ASHRAE 135 |
| Crc8.GoodCheckResidue | sdk/libcrc/crc8tbl8.c:43-55 | a message followed by its own libcrc check always leaves 0xcf |
| Octets.OneOctetChangesChecks | sdk/libbacnet/bacnet_mstp.c:265-288 | one corrupted octet changes both the header and the data check of any buffer |
| PtpFrame.DestuffStuff | sdk/libbacnet/bacnet_ptp.c:532-569 | destuffing undoes the DLE stuffing of any octets |
| PtpFrame.DestuffAppend | sdk/libbacnet/bacnet_ptp.c:330-347 | destuffing can stop and resume anywhere, even inside an escape |
| PtpFrame.NoFlowControlOnWire | sdk/libbacnet/bacnet_ptp.c:532-569 | neither XON nor XOFF appears in stuffed octets |
| PtpFrame.FitsTransmitBuffer | sdk/libbacnet/bacnet_ptp.c:516 | a frame fits the transmit buffer if and only if it holds few enough control octets |
| PtpFrame.PlainOctets | sdk/libbacnet/bacnet_ptp.c:526-569 | the octets of a frame in plain numbers: preamble, type, length high octet first, data, check low octet first |
| PtpFrame.PlainResidues | sdk/libbacnet/bacnet_ptp.c:526-569 | header and data of every frame pass the receiver tests of Annex G: 0x55 and 0xf0b8 |
| PtpOverflow.DataHeaderControls | sdk/libbacnet/bacnet_ptp.c:526-541 | at most one octet of a data frame's header is a control octet: never both the length and the header check |
| PtpOverflow.ExcessAtMostTwo | sdk/libbacnet/bacnet_ptp.c:512-570 | a data frame exceeds the transmit buffer by at most two octets |
| PtpOverflow.FloodOverflows | sdk/libbacnet/bacnet_ptp.c:512-570 | a message of sixteen control octets exceeds it by two |
| PtpFrame.FrameSend | sdk/libbacnet/bacnet_ptp.c:512-570 | the octets sent are the stuffed header, data and check of the frame |
| PtpReceiver.Receiver.DestuffInPlace | sdk/libbacnet/bacnet_ptp.c:330-347 | destuffing within the buffer gives what destuffing on values gives, with the escape carried over |
| PtpReceiver.Receiver.FrameRecv | sdk/libbacnet/bacnet_ptp.c:293-510 | for every stream and cut: the frame returned is the one at the first good header the search comes to, if it is whole, fits and has a good data check, and parsing resumes right behind it; otherwise nothing is carried over and the code is -1 for a bad data check, else the device's; a silence inside a header or a frame that fits drops what came before it |
| PtpReceiver.NextFrameSound | sdk/libbacnet/bacnet_ptp.c:352-446 | what is recognised as a frame is exactly the octets in front |
| PtpReceiver.NextFrameComplete | sdk/libbacnet/bacnet_ptp.c:352-446 | a sent frame that fits the buffer is recognised whatever follows |
| PtpReceiver.SameFirst | sdk/libbacnet/bacnet_ptp.c:293-510 | the first frame of a stream can be told apart in one way only |
| PtpReceiver.NoiseSkipped | sdk/libbacnet/bacnet_ptp.c:352-374 | octets that cannot begin a header are discarded one by one and the search goes on as if they had not been there |
| PtpReceiver.StrayOctet | sdk/libbacnet/bacnet_ptp.c:352-374 | the search comes to a frame right after one stray octet if and only if the octet is not 0x55 |
| PtpReceiver.StrayOnWire | sdk/libbacnet/bacnet_ptp.c:330-374 | the same on the wire, where a stray DLE is used up by the frame's first octet |
| PtpReceiver.BrokenOffIncomplete | sdk/libbacnet/bacnet_ptp.c:311-450 | a frame broken off anywhere, even inside an escape, destuffs to an incomplete header or an incomplete frame, never to a whole one |
| PtpReceiver.ReceiveAll | sdk/libbacnet/bacnet_ptp.c:293-510 | frames sent with any noise between them that cannot begin a header or an escape, cut into arbitrary pieces, are returned exactly, in order, none lost, doubled or merged; the silence after them, even inside a further frame, leaves a receiver that carries nothing over |
| PtpReceiver.ReceiveBursts | sdk/libbacnet/bacnet_ptp.c:293-510 | with any silences, over any sequence of such bursts exactly the whole frames are returned, in order |
| PtpSender.StepEffect | sdk/libbacnet/bacnet_ptp.c:740-873 | every data frame of a step carries the outstanding octets and the current parity; only a matching XON acknowledgement moves the sequence number |
| PtpSender.DataFrames | sdk/libbacnet/bacnet_ptp.c:775-852 | in every run every data frame carries the octets last accepted, or none, and the parity of the acknowledgements so far, although the counter wraps |
| PtpSender.SequenceCounts | sdk/libbacnet/bacnet_ptp.c:775-789 | the sequence number is the number of matching acknowledgements, modulo 2^32 |
| PtpSender.RepeatedAckIgnored | sdk/libbacnet/bacnet_ptp.c:775-789 | a repeated acknowledgement releases nothing and sends nothing |
| PtpSender.ResendsBounded | sdk/libbacnet/bacnet_ptp.c:833-852 | along every run the timer retransmissions left before release are bounded by the retries left |
| PtpSender.AtMostTwo | sdk/libbacnet/bacnet_ptp.c:833-852 | a message just taken is retransmitted by the timer at most twice |
| PtpSender.Sender.Loop | sdk/libbacnet/bacnet_ptp.c:671-873 | one turn of the connected loop, on the link's fields and the code the receiver returned, is the specified step; -1 is the timeout whatever caused it |
| PtpSender.Sender.Send | sdk/libbacnet/bacnet_ptp.c:934-975 | a message is taken exactly with the flag, connected and none outstanding, and sent at once if the peer is ready; a send before the link is connected is refused and uses up the flag; without the flag the sender waits |
| PtpSender.NothingTakenWithoutFlag | sdk/libbacnet/bacnet_ptp.c:939-951 | once the flag is gone, no run takes a message before a matching acknowledgement or a give-up |
| PtpLaws.FramesExactly | sdk/libbacnet/bacnet_ptp.c:740-975 | a frame leaves if and only if it is owed: data when taken with XON, overdue with XON and tries left, or asked for by a NAK of its parity; acknowledgements, responses, the disconnect request and the heartbeat each for its one cause |
| PtpLaws.FieldsExactly | sdk/libbacnet/bacnet_ptp.c:740-975 | which step changes which field: only heartbeats the peer's readiness, a message outstanding from its taking to its acknowledgement or third overdue silence, and the timers |
| PtpLaws.TimerExact | sdk/libbacnet/bacnet_ptp.c:835-866 | a timer set for some ticks has run out later if and only if more have passed, over a wrap of the clock too |
| PtpLaws.ResendsExactly | sdk/libbacnet/bacnet_ptp.c:833-852 | in every run with a ready peer the timer resends a message exactly as often as it is overdue, up to the tries left |
| PtpLaws.XoffHolds | sdk/libbacnet/bacnet_ptp.c:742-753 | in every run in which the peer neither gets ready nor asks again, no data leave |
| PtpLaws.NeverMute | sdk/libbacnet/bacnet_ptp.c:866-871 | a silence more than 15 seconds after the last frame sends one |
| PtpLoop.Turn | sdk/libbacnet/bacnet_ptp.c:671-873 | a turn of the loop takes the step of the next frame on the line; of a silence for a bad data check or a timeout; of XOFF for a device that returns 0 |
| PtpLoop.RunBurst | sdk/libbacnet/bacnet_ptp.c:671-873 | over any burst, however it is cut, the link takes exactly the steps of the frames in it, in order, then that of a silence, and none once disconnected |
| PtpDelivery.DeliverableExactly | sdk/libbacnet/bacnet_ptp.c:775-852 | from any connected state, once everything under way is lost, the outstanding message can still be delivered and acknowledged if and only if it has been overdue fewer than two times |
| PtpDelivery.DeliveredAfterLoss | sdk/libbacnet/bacnet_ptp.c:775-852 | a continuation that first loses everything and then delivers it |
| PtpTransfer.AckForIsSent | sdk/libbacnet/bacnet_ptp.c:756-768 | the receiving loop acknowledges every data frame with its own parity |
| PtpTransfer.InOrderDelivery | sdk/libbacnet/bacnet_ptp.c:740-975 | in every run whose give-ups are harmless, over a line that may lose anything but keeps order, what reached the peer less repetitions is what the sender took and did not give up, except perhaps the last, and every acknowledged message is among it |
| PtpTransfer.LostAfterGivingUp | sdk/libbacnet/bacnet_ptp.c:847-851 | a run in which a message counts as acknowledged although only the one given up before it arrived |
| PtpTransfer.NextWaitsForEmpty | sdk/libbacnet/bacnet_ptp.c:939-975 | a run in which a message offered while an empty one is outstanding waits, and the empty one is delivered and acknowledged in its own right |
| PtpLoss.GiveUpExactly | sdk/libbacnet/bacnet_ptp.c:833-852 | in any state a harmless run reaches, a give-up keeps every continuation in order if and only if no copy of the message is under way and none has arrived |
| PtpLoss.GiveUpLosesExactly | sdk/libbacnet/bacnet_ptp.c:775-852 | a give-up lets no later message be acknowledged without a peer that drops repetitions having it, if and only if no copy is under way or has arrived, or the link goes down |
| PtpLoss.LosesNext | sdk/libbacnet/bacnet_ptp.c:775-789 | from any connected state with the flag free whose parity is still in use, a run in which the next message is acknowledged and yet taken for a repetition |
| PtpEmpty.StuckForEver | sdk/libbacnet/bacnet_ptp.c:939-951 | with the flag gone, no octets outstanding and nothing of the current parity under way, no continuation of any length takes a message |
| PtpEmpty.GoesOnExactly | sdk/libbacnet/bacnet_ptp.c:775-951 | a connected sender without the flag and with no octets outstanding can take another message if and only if a copy or an acknowledgement of the current parity is under way |
| PtpEmpty.EmptyExactly | sdk/libbacnet/bacnet_ptp.c:934-975 | in any state a harmless run reaches, after an empty message some continuation takes a later one if and only if the empty one was sent |
| PtpEmpty.EarlySendBlocks | sdk/libbacnet/bacnet_ptp.c:939-946 | after a send that came before the link was connected, the connected link takes nothing in any run |
| MstpFrame.AcceptedExactly | sdk/libbacnet/bacnet_mstp.c:242-290 | a frame is accepted if and only if the buffer starts with that frame and its checks |
| MstpFrame.QuickFrameReceived | sdk/libbacnet/bacnet_mstp.c:242-324 | what a frame without data sends is received as that frame, whatever the buffer held |
| MstpFrame.DataFrameReceived | sdk/libbacnet/bacnet_mstp.c:371-386 | what a data frame sends is received as that frame if the next two octets of the receiver's buffer are the unsent check, and rejected otherwise |
| MstpFrame.DataFrameLost | sdk/libbacnet/bacnet_mstp.c:371-386 | for every data frame there is a buffer that rejects it |
| MstpFrame.SentOctets | sdk/libbacnet/bacnet_mstp.c:347-386 | the octets sent in plain numbers: preamble, type, destination, source, length high octet first, data |
| MstpFrame.WholeResidues | sdk/libbacnet/bacnet_mstp.c:347-386 | header, and data with the check that is not sent, pass the receiver tests of Annex G: 0x55 and 0xf0b8 |
| MstpFrame.CorruptionNoticed | sdk/libbacnet/bacnet_mstp.c:252-288 | one corrupted octet of an otherwise valid buffer gives a sync, header or data error according to where it is |
| MstpFrame.Link.constructor | sdk/libbacnet/bacnet_mstp.c:537-544 | the quick header is prepared |
| MstpFrame.Link.FrameSend | sdk/libbacnet/bacnet_mstp.c:347-416 | header and data are sent; the whole frame with its check is in the buffer |
| MstpFrame.Link.FastSend | sdk/libbacnet/bacnet_mstp.c:418-461 | in every state the prepared header sends the octets the general sender would |
| MstpFrame.Link.FrameRecv | sdk/libbacnet/bacnet_mstp.c:242-324 | what arrived overlays the buffer, which is read from its start; the octet count is left alone by a silence |
| Mstp.PassSound | sdk/libbacnet/bacnet_mstp.c:603-1013 | every pass through the switch keeps the frame budget and, unless the node answers itself, the address invariants; it shortens the chain, empties the queue and gives the flag back exactly when it sends with the token, sends data under the queue's label, and declares a sole master only after a full sweep |
| Mstp.SelfTokenExactly | sdk/libbacnet/bacnet_mstp.c:778-964 | a pass sends this node a token if and only if it answers itself in POLL_FOR_MASTER or such a message was queued |
| Mstp.NeverTokenToItself | sdk/libbacnet/bacnet_mstp.c:570-1013 | in every run in which no received frame carries the node's own address and no message is taken into the queue under the label of a token for it, the node never sends the token to itself and the invariants hold |
| Mstp.InitialSafe | sdk/libbacnet/bacnet_mstp.c:523-535 | the start state satisfies them |
| Mstp.OwnAddressHeard | sdk/libbacnet/bacnet_mstp.c:925-945 | a run from the start in which a reply with the node's own address makes it send itself the token |
| Mstp.OtherStationsSafe | sdk/libbacnet/bacnet_mstp.c:1066-1068 | with queues that nobody labels, at any station but 0 no queued message makes the node send itself a token |
| Mstp.StationZeroExactly | sdk/libbacnet/bacnet_mstp.c:677-694 | at station 0 such a run sends the node a token if and only if it sends any data |
| Mstp.UnlabelledAtZero | sdk/libbacnet/bacnet_mstp.c:677-694 | a run in which station 0 queues an octet, is passed the token by station 5 and sends itself a token |
| Mstp.RankDrops | sdk/libbacnet/bacnet_mstp.c:603-1013 | every pass lowers the bound on the passes to come, from any state |
| Mstp.ChainEnds | sdk/libbacnet/bacnet_mstp.c:603-1013 | five passes end every chain that starts within the frame budget and six any chain, whatever is queued between them |
| Mstp.RunBudgeted | sdk/libbacnet/bacnet_mstp.c:603-1013 | every run keeps the frame budget, whatever it hears or queues |
| Mstp.ReachableChainEnds | sdk/libbacnet/bacnet_mstp.c:603-1013 | in every state any run from the start reaches, five passes end the chain |
| Mstp.ChainIsRun | sdk/libbacnet/bacnet_mstp.c:603-1013 | an undisturbed chain is one of the runs |
| MstpLaws.PassLawful | sdk/libbacnet/bacnet_mstp.c:603-1013 | of every pass, by message and by field: a token, poll, reply, postponement or data frame leaves if and only if its cause is there, and to whom; which causes move the next and poll stations, the counters, the flags and the state, and when the switch is passed again |
| MstpLaws.HeardExactly | sdk/libbacnet/bacnet_mstp.c:579-601 | what a reception leaves for the switch, with the octets it counts |
| MstpLaws.TimerExact | sdk/libbacnet/bacnet_mstp.c:463 | the silence timer counts the ticks since the line was last busy, over a wrap of the clock too |
| MstpRing.TokenToSuccessor | sdk/libbacnet/bacnet_mstp.c:603-1013 | in every run every token the node originates goes under its own address to the station whose reply to a poll it took last, and none before the first reply |
| MstpRing.HolderPassesOn | sdk/libbacnet/bacnet_mstp.c:772-846 | a node done with the token that knows its successor sends it the token, or every fiftieth time a poll |
| MstpRing.LooksForMasters | sdk/libbacnet/bacnet_mstp.c:790-846 | in every run at most 49 tokens are passed on between two polls |
| MstpRing.TriedTwice | sdk/libbacnet/bacnet_mstp.c:850-885 | while it waits for the successor to use the token, the node sends it again at most once |
| MstpRing.GivesUpSuccessor | sdk/libbacnet/bacnet_mstp.c:850-885 | then it forgets the station and polls the address after it |
| MstpRing.PollAnswered | sdk/libbacnet/bacnet_mstp.c:579-644 | a listening node answers a poll for it, or for all, at once and goes on listening |
| MstpRing.ReplyAccepted | sdk/libbacnet/bacnet_mstp.c:924-940 | a polling node passes the token to the station that answers and makes it its successor |
| MstpRing.TokenUsed | sdk/libbacnet/bacnet_mstp.c:623-720 | a node passed the token sends what is queued |
| MstpRing.TokenPassedOn | sdk/libbacnet/bacnet_mstp.c:623-846 | with nothing queued it passes the token straight on |
| MstpSweep.SweepStarts | sdk/libbacnet/bacnet_mstp.c:895-909 | generating the token starts a sweep with the first poll |
| MstpSweep.SweepRun | sdk/libbacnet/bacnet_mstp.c:946-983 | without a valid frame each expired wait sends the next poll, in order, until all 31 places are polled, and the next one makes the node sole master |
| MstpSweep.PlacesAreOthers | sdk/libbacnet/bacnet_mstp.c:946-983 | the 31 places are the other addresses, each once |
| MstpSweep.NeverSole | sdk/libbacnet/bacnet_mstp.c:962-981 | a node with an address above 31 never becomes sole master, in any run |
| MstpSweep.FiveVisits | sdk/libbacnet/bacnet_mstp.c:603-1013 | the event that ends a sweep takes exactly five passes when nothing is queued |
| MstpBudget.WithinAllowance | sdk/libbacnet/bacnet_mstp.c:677-849 | along every run that holds on to the token the data frames sent stay within the allowance |
| MstpBudget.ReceivedTokenBudget | sdk/libbacnet/bacnet_mstp.c:628-849 | in every run from the start, after a received token at most one data frame leaves before a token or poll goes out or the node falls back to IDLE |
| MstpBudget.SoleMasterBudget | sdk/libbacnet/bacnet_mstp.c:790-805 | in every run from the start a sole master sends at most two between polls |
| MstpNode.Node.Transition | sdk/libbacnet/bacnet_mstp.c:603-1013 | one pass through the switch, statement by statement, is the specified pass |
| MstpNode.Node.Note | sdk/libbacnet/bacnet_mstp.c:579-601 | a reception updates flags, addresses, octet count and silence timer as specified |
| MstpNode.Node.Handle | sdk/libbacnet/bacnet_mstp.c:570-1015 | the loop after one reception is the specified chain and takes at most five passes, after which the node waits again |
| MstpNode.Node.Enqueue | sdk/libbacnet/bacnet_mstp.c:1048-1071 | a message is taken exactly when the flag is free and there is room; only the flag and the length change |
| MstpQueue.BlockedForEver | sdk/libbacnet/bacnet_mstp.c:1048-1071 | with the flag gone and nothing queued, no run queues or sends data again |
| MstpQueue.RunTidy | sdk/libbacnet/bacnet_mstp.c:691-692 | in every run the flag is free only with nothing queued |
| MstpQueue.FlagComesBack | sdk/libbacnet/bacnet_mstp.c:603-1013 | from every state a node can wait in, with something queued, at any address but the broadcast address, some continuation sends it and gives the flag back |
| MstpQueue.QueueGoesOnExactly | sdk/libbacnet/bacnet_mstp.c:603-1071 | in every state within the frame budget, at any address but the broadcast address, the flag can come back if and only if it is free or something is queued |
| MstpQueue.OutsideForEver | sdk/libbacnet/bacnet_mstp.c:628-644 | a station with the broadcast address never holds the token, in any run |
| MstpQueue.EmptyMessageExactly | sdk/libbacnet/bacnet_mstp.c:677-1071 | in every run, after a message is taken another can be if and only if it is not empty and the station's address is not the broadcast address |
| MstpRuns.PlayedIsRun | sdk/libbacnet/bacnet_mstp.c:570-1071 | any sequence of receptions and offered messages is a run whose outside actions are exactly those, in order |
| MstpRuns.PerformAll | sdk/libbacnet/bacnet_mstp.c:570-1071 | given to the node one after the other, they leave it in the state of that run, having sent what the run sends |
| MstpRuns.InUseSafe | sdk/libbacnet/bacnet_mstp.c:570-1071 | so a node at any station but 0, hearing only others, never sends itself the token, whatever is offered |
| Capture.CaptureSafe | board/u2s-485/serial.c:91-157 | in every interleaving at most 15 packets wait, a woken consumer never finds the ring empty, and the packets handed out are the first ones sealed, in order, unchanged, with rising numbers |
| Capture.HandedOutIntact | board/u2s-485/serial.c:99-121 | a packet handed out keeps its slot untouched until fifteen more have been sealed after it |
| Capture.NextHandedOut | board/u2s-485/serial.c:134-157 | one round of the consumer hands out the next packet sealed |
| Capture.AllHandedOut | board/u2s-485/serial.c:134-157 | from every reachable state with the consumer at rest, the consumer alone hands out every packet sealed so far |
| Capture.LostExactly | board/u2s-485/serial.c:102-117 | a packet is lost if and only if it ends while fifteen others wait |
| Capture.CutIndependent | board/u2s-485/serial.c:91-121 | whatever the consumer does, the packets finished are those of the octets alone |
| Capture.CutConserves | board/u2s-485/serial.c:91-121 | the cut into packets neither loses nor repeats an octet and no packet exceeds 256 |
| CaptureCut.CutExactly | board/u2s-485/serial.c:91-121 | octets begin packets in the driver if and only if no packet exceeds 256 octets, one begins only after a gap that is too long or a full packet, and wherever there was such a gap; the packets have those octets, are numbered in order and stamped with the time their first octet began |
| CaptureCut.WithinPacket | board/u2s-485/serial.c:99-121 | inside a packet neighbouring octets are at most the maximal gap apart |
| CaptureCut.CapturedPackets | board/u2s-485/serial.c:91-157 | in every interleaving the packets handed out are, in order, packets of that one cut of the octets heard |
| Capture.Driver.constructor | board/u2s-485/serial.c:210-223 | the start state of the ring |
| Capture.Driver.Isr | board/u2s-485/serial.c:82-121 | the interrupt, on the driver's fields, is the specified step |
| Capture.Driver.PacketRecv | board/u2s-485/serial.c:134-157 | the consumer is its three steps, and returns the packet at the tail when one is waiting |
| HttpHeader.CompleteExactly | sdk/libhttpd/http.c:226-343 | octets are read as given lines with a given rest if and only if they are those lines, plain and accepted, each with CR LF, an empty line, and the rest |
| HttpHeader.WrittenReads | sdk/libhttpd/http.c:226-343 | acceptable lines written out read back as themselves |
| HttpHeader.ReadsOnlyWritten | sdk/libhttpd/http.c:226-343 | nothing else is read as a complete header |
| HttpOutcomes.OutcomeExactly | sdk/libhttpd/http.c:226-343 | octets are read with a given outcome, complete, rejected, too long or ended, if and only if they mean that |
| HttpOutcomes.ReadHeader | sdk/libhttpd/http.c:226-343 | for every segmentation the lines handed over, the code and what is left are those of the one outcome the octets mean |
| HttpHeader.Reader.Scan | sdk/libhttpd/http.c:250-258 | the search finds the first CR LF of the line and misses none across receptions |
| HttpHeader.Reader.HandLine | sdk/libhttpd/http.c:256-302 | a line is handed over whole and the rest of the window kept, or the empty line ends the header with the rest moved to the front |
| HttpHeader.Reader.Refill | sdk/libhttpd/http.c:306-339 | compaction and reception keep the octets of the window and append what arrived |
| HttpHeader.Reader.ParseHeader | sdk/libhttpd/http.c:226-343 | for every segmentation the lines, the result and the queue are those the octet stream means, including overflow, rejection and end of stream |
| Query.Translate | sdk/libhttpd/post.c:70-106 | one character in place does what it does on values, and touches nothing past the read index |
| Query.DecodeQuery | sdk/libhttpd/post.c:56-120 | decoding in place gives the decoded octets, a NUL and the index of lengths, and leaves the rest |
| Query.DecodesForm | sdk/libhttpd/post.c:56-120 | decoding a form gives its keys and values back with the lengths of as many pairs as the index holds |
| Query.Lookup | sdk/libhttpd/post.c:122-144 | the walk over the index finds the first matching key |
| Query.LookupUndoesEncoding | sdk/libhttpd/post.c:56-144 | after decoding an encoded form whose lengths fit, a key's lookup gives the value of its first occurrence among the first 15 pairs, or nothing |
| Query.LookupExactly | sdk/libhttpd/post.c:56-144 | every key leads to the address of the value of its first occurrence among the first 15 pairs, or to none, if and only if every recorded key has at most 30 octets and every value that another recorded pair follows at most 2046 |
| QueryEdges.EscapeExactly | sdk/libhttpd/post.c:17-79 | an escape is read right if and only if its second digit is not in lower case |
| QueryEdges.HashesDropped | sdk/libhttpd/post.c:98-100 | a number sign disappears and decoding goes on |
| QueryEdges.FlagExactly | sdk/libhttpd/post.c:82-93 | the lengths recorded for a field without an equals sign lead on to the next field if and only if it starts within the 32 octets up to a multiple of 2048, as at the start of the string, and is not too long; otherwise by how much they miss |
| QueryEdges.LeadingFlag | sdk/libhttpd/post.c:56-144 | after a first field without an equals sign every key of the form behind it is found as before, and the field leads to its own name |
| Query.Misled | sdk/libhttpd/httpd-i.h:69-72 | lengths that do not fit mislead the lookup of some key: the first key too long, or the rest of the first value too long |
| Query.LongKeyMisread | sdk/libhttpd/httpd-i.h:69-72 | the lookup of a single pair's key gives the address of its value if and only if the key has at most 30 octets; 31 gives the key itself |

## Left out

- Heap.Allocator.Malloc: requires a chunk count that does not wrap to zero and a growth that does not wrap past 2^32; outside these the code overwrites the list, and RequestCovered and BreakExact say exactly where that starts.
- Heap.Allocator.Free: requires an aligned pointer to be that of a block in use, as the code checks nothing more than a non-zero size.
- Query.Lookup: requires memory as far as the recorded lengths reach, since the code does not check them; after decoding an encoded form that always holds.
- MstpNode.Node.Handle: the octet event counter is unbounded, so its 32-bit overflow after 2^31 octets without a reset is not modelled.
- Addresses in the heap model are chunk numbers and words are unbounded naturals; every stored value is a size or address of the heap and so fits 32 bits.
- The `ENABLE_STATS` and `ENABLE_FLAGS` variants of the allocator, `calloc`, and the other C library routines.
- Buffer sizes of the MS/TP link: bacnet-mstp.h is not part of this model; the receive buffer is modelled together with the memory its unchecked length field can reach.
- Changing the capture baud rate or idle time during a run.
- How long the MS/TP loop waits for a reception; the environment decides when a silence ends.
- Preemption of `bacnet_ptp_send` between storing the length and sending, and several sending threads at once.
- Connecting and disconnecting the point-to-point link, and NAK frames in the two-ended model, as the receiving code never sends one.
- The type and address of queued MS/TP messages: no code in the tree sets them, so the model lets the environment label the queue at any time.
- Ring-wide uniqueness of the MS/TP token and conformance of the node to the standard, because the code departs from it.
- Exactly-once delivery on the point-to-point link, because the receiving code does not check the parity of data frames.
- The overlapping `memcpy` of the receivers is modelled as an ascending copy.
- ThinkOS system calls, serial, TCP and USB drivers, logging and statistics: part of the environment.
- `http_process_request`, the multipart receiver, header-field hashing and response formatting.
- The crc5 engines, the SDU and GDB packet decoders, and the Python tools.
