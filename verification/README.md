# Verified model of the cipher server

The cipher server takes jobs from clients over memif shared-memory rings, runs them in bursts on
crypto devices and sends the results back over the same rings. This project models the parts of it
where the reasoning is hard, in Dafny, and proves what they are for.

- **Rings** (`RingMachine`, `RingProofs`, `RingTheorems`, `RingProgress`, `RingCode`). One state machine covers both
  ring directions. Producer and consumer take steps in any order, indices are 16-bit, and the machine
  also carries the unbounded history. `RingCode.Ring` holds the four burst functions as methods with
  their loops; before each loop pass of one side, and before it publishes an index, the other side may take
  any number of steps.
- **Layout** (`Layout`, `BufferOwners`). Ring areas in region 0, buffer ownership in region 1, the buffer
  trades of `memif_buffer_enq_tx`, and one machine over all rings and all trades.
- **Handshake** (`Handshake`, `HandshakeProofs`, `HandshakeTheorems`, `HandshakeCode`). Two connections,
  two channels, and the shared ring headers.
- **CRC** (`Bits`, `CrcSpec`, `CrcPoly`, `CrcCode`, `CrcTable`, `CrcCalculate`, `CrcHigh`, `CrcTheorems`,
  `CrcSplit`, `CrcBits`). Words are bit sequences of any width. The reference is a register exactly as wide
  as the CRC, and below it polynomial division over GF(2).
- **Copies** (`Memcpy`, `MemcpyAvx2`, `MemcpyAvx512`). Flat memory; a load may read only the source span
  and a store may write only the destination span.
- **Sessions and bursts** (`Sessions`, `SessionTheorems`, `SessionCode`, `Pipeline`, `SessionKeys`, `Vectors`,
  `BurstOrder`, `Operations`, `DevicePasses`, `PipelineCode`). The registry records what each session object
  was initialised with. Crypto operations come from a pool and keep their vector area from job to job.
- **Job buffers** (`Serializer`, `SerializerTheorems`, `WireFormat`, `SerializerCode`, `EndToEnd`) and the **burst loops**
  around them: the client's send loop on a ring of `RingCode` (`BurstLoops`) and the server's poll loop
  between two of them (`ServerLoop`), with the other side running before, between and inside the calls.

`Basics` has the types used throughout. `Arith` has powers of two, remainders and 16-bit wrap-around.
Remainders by a variable and modulo 2^16 are written as recursive functions there and proved equal to `%`.
The index masks `x & (2^k - 1)` are these remainders (`Arith.MaskIsBitwise`); the offset reset, whose mask
need not belong to a power of two, uses the bitwise `Arith.And`.

`dafny verify dfyconfig.toml` checks the whole project.

## Where the code does less than it says

- `UndoFinalize` is documented to always return the original remainder. It does so exactly when the bits
  above the CRC width are what `CrcCalculate.UndoFinalizeIff` says (`CrcCalculate.UndoLosesHighBit`).
- Multi-part calculation gives the CRC of the whole for every split exactly when no left-over bit of the
  parameters shows at the end of a byte, which is a finite check (`CrcSplit.MultiPartIff`). From a width of
  eight bits on that means that the parameters fit (`CrcSplit.PartsNeedNotCombine` is an example that does
  not); below, parameters that do not fit may pass (`CrcSplit.NarrowNeedNotFit`).
- The overloads of `CalculateBits` that append to a CRC start again from the initial value when there is a
  whole byte to append. They are right exactly under the condition of `CrcBits.AppendIff`. Where the input is
  not reflected and the polynomial has a constant term, that means that the CRC is that of no data
  (`CrcBits.PlainAppendIff`; `CrcBits.AppendForgets` is an example).
- The offset reset of alloc and refill keeps buffers where they are, and private, exactly when the buffer
  size is a power of two (`Layout.ResetKeepsInitialIff`, `Layout.ResetPrivateIff`), although any size is
  accepted; `Layout.ResetBreaks3000` is an example. The ring theorems are for powers of two.
- A master refill may give back more slots than its `count` asks for when indices wrap. It does so
  exactly under the condition of `RingTheorems.ReleaseExactIff`; `RingProgress.ReleaseCanExceedCount`
  reaches such a state. It never gives back an unread slot.
- Initial buffers are private to their descriptors exactly up to 65536 descriptors
  (`Layout.InitialOffsetsPrivateIff`, `Layout.FiveRingsShare`).
- The handshake completes exactly when the master was created with at least the slave's number of rings
  (`HandshakeTheorems.CompletesIff`, `HandshakeTheorems.TwoRingsToOne`).
- An accepted cipher job is reported as successful without a success of the device exactly when the
  operation pool is too small for its device's list or the device hands the operation back unprocessed
  (`Pipeline.FalseSuccessIff`, with an example of each). In the first case the client gets its own
  plaintext back as a success (`EndToEnd.PlaintextReturned`).
- A device reads sixteen bytes of vector, but a shorter vector leaves the rest of the operation's area as
  earlier jobs left it, possibly jobs of another client. A job's result is independent of them exactly when
  its vector has sixteen bytes (`Vectors.VectorIff`; `Vectors.VectorByte` says where each byte comes from,
  `Vectors.VectorOfAnother` and `Vectors.EqualJobsDiffer` are examples).
- A burst gives the results of running its jobs one by one exactly when no job is in conflict with a
  deferred close (`BurstOrder.SameResultsIff`), and whatever the operations held before, exactly when in
  addition every accepted job brings a whole vector (`BurstOrder.SameAlwaysIff`). The session pool counts: a
  create that finds it empty behind a deferred close is one of the conflicts (`BurstOrder.EmptyPoolShows`).
  The device's answer to a create is taken to be the same in both orders.
- A send serializes each job once, in order, exactly up to 65536 jobs, whatever the ring allocates each time
  (`BurstLoops.SerializedOnceIff`).

## Model

| member | source | states |
|---|---|---|
| `RingMachine.FreeSlotsExact` | libmemif/src/main.c:2209-2216 | the 16-bit free-slot computation equals the number of slots the producer may still fill, after any number of index wraps |
| `RingMachine.UnreadExact` | libmemif/src/main.c:2443-2455 | the 16-bit difference of the cursors equals the number of published packets not yet received |
| `RingMachine.ReleaseBounded` | libmemif/src/main.c:2319-2328 | a master refill never moves tail backwards nor past the last packet received, although it compares in int |
| `RingMachine.RefillExact` | libmemif/src/main.c:2330-2332 | a slave refill offers exactly min(count, received and not yet offered again) slots |
| `RingProofs.InvStep` | libmemif/src/main.c:2179-2507 | every step of either side keeps the order of the counters, the meaning of the indices and the contents of slots and buffers |
| `RingProofs.RunKeepsInv` | libmemif/src/main.c:2179-2507 | the same for every interleaved run of both sides |
| `RingProofs.ReachableInv` | libmemif/src/main.c:2179-2507 | the same for every reachable state |
| `RingTheorems.DeliveredInOrder` | libmemif/src/main.c:2457-2494 | what the consumer has received is a prefix, in order, of what the producer has published |
| `RingTheorems.WriterExcluded` | libmemif/src/main.c:2209-2284 | no buffer the producer may write is the buffer of a packet not yet given back |
| `RingTheorems.HistoryGrows` | libmemif/src/main.c:2354-2507 | along a run nothing published and nothing received is ever changed or taken back |
| `RingTheorems.ReceivedStaysReadable` | libmemif/src/main.c:2319-2352 | a received packet can be read unchanged from its buffer until its slot is given back |
| `RingTheorems.OfferedSlotsClean` | libmemif/src/main.c:2334-2349 | every slot a slave offers has region 1, full length and its own block, in every reachable state |
| `RingTheorems.WrappedRefillResetsNothing` | libmemif/src/main.c:2334-2349 | the reset loop does nothing when the new head has wrapped |
| `RingTheorems.ReleaseExactIff` | libmemif/src/main.c:2319-2328 | a master refill gives back exactly min(count, received and unreleased) if and only if a condition on the indices holds |
| `RingProgress.ReleaseCanExceedCount` | libmemif/src/main.c:2319-2328 | a reachable state in which a master refill of one slot gives back two |
| `RingProgress.PublishAll` | libmemif/src/main.c:2179-2416 | whatever the producer is doing, it can finish and publish all it has allocated |
| `RingProgress.GiveBackAll` | libmemif/src/main.c:2300-2352 | a consumer between calls can give back everything received, in either role |
| `RingProgress.CanEmpty` | libmemif/src/main.c:2179-2507 | from every reachable state, in either direction and any phase, some continuation publishes, receives and gives back everything |
| `RingProgress.CanDeliver` | libmemif/src/main.c:2179-2507 | from every reachable state any list of packets can be delivered next, in order, and the ring emptied |
| `RingCode.Ring.constructor` | libmemif/src/main.c:1956-2056 | a new ring is in an initial state of the machine |
| `RingCode.Ring.BufferAlloc` | libmemif/src/main.c:2179-2298 | allocates min(count, free) buffers of the next slots, in order, whatever the peer does meanwhile; reports a full ring exactly when fewer than count |
| `RingCode.Ring.WriteBuffer` | libmemif_client/memif_client.cpp:889-906 | filling an allocated buffer changes that buffer and no other |
| `RingCode.Ring.ReadReceived` | libmemif_client/memif_client.cpp:353-356 | a buffer received and not given back still reads as the packet received, whatever the peer did |
| `RingCode.Ring.TxBurst` | libmemif/src/main.c:2354-2416 | publishes the first allocated buffers, in order, with the lengths and data they hold |
| `RingCode.Ring.RxBurst` | libmemif/src/main.c:2418-2507 | receives the next min(count, unread) packets in order and says whether more are waiting |
| `RingCode.Ring.RefillQueue` | libmemif/src/main.c:2300-2352 | gives back slots of received packets only, at least as many as asked for if there are as many, and keeps the ring reachable in both roles |
| `RingCode.Ring.MasterRefill` | libmemif/src/main.c:2319-2328 | tail moves on by the slots given back, never past those received |
| `RingCode.ReleaseAtLeast` | libmemif/src/main.c:2319-2328 | on either branch of the int comparison at least min(count, received and unreleased) slots are given back |
| `RingCode.Ring.SlaveRefill` | libmemif/src/main.c:2330-2352 | head moves on by min(count, received and not yet offered) |
| `Layout.RingAreasDisjoint` | libmemif/src/main.c:813-826 | ring areas lie inside region 0 and different rings do not overlap |
| `Layout.RingsTile` | libmemif/src/main.c:813-826 | the areas follow one another without gaps, S2M rings first, and fill region 0 |
| `Layout.BuffersTile` | libmemif/src/main.c:1936-1938 | up to 65536 descriptors, the buffers fill region 1 |
| `Layout.BlocksDisjoint` | libmemif/src/main.c:1962-1997 | buffers of different descriptors share no byte |
| `Layout.InitialOffsetsOwn` | libmemif/src/main.c:1962-1997 | up to 65536 descriptors, initial offsets are whole, different blocks inside region 1 |
| `Layout.InitialOffsetsPrivateIff` | libmemif/src/main.c:1962-1997 | initial buffers are private if and only if there are at most 65536 descriptors |
| `Layout.FiveRingsShare` | libmemif/src/main.c:1962-1997 | with five rings of 16384 descriptors the first and the 65537th share a buffer |
| `Layout.InitQueues` | libmemif/src/main.c:1956-1997 | the nested initialisation loops give descriptor k the k-th block, with the 16-bit block number |
| `Layout.RingConfigValid` | libmemif/src/main.c:1956-2056 | with a power-of-two buffer size, each ring of an initialised connection is a ring the ring machine is about |
| `Layout.ResetKeepsOwner` | libmemif/src/main.c:2340-2346 | for a power of two the bitwise reset leaves every owned block where it is |
| `Layout.ResetKeepsInitialIff` | libmemif/src/main.c:2265-2272 | with at least two descriptors, the bitwise reset keeps every initial offset if and only if the buffer size is a power of two |
| `Layout.ResetPrivateIff` | libmemif/src/main.c:2265-2272 | after the reset, buffers are private if and only if the buffer size is a power of two |
| `Layout.ResetBreaks3000` | libmemif/src/main.c:2344 | with 3000-byte buffers the reset puts the second buffer eight bytes behind the start of the first |
| `Layout.SwapKeepsBlocks` | libmemif/src/main.c:2137-2165 | exchanging two descriptors' buffers keeps every buffer with one owner |
| `Layout.TradedOffsets` | libmemif/src/main.c:2137-2165 | after the trades each slot holds its received buffer, each origin the free one, everything else is as before |
| `Layout.TradesKeepBlocks` | libmemif/src/main.c:2137-2165 | any sequence of trades keeps buffers private when each received buffer still owns its descriptor |
| `Layout.SlotsTradable` | libmemif/src/main.c:2123-2137 | the next free slots are different descriptors of this ring, none of them a received buffer's |
| `Layout.BufferTable.EnqTx` | libmemif/src/main.c:2101-2177 | from the ring's own indices, the loop enqueues the buffers up to the first without the RX flag or free slot, and keeps buffers private |
| `BufferOwners.StepKeepsOffsets` | libmemif/src/main.c:2179-2507 | no step of alloc, transmit, receive or refill moves a buffer, when buffers are whole blocks of a power-of-two size |
| `BufferOwners.BuffersPermuted` | libmemif/src/main.c:2101-2507 | in every run of all rings and trades the buffers of all descriptors are a permutation of the initial ones |
| `BufferOwners.BuffersStayPrivate` | libmemif/src/main.c:2101-2507 | so no two descriptors ever name the same buffer if none did at the start |
| `BufferOwners.InitiallyPrivate` | libmemif/src/main.c:1956-2056 | the rings of an initialised connection start out that way: whole blocks, none named twice |
| `BufferOwners.TradesPermute` | libmemif/src/main.c:2137-2165 | the trades of one call permute the table |
| `HandshakeProofs.ScriptOrder` | libmemif/src/socket.c:725-753 | HELLO makes the slave queue INIT, regions, S2M rings, M2S rings, CONNECT, in this order |
| `HandshakeProofs.MasterReceives` | libmemif/src/socket.c:482-607 | each message extends the master's arrays by exactly the announced entry at the last place, or is refused because the ring number is beyond its limit |
| `HandshakeProofs.HeadersReady` | libmemif/src/main.c:1868-1900 | both sides' queues name ring headers that exist, and clearing them changes nothing |
| `HandshakeTheorems.Step` | libmemif/src/socket.c:661-867 | every step moves the one token of the conversation one place on |
| `HandshakeTheorems.RunEnds` | libmemif/src/socket.c:661-899 | where any run ends, how many steps are left and what has been sent |
| `HandshakeTheorems.LockStep` | libmemif/src/socket.c:661-867 | in every run at most one message is in flight or may be sent, and exactly one until the slave is connected |
| `HandshakeTheorems.SentInOrder` | libmemif/src/socket.c:725-753 | the i-th message the slave sends is the i-th of INIT, regions, S2M rings, M2S rings, CONNECT |
| `HandshakeTheorems.WritesInBounds` | libmemif/src/socket.c:482-576 | in every run the entry a message announces is the one the master's array has just grown by |
| `HandshakeTheorems.Agreement` | libmemif/src/socket.c:482-643 | once connected, both sides hold the same region sizes and, ring by ring, the same region, offset and size |
| `HandshakeTheorems.LateZeroingLosesNothing` | libmemif/src/main.c:1868-1900 | when the slave clears the indices on CONNECTED they all still are zero, whatever the master has tried to send or refill |
| `HandshakeTheorems.StepsToConnect` | libmemif/src/socket.c:661-867 | a run has at most 4 * Length + 1 handshake steps and has taken them all exactly when the slave is connected |
| `HandshakeTheorems.Completes` | libmemif/src/socket.c:661-867 | with enough rings on the master every run can be continued to a connected slave |
| `HandshakeTheorems.CompletesIff` | libmemif/src/socket.c:532-558 | some run connects the slave if and only if the master has at least the slave's rings each way |
| `HandshakeTheorems.TwoRingsToOne` | libmemif/src/socket.c:532-558 | a slave with two rings each way is never connected to a master with one |
| `HandshakeTheorems.NegotiateLimits` | libmemif/src/socket.c:340-363 | of each limit negotiation takes the smaller one of both sides' |
| `HandshakeTheorems.NegotiateKeeps` | libmemif/src/socket.c:340-363 | the HELLO of this library leaves a slave its ring counts and its ring size |
| `HandshakeTheorems.VersionChecked` | libmemif/src/socket.c:340-384 | HELLO and INIT are accepted for version 2.0 and no other |
| `HandshakeTheorems.ConnectClears` | libmemif/src/main.c:1827-1906 | CONNECT and CONNECTED succeed if and only if every queue has a ring header, and clear the indices of just these rings, whatever they hold |
| `HandshakeTheorems.AgreedValues` | libmemif/src/socket.c:482-643 | once connected, both sides hold the rings and regions of the slave's own arguments |
| `HandshakeCode.Memory.ClearRings` | libmemif/src/main.c:1868-1897 | all rings of the list are cleared, or an error if one has no valid header |
| `HandshakeCode.Connection.InitRegionsAndQueues` | libmemif/src/main.c:2058-2099 | two regions, the queues of both types and their ring headers |
| `HandshakeCode.Connection.EnqScript` | libmemif/src/socket.c:730-752 | the queue is extended by the whole script |
| `HandshakeCode.Connection.ReceiveHello` | libmemif/src/socket.c:340-363 | version check, negotiation, initialisation and script as the specification says, or an error and no change |
| `HandshakeCode.Connection.ReceiveAddRegion` | libmemif/src/socket.c:482-513 | grows by one and writes the announced entry; error beyond the limits |
| `HandshakeCode.Connection.ReceiveAddRing` | libmemif/src/socket.c:515-576 | the same for the ring array of the announced direction, which is the opposite one on the master |
| `HandshakeCode.Connection.Connect1` | libmemif/src/main.c:1827-1906 | clears all ring indices of the connection, or an error exactly when a ring header is missing |
| `HandshakeCode.Connection.MsgReceive` | libmemif/src/socket.c:661-815 | the connection and the shared headers change as the specification says, for every message |
| `HandshakeCode.Connection.WriteReady` | libmemif/src/socket.c:844-867 | sends the head of the queue and clears the write flag, or does nothing |
| `CrcSpec.FeedLinear` | CRCpp/inc/CRC.h:781-866 | feeding is linear in register and message |
| `CrcSpec.TableStep` | CRCpp/inc/CRC.h:886-927 | a group of bits at once: what leaves the top selects the entry, the rest is only shifted |
| `CrcSpec.ResidueZero` | CRCpp/inc/CRC.h:804-832 | a message followed by its register leaves zero |
| `CrcPoly.RegisterDivides` | CRCpp/inc/CRC.h:804-832 | dividend = quotient * generator + register, coefficient by coefficient |
| `CrcPoly.RemainderIsRegister` | CRCpp/inc/CRC.h:804-832 | the register is the only remainder of that division |
| `CrcCode.Reflect` | CRCpp/inc/CRC.h:683-694 | the loop reverses the low bits |
| `CrcCode.ReflectTwice` | CRCpp/inc/CRC.h:683-694 | reflecting twice keeps the low bits and clears the rest |
| `CrcCode.CalculateRemainder` | CRCpp/inc/CRC.h:765-869 | all three loops track the reference register, for every width, input and start value |
| `CrcCode.RemainderReflected` | CRCpp/inc/CRC.h:781-803 | the reflected loop does |
| `CrcCode.RemainderWide` | CRCpp/inc/CRC.h:804-832 | the loop for widths of at least a byte does |
| `CrcCode.RemainderSmall` | CRCpp/inc/CRC.h:833-866 | the loop for widths below a byte does, in its shifted register |
| `CrcCode.CalculateRemainderBits` | CRCpp/inc/CRC.h:932-1014 | fewer than eight bits track the reference register |
| `CrcTable.EntryFromRemainder` | CRCpp/inc/CRC.h:426-438 | the mask and the shift back lose nothing of a table entry |
| `CrcTable.InitTable` | CRCpp/inc/CRC.h:411-443 | every entry is the register after that byte, from zero |
| `CrcTable.LookupReflected` | CRCpp/inc/CRC.h:886-902 | one lookup is eight bit steps, reflected |
| `CrcTable.LookupWide` | CRCpp/inc/CRC.h:903-912 | one lookup is eight bit steps, widths of at least a byte |
| `CrcTable.LookupSmall` | CRCpp/inc/CRC.h:913-927 | one lookup is eight bit steps, widths below a byte |
| `CrcTable.CalculateRemainderTable` | CRCpp/inc/CRC.h:882-930 | the table loops track the same register as the bit loops |
| `CrcCalculate.UndoKeepsLow` | CRCpp/inc/CRC.h:706-752 | undoing a finalisation restores the bits of the CRC |
| `CrcCalculate.UndoFinalizeIff` | CRCpp/inc/CRC.h:706-752 | it restores the whole word if and only if the bits above the CRC are those the parameters imply |
| `CrcCalculate.UndoLosesHighBit` | CRCpp/inc/CRC.h:706-752 | a remainder with a bit above the width set is not restored |
| `CrcCalculate.Calculate` | CRCpp/inc/CRC.h:455-466 | bit by bit, the result is every remainder that tracks the data, turned round when input and output reflection differ, with the final XOR and zero above the width |
| `CrcCalculate.CalculateMore` | CRCpp/inc/CRC.h:475-488 | the same, continuing from the remainder the given CRC stands for, which is fixed bit by bit |
| `CrcCalculate.CalculateByTable` | CRCpp/inc/CRC.h:496-510 | the table form gives the same CRC as the bit form, with the same bits |
| `CrcCalculate.CalculateMoreByTable` | CRCpp/inc/CRC.h:519-534 | the same, continuing from a CRC |
| `CrcCalculate.CrcFinished` | CRCpp/inc/CRC.h:706-718 | the reference CRC has these bits |
| `CrcCalculate.UndoResumes` | CRCpp/inc/CRC.h:738-752 | what a CRC is resumed from, bit by bit, and nothing else is |
| `CrcCalculate.Crc32OfNothing` | CRCpp/inc/CRC.h:1926-1930 | the CRC-32 of no data is zero |
| `CrcCalculate.StreamBit` | CRCpp/inc/CRC.h:781-832 | which bit of which byte the register takes when |
| `CrcHigh.RemainderHigh` | CRCpp/inc/CRC.h:781-803 | above the CRC width, reflected input only moves bits down |
| `CrcTheorems.RemaindersAgree` | CRCpp/inc/CRC.h:765-930 | any two remainders that track the same input agree in the CRC bits and give equal CRCs |
| `CrcTheorems.RemainderIsDivision` | CRCpp/inc/CRC.h:804-832 | a word has the remainder's CRC bits if and only if some quotient makes it the remainder of the division |
| `CrcTheorems.ReflectedRegister` | CRCpp/inc/CRC.h:781-803 | the reflected register is the mirror image of a plain one and goes on fitting the width |
| `CrcTheorems.ReflectedMirrorsUnreflected` | CRCpp/inc/CRC.h:781-832 | reflecting register and bytes turns the reflected algorithm into the plain one |
| `CrcTheorems.CodewordResidue` | CRCpp/inc/CRC.h:706-718 | data followed by its own CRC, most significant byte first, has CRC zero |
| `CrcTheorems.MultiPart` | CRCpp/inc/CRC.h:455-530 | for split-safe parameters, the CRC of the second part continued from the first is the CRC of the whole |
| `CrcTheorems.WideMultiPartIff` | CRCpp/inc/CRC.h:475-488 | for widths of at least a byte this holds for all parts if and only if the parameters are split-safe |
| `CrcSplit.LeftOverIs` | CRCpp/inc/CRC.h:706-752 | what finishing and resuming changes is exactly the left-over difference of the parameters |
| `CrcSplit.PartsCombineIff` | CRCpp/inc/CRC.h:475-488 | two given parts combine if and only if the left-over difference does not show after the second |
| `CrcSplit.MultiPartIff` | CRCpp/inc/CRC.h:455-530 | at every width, all parts combine if and only if no left-over difference shows within n bytes |
| `CrcSplit.SplitSafeIsSilent` | CRCpp/inc/CRC.h:738-752 | parameters that fit pass that check, and from a byte on no others do |
| `CrcSplit.NarrowNeedNotFit` | CRCpp/inc/CRC.h:738-752 | one-bit parameters that do not fit and yet combine |
| `CrcSplit.PartsNeedNotCombine` | CRCpp/inc/CRC.h:475-488 | eight-bit parameters whose initial value does not fit: parts do not combine |
| `CrcTheorems.LawNeedsFinalXor` | CRCpp/inc/CRC.h:738-752 | the law forces the final XOR to fit |
| `CrcTheorems.LawNeedsInitialValue` | CRCpp/inc/CRC.h:738-752 | the law forces the initial value to fit |
| `CrcBits.CalculateBits` | CRCpp/inc/CRC.h:542-564 | a message of any number of bits gives the CRC of exactly these bits, bit by bit as above |
| `CrcBits.CalculateBitsByTable` | CRCpp/inc/CRC.h:611-635 | the table form gives the same CRC as the bit form |
| `CrcBits.CalculateBitsMore` | CRCpp/inc/CRC.h:577-599 | appending, bit by bit as above: the given CRC is continued when there is no whole byte, and otherwise the initial value is |
| `CrcBits.CalculateBitsMoreByTable` | CRCpp/inc/CRC.h:649-673 | the same with a table |
| `CrcBits.AppendIff` | CRCpp/inc/CRC.h:577-599 | appending continues the given CRC if and only if there is no whole byte or the difference to the initial value dies out within the bits |
| `CrcBits.PlainAppendIff` | CRCpp/inc/CRC.h:577-599 | for input not reflected and a polynomial with constant term: if and only if the CRC is that of no data |
| `CrcBits.AppendForgets` | CRCpp/inc/CRC.h:577-599 | an eight-bit CRC that appending a zero byte forgets |
| `CrcBits.EightOfOne` | CRCpp/inc/CRC.h:804-832 | the eight-bit CRC with polynomial 7 of the byte 1 is 7 |
| `Memcpy.CopyBelow16` | libmemcpy/memcpy_avx2.h:129-154 | fewer than sixteen bytes: exactly the span is copied |
| `MemcpyAvx2.Mov128Blocks` | libmemcpy/memcpy_avx2.h:92-115 | as many whole blocks as fit are copied |
| `MemcpyAvx2.CopyBlock128Back31` | libmemcpy/memcpy_avx2.h:187-205 | the tail, with moves that reach back over copied bytes, completes the copy |
| `MemcpyAvx2.CopyAligned` | libmemcpy/memcpy_avx2.h:208-234 | aligning, blocks and tail complete the copy for every destination alignment |
| `MemcpyAvx2.MemcpyFast` | libmemcpy/memcpy_avx2.h:117-235 | for every n the destination equals the source and nothing else changes |
| `MemcpyAvx512.Mov128Blocks` | libmemcpy/memcpy_avx512.h:101-116 | as many whole 128-byte blocks as fit are copied |
| `MemcpyAvx512.Mov512Blocks` | libmemcpy/memcpy_avx512.h:118-145 | as many whole 512-byte blocks as fit are copied |
| `MemcpyAvx512.CopyBlock128Back63` | libmemcpy/memcpy_avx512.h:215-225 | the tail completes the copy |
| `MemcpyAvx512.CopyUpTo512` | libmemcpy/memcpy_avx512.h:199-225 | sizes up to 512 are copied |
| `MemcpyAvx512.CopyAligned` | libmemcpy/memcpy_avx512.h:227-270 | larger sizes are copied for every destination alignment |
| `MemcpyAvx512.MemcpyFast` | libmemcpy/memcpy_avx512.h:147-271 | for every n the destination equals the source and nothing else changes |
| `SessionTheorems.KeyInjective` | libdpdk_cryptodev_client/dpdk_cryptodev_client.cpp:1331-1332 | different ids never name the same slot |
| `SessionTheorems.FailedIdNeverResolves` | libdpdk_cryptodev_client/dpdk_cryptodev_client.cpp:717-723 | the id of a failed create resolves on no channel in any state |
| `SessionTheorems.CreatedResolves` | libdpdk_cryptodev_client/dpdk_cryptodev_client.cpp:1238-1325 | a successful create answers with an id that named nothing before and names the new session now, which holds the algorithm, direction and key asked for |
| `SessionTheorems.CreateFailsIff` | libdpdk_cryptodev_client/dpdk_cryptodev_client.cpp:1238-1325 | a create fails if and only if the algorithm is unknown, there is no object, the device refuses, or the device's slots are all taken |
| `SessionTheorems.DeviceChosen` | libdpdk_cryptodev_client/dpdk_cryptodev_client.cpp:1265-1306 | a successful create answers with the first empty slot of the device that serves its algorithm, AES-CTR or SNOW3G |
| `SessionTheorems.FirstIds` | libdpdk_cryptodev_client/dpdk_cryptodev_client.cpp:1298-1306 | with two devices, the first AES-CTR session has id 0 and the first SNOW3G session id 65536 |
| `SessionTheorems.FreedAreBlank` | libdpdk_cryptodev_client/dpdk_cryptodev_client.cpp:1345-1352 | in every run, objects in the pool hold no key |
| `SessionTheorems.PoolConserved` | libdpdk_cryptodev_client/dpdk_cryptodev_client.cpp:1238-1404 | in every run the objects taken from the pool are exactly those in occupied slots, each in one slot |
| `SessionTheorems.ChannelsIsolated` | libdpdk_cryptodev_client/dpdk_cryptodev_client.cpp:1238-1404 | no action on one channel changes a lookup on another |
| `SessionTheorems.ContentsKept` | libdpdk_cryptodev_client/dpdk_cryptodev_client.cpp:1238-1404 | no action initialises or clears a session in use, but its own close and clean-up |
| `SessionTheorems.ResolvesUntilClosed` | libdpdk_cryptodev_client/dpdk_cryptodev_client.cpp:1238-1404 | in every run a successful id resolves to its own session, holding what its create asked for, until its close or the channel's clean-up |
| `SessionTheorems.LiveIdsDistinct` | libdpdk_cryptodev_client/dpdk_cryptodev_client.cpp:1298-1311 | ids live at the same time on one channel differ |
| `SessionTheorems.CloseEnds` | libdpdk_cryptodev_client/dpdk_cryptodev_client.cpp:1329-1356 | a close succeeds exactly when the id resolved, and ends that |
| `SessionTheorems.CleanupEnds` | libdpdk_cryptodev_client/dpdk_cryptodev_client.cpp:1378-1404 | after the clean-up nothing resolves on the channel |
| `SessionCode.SessionStore.GetSession` | libdpdk_cryptodev_client/dpdk_cryptodev_client.cpp:1358-1376 | the lookup of the specification, for every id |
| `SessionCode.SessionStore.FindSlot` | libdpdk_cryptodev_client/dpdk_cryptodev_client.cpp:1298-1311 | the first empty slot of the device |
| `SessionCode.SessionStore.Create` | libdpdk_cryptodev_client/dpdk_cryptodev_client.cpp:1238-1325 | the registry and the pool change as specified; every failure leaves both as they were |
| `SessionCode.SessionStore.RemoveSession` | libdpdk_cryptodev_client/dpdk_cryptodev_client.cpp:1329-1356 | the same for a close, with its error cases |
| `SessionCode.SessionStore.RemoveAllSessions` | libdpdk_cryptodev_client/dpdk_cryptodev_client.cpp:1378-1404 | the nested loops free exactly the channel's sessions |
| `Pipeline.IndexList` | libdpdk_cryptodev_client/dpdk_cryptodev_client.cpp:745-752 | a device's list is strictly increasing and holds only accepted jobs of that device |
| `Pipeline.ListsCover` | libdpdk_cryptodev_client/dpdk_cryptodev_client.cpp:741-752 | every accepted job is in the list of the device its id names and in no other |
| `Pipeline.StillResolves` | libdpdk_cryptodev_client/dpdk_cryptodev_client.cpp:697-732 | preparing more jobs never ends a session |
| `Pipeline.AcceptedHasSession` | libdpdk_cryptodev_client/dpdk_cryptodev_client.cpp:950-959 | the branch for a missing session is unreachable: the session found on acceptance is the one attached |
| `Pipeline.OwnResult` | libdpdk_cryptodev_client/dpdk_cryptodev_client.cpp:1049-1088 | an accepted job gets what the device made of its own data, session and loaded vector area when the operation pool suffices, and otherwise keeps its data and is reported successful |
| `Pipeline.FalseSuccessIff` | libdpdk_cryptodev_client/dpdk_cryptodev_client.cpp:1066-1084 | an accepted job is reported successful without a device success if and only if the pool is too small or the device leaves its operation unprocessed |
| `Pipeline.EmptyPoolReportsSuccess` | libdpdk_cryptodev_client/dpdk_cryptodev_client.cpp:1142-1150 | an empty pool reports a job as successful, untouched |
| `Pipeline.UnprocessedReportsSuccess` | libdpdk_cryptodev_client/dpdk_cryptodev_client.cpp:1079-1084 | an operation handed back unprocessed does the same |
| `Pipeline.RefusedOutcome` | libdpdk_cryptodev_client/dpdk_cryptodev_client.cpp:733-738 | a cipher job whose session does not resolve is FAILED and empty |
| `Pipeline.UnknownOutcome` | libdpdk_cryptodev_client/dpdk_cryptodev_client.cpp:793-801 | so is a job of an unknown kind |
| `Pipeline.CreateOutcome` | libdpdk_cryptodev_client/dpdk_cryptodev_client.cpp:708-724 | a create is answered with success and an id on the device of its algorithm, or with FAILED and the id -1, and when it is which |
| `Pipeline.CloseOutcome` | libdpdk_cryptodev_client/dpdk_cryptodev_client.cpp:813-824 | a close is a success if and only if its id resolves at its turn, and afterwards the id does not resolve |
| `Pipeline.ResolvesAtTurn` | libdpdk_cryptodev_client/dpdk_cryptodev_client.cpp:805-824 | an id resolves at the turn of a job if and only if it did before the closes and none of it came earlier in the burst |
| `Pipeline.EveryJobDecided` | libdpdk_cryptodev_client/dpdk_cryptodev_client.cpp:697-860 | no job ends undecided, and jobs that came in FAILED leave FAILED and empty, closes excepted |
| `Pipeline.BurstConserves` | libdpdk_cryptodev_client/dpdk_cryptodev_client.cpp:862-921 | a burst leaks no session object and uses none twice |
| `SessionKeys.OwnKey` | libdpdk_cryptodev_client/dpdk_cryptodev_client.cpp:950-961 | an accepted job is ciphered under what its session held when the job was accepted |
| `SessionKeys.HistoryConserves` | libdpdk_cryptodev_client/dpdk_cryptodev_client.cpp:862-1404 | over any history of bursts and clean-ups no session object is lost or used twice |
| `SessionKeys.OwnBurstKey` | libdpdk_cryptodev_client/dpdk_cryptodev_client.cpp:697-742 | a job behind the create whose id it carries, in one burst, is ciphered with that create's key, whatever is closed |
| `SessionKeys.UnderOwnKey` | libdpdk_cryptodev_client/dpdk_cryptodev_client.cpp:862-1404 | over any history of bursts and clean-ups, a job that carries the id of an earlier create is ciphered with that create's algorithm, direction and key, unless the id was closed or the channel cleaned up in between |
| `SessionKeys.OnItsDevice` | libdpdk_cryptodev_client/dpdk_cryptodev_client.cpp:741-752 | over any history, a job that carries the id of an earlier create is in the list of the device that serves the create's algorithm and in no other |
| `SessionKeys.OnItsDeviceInBurst` | libdpdk_cryptodev_client/dpdk_cryptodev_client.cpp:741-752 | the same within one burst |
| `Vectors.VectorIff` | libdpdk_cryptodev_client/dpdk_cryptodev_client.cpp:1021-1024 | an accepted job's result is independent of what its operation held if and only if its vector has sixteen bytes |
| `Vectors.FullVector` | libdpdk_cryptodev_client/dpdk_cryptodev_client.cpp:1021-1024 | with sixteen bytes the device works on the job's own vector |
| `Vectors.ByteOfLastReaching` | libdpdk_cryptodev_client/dpdk_cryptodev_client.cpp:1021-1024 | each byte of an operation's area is that of the last job whose vector reached it |
| `Vectors.VectorByte` | libdpdk_cryptodev_client/dpdk_cryptodev_client.cpp:1021-1024 | byte by byte, where the vector a job is ciphered with comes from, given the operations drawn for the devices of the burst |
| `Vectors.VectorOfAnother` | libdpdk_cryptodev_client/dpdk_cryptodev_client.cpp:1142-1201 | a job without a vector is ciphered with the one a job of another burst left |
| `Vectors.EqualJobsDiffer` | libdpdk_cryptodev_client/dpdk_cryptodev_client.cpp:1021-1024 | two equal jobs without a vector, of which one succeeds and one fails |
| `BurstOrder.SameResultsIff` | libdpdk_cryptodev_client/dpdk_cryptodev_client.cpp:862-921 | with an operation for every job and the same vectors, a burst gives the results and sessions of running its jobs one by one, with answers of their own, if and only if no cipher job stands behind the close of its session, no create behind a close that frees a lower slot or the object it lacks, and no close in front of the create it names |
| `BurstOrder.SameAlwaysIff` | libdpdk_cryptodev_client/dpdk_cryptodev_client.cpp:862-1236 | the same whatever the operations of either run held, if and only if in addition every accepted job has a whole vector |
| `BurstOrder.RunsOneByOne` | libdpdk_cryptodev_client/dpdk_cryptodev_client.cpp:862-921 | the jobs of every burst can be run one by one |
| `BurstOrder.PoolAlone` | libdpdk_cryptodev_client/dpdk_cryptodev_client.cpp:1251-1256 | one by one the session pool is empty if and only if it is in the burst and nothing has been closed |
| `BurstOrder.WithoutCreatesIff` | libdpdk_cryptodev_client/dpdk_cryptodev_client.cpp:725-742 | without creates there is no conflict if and only if no cipher job whose session is live stands behind a close of its id |
| `BurstOrder.FirstFreeWithout` | libdpdk_cryptodev_client/dpdk_cryptodev_client.cpp:1298-1311 | closing sessions changes the slot of the next create if and only if one of them lies below it |
| `BurstOrder.BurstIsSequential` | libdpdk_cryptodev_client/dpdk_cryptodev_client.cpp:862-921 | a burst that ends with its closes has no conflict |
| `BurstOrder.DeferredCloseShows` | libdpdk_cryptodev_client/dpdk_cryptodev_client.cpp:725-729 | a cipher job behind its session's close succeeds in a burst and fails one by one |
| `BurstOrder.EmptyPoolShows` | libdpdk_cryptodev_client/dpdk_cryptodev_client.cpp:1251-1256 | with the session pool empty, a create behind a close fails in a burst and succeeds one by one |
| `PipelineCode.Device.Dequeue` | libdpdk_cryptodev_client/dpdk_cryptodev_client.cpp:1181 | a first-in-first-out device returns a chunk of any size, having worked in place on those jobs only |
| `Operations.ChunkProgress` | libdpdk_cryptodev_client/dpdk_cryptodev_client.cpp:1049-1085 | a chunk of any size moves the progress on by that many finished jobs |
| `DevicePasses.ServedNext` | libdpdk_cryptodev_client/dpdk_cryptodev_client.cpp:885-899 | serving one more device notes what its operations held, renews their areas and ciphers exactly its jobs |
| `PipelineCode.Client.SetOpsCipher` | libdpdk_cryptodev_client/dpdk_cryptodev_client.cpp:926-1038 | one operation per listed job with its own session, its vector over the front of what the operation held, and no other area changed |
| `PipelineCode.Client.SetOpsCipherResult` | libdpdk_cryptodev_client/dpdk_cryptodev_client.cpp:1040-1088 | each listed job takes over the status of its own operation, the others keep theirs |
| `PipelineCode.Client.RunJobsInner` | libdpdk_cryptodev_client/dpdk_cryptodev_client.cpp:1090-1236 | exactly the listed jobs are ciphered, each with its own session and its operation's area; the operation pool is whole again, the areas renewed and the device empty; or the pool was too small and nothing happened |
| `PipelineCode.Client.PreprocessJobs` | libdpdk_cryptodev_client/dpdk_cryptodev_client.cpp:689-803 | jobs, registry and index lists are those of the specification |
| `PipelineCode.Client.PostprocessJobs` | libdpdk_cryptodev_client/dpdk_cryptodev_client.cpp:805-860 | the closes are carried out in order and nothing else changes; `Pipeline.CloseOutcome` says with which answer |
| `PipelineCode.Client.RunJobs` | libdpdk_cryptodev_client/dpdk_cryptodev_client.cpp:862-921 | every job of a burst of at most 64 ends as its outcome says, whatever chunks the devices return, with the areas of operations drawn from the pool; the pool is restored and its areas are those the burst left |
| `Serializer.HeaderRoundTrip` | libciph_agent/ciph_agent.cpp:50-60 | a stored header is read back field by field |
| `Serializer.ContextRoundTrip` | libciph_agent/ciph_agent.cpp:260-287 | storing a context leaves the lengths |
| `WireFormat.LeByte` | libciph_agent/ciph_agent.cpp:50-60 | numbers are stored lowest byte first |
| `WireFormat.WireLayout` | libdpdk_cryptodev_client/data_vectors.h:39-58 | at which byte each field of a stored header lies, and that padding and what is behind stay untouched |
| `WireFormat.ContextWire` | libciph_agent/ciph_agent.cpp:260-287 | the same for a context written back: nothing from byte 60 on changes |
| `WireFormat.SegmentAt` | libciph_agent/ciph_agent.cpp:111-128 | every segment lies behind those before it, and the place of a null one keeps what the buffer held |
| `WireFormat.EncodedBytes` | libciph_agent/ciph_agent.cpp:96-162 | segments from byte 108 on, the key at 9108, the vector behind it |
| `WireFormat.OversizeLimit` | libciph_agent/ciph_agent.cpp:70-85 | a job is refused if and only if its segments have more than 9000 bytes |
| `SerializerTheorems.SegmentsGathered` | libciph_agent/ciph_agent.cpp:111-128 | the segments end up one after the other in the data area |
| `SerializerTheorems.EncodeCarries` | libciph_agent/ciph_agent.cpp:39-163 | a job that fits: the buffer carries its context, all segments joined, key and vector |
| `SerializerTheorems.EncodeOversize` | libciph_agent/ciph_agent.cpp:70-85 | a job that does not fit: FAILED and nothing to read |
| `SerializerTheorems.CopyCarries` | libciph_agent/ciph_agent.cpp:289-346 | copying keeps what a buffer carries, whatever was in the target |
| `SerializerTheorems.ReplyCarries` | libciph_agent/ciph_agent.cpp:545-548 | writing back a context disturbs neither data nor key nor vector |
| `SerializerTheorems.DecodeDelivers` | libciph_agent/ciph_agent.cpp:197-218 | the output buffer gets the data exactly when a successful result has room; otherwise it is untouched and the job is no success |
| `SerializerCode.TotalLength` | libciph_agent/ciph_agent.cpp:65-68 | the loop gives the 32-bit sum of the lengths |
| `SerializerCode.JobToBuffer` | libciph_agent/ciph_agent.cpp:39-163 | the array becomes the encoding of the job, and the length is right in both cases |
| `SerializerCode.JobFromBuffer` | libciph_agent/ciph_agent.cpp:165-231 | context, lengths and output buffer are those of the specification |
| `SerializerCode.CtxToBuffer` | libciph_agent/ciph_agent.cpp:260-287 | only the context fields are stored |
| `SerializerCode.CopyBufferToBuffer` | libciph_agent/ciph_agent.cpp:289-346 | the target becomes the copy of the specification |
| `EndToEnd.RequestReply` | libciph_agent/ciph_agent.cpp:535-549 | for every cipher job that fits, also one that arrives FAILED, in every burst: the reply carries the answer for its joined segments, key and vector, the client's output holds that data exactly when the answer is a success that has room, and with a vector of sixteen bytes the device worked on just that vector |
| `EndToEnd.PlaintextReturned` | libciph_agent/ciph_agent.cpp:197-218 | without enough operations the client gets its own plaintext back as a success |
| `EndToEnd.Delivered` | libciph_agent/ciph_agent.cpp:197-218 | with room, a successful result and its length reach the client; otherwise the job fails and the output is untouched |
| `EndToEnd.OversizeContained` | libciph_agent/ciph_agent.cpp:65-85 | an oversize cipher job comes back FAILED with the output untouched, whatever else is in its burst |
| `EndToEnd.CreateReply` | libciph_agent/ciph_agent.cpp:535-549 | the client reads its create's outcome and its own context back, with the id -1 for a refused one; a successful id names a session with the key it sent, and still does after the burst if no job of it closes the id |
| `EndToEnd.CloseReply` | libciph_agent/ciph_agent.cpp:535-549 | the client reads success for a close if and only if the id named a session of its channel and no job of the burst closed it before; after the burst it names none |
| `EndToEnd.UnknownReply` | libciph_agent/ciph_agent.cpp:535-549 | a job of an unknown kind comes back FAILED |
| `EndToEnd.WireCodes` | libdpdk_cryptodev_client/data_vectors.h:4-16 | the numbers of kinds and statuses |
| `EndToEnd.CreateThenCipher` | libciph_agent/ciph_agent.cpp:535-549 | a job sent with the id of an earlier create and a whole vector: the reply carries what the device makes of that create's key, the joined segments and the vector |
| `BurstLoops.SerializedAt` | libmemif_client/memif_client.cpp:889-906 | for every pattern of allocations, packet k carries the 16-bit index of job k, or the untruncated successor of job k - 1's when it is second of a pair |
| `BurstLoops.SerializedOnceIff` | libmemif_client/memif_client.cpp:841-906 | for every pattern of allocations, each job is serialized exactly once, in order, if and only if there are at most 65536 |
| `BurstLoops.LastOf65537` | libmemif_client/memif_client.cpp:891-906 | a send of 65537 jobs always passes 0 for the last, because a pair needs a third buffer |
| `BurstLoops.PairPastTheWrap` | libmemif_client/memif_client.cpp:893-898 | when job 65535 starts a pair, job 65536 gets its own index |
| `BurstLoops.Client.FillBuffers` | libmemif_client/memif_client.cpp:889-906 | the nested loops fill the ring's buffers with the messages of the counter and, second in a pair, of its untruncated successor |
| `BurstLoops.Client.Send` | libmemif_client/memif_client.cpp:814-922 | on a ring and against any peer: some pattern of allocations adds up to the jobs sent, the messages of that pattern are published in order, and at least min(size, 64 per pass, slots free at the start) jobs leave |
| `ServerLoop.Server.PollOnce` | libmemif_client/memif_client.cpp:319-379 | on two rings, with clients running on both before, between and inside the calls, the copy and the callback: a burst of min(64, unread) is received and all its slots are given back; the replies to its first n requests are published in order, n being no less than the room for replies allows; more is reported if and only if requests were left unread; received = transmitted + errors |
| `ServerLoop.Server.Poll` | libmemif_client/memif_client.cpp:319-381 | the same over any number of passes; when it stops by itself, all that was published when it began has been received |

## Left out

- RingCode.Ring.BufferAlloc: requests with 1 <= size <= buffer length, the only ones this repository makes; the chained-buffer path is not modelled.
- RingCode.Ring.RefillQueue: headroom is 0 and there is no external-buffer callback.
- RingProofs.ReachableInv: for buffer sizes that are powers of two; `Layout.ResetPrivateIff` says why.
- Layout.BufferTable.EnqTx: the ring's indices are those of a ring state.
- BufferOwners.BuffersPermuted: an exchange is one step and may happen at any time; what packets the exchanged buffers carry is not followed.
- RingTheorems.OfferedSlotsClean: for rings whose buffers are not traded by `memif_buffer_enq_tx`; the trades have their own theorem in `Layout`.
- CrcTheorems.WideMultiPartIff: for widths of at least a byte; `CrcSplit.MultiPartIff` is the condition for every width.
- CrcBits.CalculateBits: a message that ends inside a byte is padded as the library's documentation asks.
- HandshakeCode.Connection.ReceiveAddRegion: an index past the grown array is an error, where the code writes out of bounds; `HandshakeTheorems.WritesInBounds` shows that no run gets there.
- HandshakeCode.Connection.ReceiveAddRing: the same for the ring arrays.
- HandshakeCode.Connection.MsgReceive: INIT messages are accepted ones (id, mode and secret match); DISCONNECT and what follows an error are not modelled.
- HandshakeTheorems.Completes: write events are deliverable whenever the write flag is set; the write that answers CONNECT belongs to the same event as its read, before write events are switched off.
- PipelineCode.Client.RunJobsInner: the device takes every operation offered and the list is no longer than max_burst_size, as the comment in the code asks; the enqueue loop then makes one pass.
- PipelineCode.Client.RunJobs: device ids equal device indices, all devices share one cipher function of what the session holds, the data and the vector area, and statistics are not modelled.
- PipelineCode.Client.SetOpsCipher: of a vector longer than sixteen bytes only the first sixteen matter here; the code copies the rest behind the area.
- Vectors.VectorIff: for vectors of at most sixteen bytes, for the same reason.
- BurstOrder.SameResultsIff: the device answers a create alike in both orders.
- SessionCode.SessionStore.Create: the device's answer to the initialisation is a parameter; clearing and freeing a session do not fail.
- SerializerCode.JobToBuffer: the sum of the segment lengths does not wrap at 2^32, and key and vector of a job that fits have room in the buffer, which the code takes from its caller unchecked.
- EndToEnd.RequestReply: the job does not come in marked successful; the server would then treat the client's output pointer as its own.
- BurstLoops.Client.Send: at most a given number of passes, because a ring that stays full keeps the loop going; the error returns and the retry log are not modelled.
- ServerLoop.Server.Poll: at most a given number of passes, because a client that keeps sending keeps the loop going; error returns are not modelled.
- Sockets, epoll, eventfd, mmap and allocation failure are abstract channels and fresh objects.
- DPDK, the ciphers themselves and builds with DEV_NULL.
- Interrupt registration in the connect handlers, reconnecting, per-thread API duplicates, error strings.
- Named CRC parameter sets but CRC-32: the theorems are over all parameters.
- Option parsing, logging, statistics, benchmarks, test programs and build scripts.
