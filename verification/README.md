# Drone telemetry pipeline: a verified model

The system moves telemetry records from drones to a ground process. A sender serializes a record into a framed packet
with a checksum; the packets travel as a byte stream that arrives in arbitrary chunks, possibly with noise and flipped
bits; a streaming parser finds the packets again; queues connect the threads. This project models the three parts with
the hard correctness questions and proves what they promise.

- **Checksum and packets** (`Crc16`, `Gf2Remainder`, `CheckValue`, `ShortFrames`, `TelemetryPacket`,
  `DroneDataSimulator`, `Corruption`). The 16-bit checksum is computed by nested loops over a machine word, and proved to
  be the remainder of a polynomial division over GF(2), affine in the message, able to see every burst of up to 16 bits,
  every odd number of flipped bits and, in frames of the lengths the parser takes, every one to three flipped bits; both
  bounds are tight. Reading a payload inverts writing it, and the other way round. For the simulator's single-bit
  corruption it is proved which flips can be accepted.
- **The streaming parser** (`Scanner`, `WireFormat`, `ParserModel`, `Cuts`, `SensorDataParser`,
  `StreamTheorems`, `ChunkInvariance`). The parser is a class whose methods update its fields as the source's do. Its
  invariant says that the whole state is a function of the bytes fed so far: it equals what a reference scanner without
  states finds in them. From that follow independence of chunking, soundness and completeness of acceptance, the exact
  moment of every decision, recovery after noise, exact accounting, the bound on kept bytes and the clean round trip. The
  decoded records do depend on the chunking; for which streams is proved exactly.
- **The lock-free queues** (`Bitmask`, `MpmcProtocol`, `MpmcQueue`, `SpscProtocol`, `SpscQueue`). Each protocol is a
  transition system with one step per atomic operation or data access; its invariant is proved for every step, and so
  for every interleaving. The classes carry out the same steps in place and follow the source's loops with arbitrary
  steps of the other threads in between.

What bytes mean on the wire is stated in literal bytes, numbers and offsets, apart from the model's own constants and
layout functions: by the serializer and the packet builder, by `TelemetryPacket.RecordFields` for reading, by
`WireFormat` for every verdict of the scanner, by `StreamTheorems.ValidFrame` for accepted frames, and by the contracts
of the parser's four states, which give every field of the machine after a step.

Conventions. A byte is `bv8`, the checksum word `bv16`, a double or 64-bit integer an opaque string of eight bytes in
one fixed byte order. Casts to a byte and to 16 bits are written out. A field `fed` (ghost) records all bytes the parser
was given, `arrived` (ghost) how many of them had arrived at each decoding, and two ghost counters count the headers
the search has found and the unknown types behind them. The queue states carry a history of claimed or completed
operations. Random draws of the simulator are parameters. The batches handed to the parser are arbitrary, so whatever
its input queue does is covered.

Findings, each stated exactly:

- A payload is decoded from a view that reaches to the end of the buffer. All ways to cut a stream into batches decode
  the same records if and only if every accepted frame is readable at the moment when it and the decisions in front of
  it have all their bytes, or not readable even at the end of the stream (`Cuts.CutsDoNotMatterIff`). Readable means
  that the id length plus 41 bytes are there; the bytes counted for a frame alone are its payload and the two checksum
  bytes behind it. A frame readable in these never depends on the cuts (`ChunkInvariance.ReadableSettles`). There are
  others (`ChunkInvariance.UnreadableFrame`); each of them begins a stream that two cuts decode differently
  (`ChunkInvariance.UnreadableDependsOnCuts`), though not every stream with such a frame does
  (`ChunkInvariance.LateFrame`).
- The multi-producer queue keeps its bound over all runs exactly for capacities of at least two
  (`MpmcProtocol.SafeIffTwoCells`); the source asks only for a power of two. With one cell a value is overwritten before
  anyone has popped it (`MpmcProtocol.SingleCellOverwrites`).
- The comments "Queue is full" and "Queue is empty" on a false result are not exact: in every ring of two or more cells
  a push can fail with a place free (`MpmcProtocol.PushFailsBelowCapacity`) and a pop can fail behind a completed push
  (`MpmcProtocol.PopFailsBehindPush`). A failed push is wrong about a full queue if and only if some thread is still
  reading the cell of the position one lap back (`MpmcProtocol.NoRoomBelowCapacityIff`), a failed pop about an empty one
  if and only if some thread is still writing the cell of the next position (`MpmcProtocol.NothingReadyNonemptyIff`).
- A built packet is accepted exactly when the id has at most 39 bytes (`StreamTheorems.BuiltPacketAccepted`).
- A packet with one flipped bit, from the length field on, can be accepted if and only if the bit is in the low length
  byte, is not the lowest one, and leaves a length in range (`Corruption.FlipAcceptedIff`): a longer length for the
  right bytes behind the packet, whatever the record (`Corruption.LengtheningFlip`), a shorter one for the right record,
  whatever follows (`Corruption.ShorteningFlipAcceptedIff`).

Where comments and code of the source disagree, the model follows the code: the header search goes on to the type byte
(the comment at src/SensorDataParser.cpp:139-141 says to the length), the least payload length is 40 (the comment at
line 243 says 30), and a wrong length drops both header bytes (the comment at lines 254-255 says everything in front of
the length field).

## Model

| member | source | states |
|---|---|---|
| Crc16.CalculateCrc16 | include/Generals.h:34-48 | The word computed by the byte and bit loops is, bit for bit, the register of a bit-serial division started from all ones |
| CheckValue.DigitsChecksum | include/Generals.h:34-48 | A known answer that fixes the order of bits and bytes: the checksum of the ASCII digits 1 to 9 is 0x29B1 and no other word |
| Gf2Remainder.ChecksumIsRemainder | include/Generals.h:34-48 | The checksum, and nothing else, is the remainder modulo x^16+x^12+x^5+1 of the message polynomial times x^16 with its first 16 coefficients flipped |
| Gf2Remainder.RemainderUnique | include/Generals.h:34-48 | Division by the generator leaves one remainder only |
| Crc16.ChecksumAffine | include/Generals.h:34-48 | The difference of two checksums is a linear function of the difference of the messages |
| Crc16.PassesIffZero | src/SensorDataParser.cpp:62-69 | Comparing calculated and received checksum is testing that the checksum of the whole frame is zero |
| Crc16.ChecksumAppended | src/DroneDataSimulator.cpp:70-73 | Appending the checksum, high byte first, makes any message pass the parser's test |
| Crc16.BurstDetected | src/SensorDataParser.cpp:62-69 | Two different frames of one length that differ only inside 16 consecutive bits never both pass, wherever the window lies |
| Crc16.ChecksumParity | include/Generals.h:34-48 | The checksum has the bit parity of the message |
| Crc16.OddErrorsDetected | src/SensorDataParser.cpp:62-69 | An odd number of flipped bits in message and checksum turns a passing frame into a failing one |
| Crc16.Sealed | src/DroneDataSimulator.cpp:70-73 | For every message there are two checksum bytes that make it pass |
| ShortFrames.NoReturn | include/Generals.h:39-45 | Behind a single one, 696 zero bits never bring the register to x^15, and no whole number of up to 87 zero bytes clears its high byte |
| ShortFrames.TwoErrorsDetected | src/SensorDataParser.cpp:62-69 | Two frames of at most 87 bytes that differ in exactly two bits never both pass |
| ShortFrames.FewErrorsDetected | src/SensorDataParser.cpp:62-69 | One, two or three flipped bits in a frame of any length the parser takes are detected |
| ShortFrames.GeneratorUndetected | src/SensorDataParser.cpp:62-69 | Both bounds are tight: to every passing frame and place there is a passing frame that differs in exactly four bits within 17 consecutive ones, those of the generator |
| DroneDataSimulator.SerializeTelemetryData | src/DroneDataSimulator.cpp:21-48 | By offsets, for an id of n bytes: id length cast to a byte at 0, id at 1, latitude, longitude, altitude, speed and time stamp in eight bytes each from n + 1 on, n + 41 bytes in all |
| DroneDataSimulator.BuildTelemetryPacket | src/DroneDataSimulator.cpp:50-76 | AA 55 01, the payload size modulo 65536 in two bytes, high byte first, the payload at offset 5, and two bytes with which the whole passes the parser's test |
| DroneDataSimulator.PacketFields | src/DroneDataSimulator.cpp:50-68 | Every packet of a record has these bytes at these offsets |
| TelemetryPacket.PacketUnique | src/DroneDataSimulator.cpp:50-76 | There is only one such packet for a record |
| TelemetryPacket.DeserializePayload | src/SensorDataParser.cpp:325-359 | Reading inverts writing, whatever bytes follow the payload, if and only if the id has fewer than 256 bytes |
| TelemetryPacket.PayloadFields | src/DroneDataSimulator.cpp:30-45 | Where each field of a record lies in its payload, by offsets |
| TelemetryPacket.RecordFields | src/SensorDataParser.cpp:325-359 | A view is decoded if and only if it has the first byte's value plus 41 bytes, and each field is taken from its offset |
| TelemetryPacket.SerializeDeserialized | src/DroneDataSimulator.cpp:21-48 | Writing inverts reading for every view that holds nothing but a payload |
| TelemetryPacket.DecodingIndependent | src/SensorDataParser.cpp:79 | What is decoded does not depend on the bytes behind the payload if and only if everything read lies inside it |
| DroneDataSimulator.StatisticPacketCorruption | src/DroneDataSimulator.cpp:98-116 | In place, exactly the drawn bit of the drawn byte flips when the draw is within the chance, and every other byte stays |
| DroneDataSimulator.FlippedBits | src/DroneDataSimulator.cpp:111 | The flip inverts one bit of the bit string that the checksum runs over, and names its index |
| DroneDataSimulator.FlipFails | src/DroneDataSimulator.cpp:111 | A passing frame with one flipped bit, anywhere, does not pass |
| Corruption.FlipRejected | src/SensorDataParser.cpp:60-106 | A built packet with a bit flipped behind the length field is a checksum error at its offset, whatever follows |
| Corruption.FewFlipsRejected | src/SensorDataParser.cpp:60-106 | So is any frame with one to three bits flipped behind the length field |
| Corruption.BurstRejected | src/SensorDataParser.cpp:60-106 | And any frame changed there only inside 16 consecutive bits |
| Corruption.HighLengthFlipRejected | src/SensorDataParser.cpp:244-258 | A built packet with a bit flipped in the high length byte is a structure error at its offset |
| Corruption.ShorteningFlip | src/SensorDataParser.cpp:241-312 | A flip in the low length byte to a smaller value is a structure error out of range; in range the shorter prefix decides, and after a flip of the lowest bit it never passes |
| Corruption.ShorteningFlipAcceptedIff | src/SensorDataParser.cpp:241-312 | For every payload size and every in-range shortening flip some record's packet is accepted, whatever follows, if and only if it is not the lowest bit |
| Corruption.LengtheningFlip | src/SensorDataParser.cpp:241-312 | A flip there to a larger value is a structure error out of range; in range some following bytes make the longer frame accepted if and only if it is not the lowest bit |
| Corruption.FlipAcceptedIff | src/DroneDataSimulator.cpp:104-111 | One flipped bit can be accepted, for some record and some bytes behind, if and only if it is in the low length byte, not the lowest bit, and leaves the length in range |
| Scanner.ClassifyExtends | src/SensorDataParser.cpp:187-312 | A decision about the bytes at an offset is never changed by bytes that arrive later |
| Scanner.ScanExtends | src/SensorDataParser.cpp:32-50 | Scanning a longer stream is scanning the shorter one and going on from where it stopped |
| Scanner.ScanSound | src/SensorDataParser.cpp:60-106 | Every decision is the right one at its offset, decisions are in order, and none overlaps an accepted frame |
| Scanner.ScanComplete | src/SensorDataParser.cpp:137-185 | Every header in front of the stop is decided at its own offset unless it lies inside an accepted frame: sliding loses nothing |
| Scanner.HeaderSlide | src/SensorDataParser.cpp:224-226 | Dropping both bytes of a rejected header skips no candidate, because the second one cannot start a header |
| Scanner.ResidualBounded | src/SensorDataParser.cpp:316-320 | What is kept back has at most 86 bytes unless a complete unhandled frame stands in front |
| Scanner.UnhandledAbsorbs | src/SensorDataParser.cpp:287-296 | Once a complete heart-beat or command frame stands in front, no later byte leads to any decision |
| Scanner.EveryEventCounted | src/SensorDataParser.cpp:195-228 | Every decision is counted as exactly one of packet, checksum error or structure error, and every known type once |
| WireFormat.NoHeaderIff | src/SensorDataParser.cpp:146-153 | No header starts here if and only if the first byte is not AA or the second is there and not 55 |
| WireFormat.UnknownTypeIff | src/SensorDataParser.cpp:191-230 | A header with an unknown type if and only if the third byte is there and none of 1, 2, 4 |
| WireFormat.BadLengthIff | src/SensorDataParser.cpp:238-258 | A length out of range if and only if a known type is followed by a big-endian value outside 40 to 80 |
| WireFormat.TelemetryIff | src/SensorDataParser.cpp:60-106 | Accepted, or a checksum error, if and only if a complete frame of type 1 passes, or does not |
| WireFormat.UnhandledIff | src/SensorDataParser.cpp:278-296 | The scan halts at a heart-beat or command frame if and only if a complete frame of type 2 or 4 stands here |
| WireFormat.IncompleteIff | src/SensorDataParser.cpp:187-311 | The scan waits if and only if the bytes are a proper prefix of a header or of a frame of known type and length in range |
| Scanner.PrefixDecides | src/SensorDataParser.cpp:187-278 | Every decision is made as early as it can be: n bytes bring the first m decisions if and only if no byte that these depend on lies behind |
| ParserModel.FollowsSlide | src/SensorDataParser.cpp:146-180 | The header search may skip bytes that start no header without losing its place in the reference scan |
| ParserModel.FollowsDecision | src/SensorDataParser.cpp:86-87 | Deciding the frame in front and advancing keeps step with the reference scan |
| ParserModel.FollowsRejection | src/SensorDataParser.cpp:224-226 | After a rejection, dropping one byte or both header bytes keeps step with the reference scan |
| ParserModel.MachineAfter | src/SensorDataParser.cpp:60-106 | What one decision does to every field of the machine: type, length, packets and the five counters |
| SensorDataParser.SensorDataParser.constructor | src/SensorDataParser.cpp:5-15 | A new parser is in the state of the empty stream |
| SensorDataParser.SensorDataParser.ProcessLoop | src/SensorDataParser.cpp:24-58 | After any sequence of batches the whole state is the summary of all their bytes in order, and the records of a fresh parser are those that the batches determine |
| SensorDataParser.SensorDataParser.ProcessBatch | src/SensorDataParser.cpp:29-51 | The same for one batch of chunks, in at most 4 * buffer + 4 iterations; new records are decoded from all bytes fed |
| SensorDataParser.SensorDataParser.ProcessAccumulatedData | src/SensorDataParser.cpp:118-323 | The loop ends where the reference scan stops, with a measure that falls at every change, and the erase keeps exactly the rest |
| SensorDataParser.SensorDataParser.RunState | src/SensorDataParser.cpp:131-314 | One iteration keeps step with the reference scan; the measure 4 * view + rank falls, or the scan has stopped here |
| SensorDataParser.SensorDataParser.AwaitHeader | src/SensorDataParser.cpp:137-185 | Stops at the least AA 55 and says so exactly if there is one; else keeps a trailing AA and nothing more; no other field changes |
| SensorDataParser.SensorDataParser.ExamineType | src/SensorDataParser.cpp:187-233 | Type bytes 1, 2 and 4 count and remember telemetry, heart-beat and command; every other byte counts a checksum error and drops two bytes; fewer than three bytes change nothing |
| SensorDataParser.SensorDataParser.ExamineLength | src/SensorDataParser.cpp:235-267 | Stores the big-endian length; inside 40 to 80 the payload is next, outside a structure error is counted and two bytes go; fewer than five bytes change nothing |
| SensorDataParser.SensorDataParser.TakeLength | src/SensorDataParser.cpp:241-264 | The decision on the length read: what is stored, counted and dropped, in step with the reference scan |
| SensorDataParser.SensorDataParser.ExaminePayload | src/SensorDataParser.cpp:269-312 | Acts exactly on a telemetry frame with all its length + 7 bytes; otherwise, heart-beat and command frames included, nothing changes |
| SensorDataParser.SensorDataParser.ProcessTelemetryPayload | src/SensorDataParser.cpp:60-106 | A passing frame is stored, decoded from byte 5 of the view on and jumped over; a failing one counts a checksum error and costs one byte; no other field changes |
| SensorDataParser.SameChecksum | src/SensorDataParser.cpp:62-69 | The word comparison of the code is the frame test of the theorems, both ways |
| StreamTheorems.AcceptsValidFrames | src/SensorDataParser.cpp:60-87 | A frame is accepted at an offset if and only if a well-formed telemetry frame begins there |
| StreamTheorems.AcceptanceSound | src/SensorDataParser.cpp:60-87 | After any run the accepted packets are ordered, pairwise disjoint pieces of the consumed bytes, each of 47 to 87 bytes, beginning AA 55 01, with a fitting length field and a passing checksum |
| StreamTheorems.AcceptanceComplete | src/SensorDataParser.cpp:86-100 | Every well-formed frame that begins among the consumed bytes is accepted unless an accepted one covers its start |
| StreamTheorems.RecoveryAfterNoise | src/SensorDataParser.cpp:89-105 | A packet behind noise is accepted, however many failed candidates reach into it, if 82 bytes follow the noise in all |
| StreamTheorems.RecoveryBoundTight | src/SensorDataParser.cpp:235-267 | With fewer than 82 bytes there is noise that keeps the parser waiting |
| StreamTheorems.BuiltPacketAccepted | src/DroneDataSimulator.cpp:50-76 | A built packet is accepted, whatever follows, if and only if the id has at most 39 bytes |
| StreamTheorems.BuiltPacketDecodes | src/SensorDataParser.cpp:325-359 | The payload of a built packet with an id below 256 bytes decodes to the record it was built from |
| StreamTheorems.CleanStream | src/SensorDataParser.cpp:118-323 | A stream of built packets comes out as exactly these packets, with nothing left over and no error counted |
| StreamTheorems.CleanRecords | src/SensorDataParser.cpp:79-80 | The records that come out of a clean stream are those that went in, in order |
| ChunkInvariance.SameBytesSameState | src/SensorDataParser.cpp:32-50 | Two parsers fed the same bytes agree in every field, and in the decoded records when every accepted frame is readable |
| ChunkInvariance.SameRecords | src/SensorDataParser.cpp:79-80 | Records of readable frames do not depend on when the bytes arrived |
| ChunkInvariance.FeedTwoWays | src/SensorDataParser.cpp:24-58 | Two fresh parsers fed two splittings of one stream end in the same state; their records are those of their splittings |
| Cuts.ArrivalsAre | src/SensorDataParser.cpp:79 | Every accepted frame has one arrival count, at which it is already accepted |
| Cuts.AcceptedWhenSettled | src/SensorDataParser.cpp:278-287 | A frame is accepted by n bytes if and only if it and the decisions in front of it depend on no later byte |
| Cuts.UnsettledDiffers | src/SensorDataParser.cpp:79 | A frame that does not settle is decoded differently from the whole stream and from the stream cut at that moment |
| Cuts.CutsDoNotMatterIff | src/SensorDataParser.cpp:32-50 | All cuts of a stream decode the same records if and only if every accepted frame settles |
| ChunkInvariance.CleanRun | src/SensorDataParser.cpp:24-58 | Built packets fed in any splitting yield exactly those packets and records, an empty buffer and no errors |
| ChunkInvariance.ReadableSettles | src/SensorDataParser.cpp:79 | A frame whose own payload and checksum bytes hold all that is read settles in every stream |
| ChunkInvariance.UnreadableDependsOnCuts | src/SensorDataParser.cpp:79 | For every other frame there is a stream that begins with it, and two cuts: under one its record is read past the end, under the other it is decoded |
| ChunkInvariance.LateFrame | src/SensorDataParser.cpp:278 | A frame that is not readable alone can settle all the same, behind a fragment that is waited for |
| ChunkInvariance.UnreadableFrame | src/SensorDataParser.cpp:79 | Such frames exist |
| ChunkInvariance.KeptBack | src/SensorDataParser.cpp:131-320 | Between calls the kept bytes agree with the state, type and length, and are fewer than a full frame unless nobody handles it |
| ChunkInvariance.Accounting | src/SensorDataParser.cpp:155-258 | Headers the search found = packets + checksum errors + structure errors + one if inside a frame; type counts = packets + (checksum errors - unknown types) + structure errors + one if the type is read and the fate open |
| ChunkInvariance.Halted | src/SensorDataParser.cpp:287-296 | Behind a complete heart-beat or command frame every later call only appends; records and counts stay |
| Bitmask.MaskIsRemainder | include/LockFreeSharedDataManager.h:128-144 | For a power-of-two capacity, masking a position is taking its remainder |
| Bitmask.MaskIsRemainderIff | include/LockFreeSharedDataManager.h:128-144 | Masking is taking the remainder for all positions if and only if the capacity is a power of two |
| MpmcQueue.MpmcQueue.constructor | include/LockFreeSharedDataManager.h:126-135 | For every power of two, cell i is ready for position i; the invariant holds if and only if there are at least two cells |
| MpmcQueue.MpmcQueue.Perform | include/LockFreeSharedDataManager.h:137-211 | Every atomic step, in place, is the step of the transition system and keeps the invariant |
| MpmcQueue.MpmcQueue.Push | include/LockFreeSharedDataManager.h:137-173 | Under any interference and any pattern of spurious failures: true means the value holds the one position this thread claimed during the call; false means it claimed none, and at some moment during the call the next cell was not released |
| MpmcQueue.MpmcQueue.Pop | include/LockFreeSharedDataManager.h:175-211 | Under the same: a value is the one pushed for the one position this thread claimed; false means it claimed none, and at some moment during the call nothing was published next |
| MpmcQueue.MpmcQueue.ClaimForPush | include/LockFreeSharedDataManager.h:142-165 | Lock-freedom of the retry loop: its rounds are at most one more than the spurious failures and the successful claims of the side during the call |
| MpmcQueue.MpmcQueue.TryPush | include/LockFreeSharedDataManager.h:144-164 | One round of it: the thread fails, claims one position, or goes on with a fresh one |
| MpmcQueue.MpmcQueue.ClaimForPop | include/LockFreeSharedDataManager.h:180-203 | The same bound for the retry loop of pop |
| MpmcQueue.MpmcQueue.TryPop | include/LockFreeSharedDataManager.h:182-202 | The same for one round of it |
| MpmcProtocol.InitInv | include/LockFreeSharedDataManager.h:126-135 | The lap invariant holds initially for every power of two from 2 on |
| MpmcProtocol.StepKeepsInv | include/LockFreeSharedDataManager.h:137-211 | Every atomic step of every thread keeps the lap invariant: each sequence is p or p+1 for the one current lap position p of its cell |
| MpmcProtocol.EveryRun | include/LockFreeSharedDataManager.h:137-211 | In every interleaving: dequeue <= enqueue <= dequeue + capacity, each position is claimed once per side, and every delivered value is the one its producer pushed |
| MpmcProtocol.ExecuteExtends | include/LockFreeSharedDataManager.h:151 | What was claimed stays claimed by the same thread with the same value over every further run |
| MpmcProtocol.StepClaims | include/LockFreeSharedDataManager.h:151-189 | A thread's claims grow by its own successful compare-and-swaps and by nothing else |
| MpmcProtocol.CellsExclusive | include/LockFreeSharedDataManager.h:167-171 | No two threads are in the data-access phase of one cell |
| MpmcProtocol.StepRefinesFifo | include/LockFreeSharedDataManager.h:137-211 | A push claim appends to a queue that is not full, a pop claim removes the head it will return, no other step changes the queue |
| MpmcProtocol.PushFailsIff | include/LockFreeSharedDataManager.h:144-158 | At its sequence load a push fails if and only if its position is the next one and the position one lap earlier is unreleased |
| MpmcProtocol.PopFailsIff | include/LockFreeSharedDataManager.h:182-196 | At its sequence load a pop fails if and only if its position is the next one and nothing is published there |
| MpmcProtocol.PushFailsBelowCapacity | include/LockFreeSharedDataManager.h:156-158 | In every ring of two or more cells a run reaches a push that fails with a place free |
| MpmcProtocol.PopFailsBehindPush | include/LockFreeSharedDataManager.h:194-196 | In every such ring a run reaches a pop that fails although a later push has completed |
| MpmcProtocol.NoRoomBelowCapacityIff | include/LockFreeSharedDataManager.h:156-158 | Without room the queue is below capacity if and only if some thread is reading or releasing the position one lap back |
| MpmcProtocol.NothingReadyNonemptyIff | include/LockFreeSharedDataManager.h:194-196 | With nothing ready the queue is nonempty if and only if some thread is writing or publishing the next position |
| MpmcProtocol.FullHasNoRoom | include/LockFreeSharedDataManager.h:156-158 | A full queue always has no room, whoever is in flight |
| MpmcProtocol.EmptyHasNothingReady | include/LockFreeSharedDataManager.h:194-196 | An empty queue always has nothing ready |
| MpmcProtocol.QuietNoRoomIffFull | include/LockFreeSharedDataManager.h:156-158 | With no access in flight, no room means exactly a full queue |
| MpmcProtocol.QuietNothingReadyIffEmpty | include/LockFreeSharedDataManager.h:194-196 | With no access in flight, nothing ready means exactly an empty queue |
| MpmcProtocol.QuietConservation | include/LockFreeSharedDataManager.h:167-209 | With no access in flight, every claimed value is delivered or lies in its cell, by position |
| MpmcProtocol.AheadMeansStale | include/LockFreeSharedDataManager.h:160-164 | A sequence ahead of the position means that another thread has moved the position on |
| MpmcProtocol.SafeIffTwoCells | include/LockFreeSharedDataManager.h:126-135 | The occupancy bound holds over all runs if and only if the capacity is at least two |
| MpmcProtocol.SingleCellOverwrites | include/LockFreeSharedDataManager.h:171-209 | With one cell, the second of two pushes in a row overwrites the first value, which nobody has popped |
| SpscQueue.SpscQueue.constructor | include/LockFreeSharedDataManager.h:16-20 | A new ring has one slot more than the capacity and satisfies the invariant |
| SpscQueue.SpscQueue.Perform | include/LockFreeSharedDataManager.h:22-103 | Every atomic step, in place, is the step of the transition system and keeps the invariant |
| SpscQueue.SpscQueue.Push | include/LockFreeSharedDataManager.h:22-41 | Under any consumer steps: true appends the value; false changes nothing and happens only if the ring was full at the call |
| SpscQueue.SpscQueue.Pop | include/LockFreeSharedDataManager.h:43-60 | Under any producer steps: delivers the oldest undelivered value; fails only if there was none at the call |
| SpscQueue.SpscQueue.PopAll | include/LockFreeSharedDataManager.h:62-103 | Under any producer steps: appends exactly the undelivered values pushed up to its tail load, in order, and returns their number |
| SpscProtocol.ApplyKeepsInv | include/LockFreeSharedDataManager.h:22-103 | Every step of either thread keeps the ring invariant |
| SpscProtocol.EveryRun | include/LockFreeSharedDataManager.h:22-103 | In every interleaving, delivered values, values in hand of a batch and ring contents are together what was pushed, in order, and the ring holds at most the capacity |
| SpscProtocol.AvailableCounts | include/LockFreeSharedDataManager.h:79-81 | The wrap-around formula counts the slots between head and tail |
| SpscProtocol.PushFailsIffFull | include/LockFreeSharedDataManager.h:26-32 | At its head load a push fails if and only if as many values as the capacity are undelivered |
| SpscProtocol.PopFailsIffEmpty | include/LockFreeSharedDataManager.h:49-52 | At its tail load a pop, single or batch, finds nothing if and only if everything pushed is delivered |
| SpscProtocol.WrittenSlotIsFree | include/LockFreeSharedDataManager.h:35 | The slot being written is none the consumer still has to take or has taken in a running batch |
| SpscProtocol.TakenSlotIsFull | include/LockFreeSharedDataManager.h:55-91 | The slot being read or moved out holds the next undelivered value: neither unwritten nor moved out |
| SpscProtocol.EveryBatchDrains | include/LockFreeSharedDataManager.h:88-96 | In every interleaving, all slots that a running batch has passed are moved out |
| SpscProtocol.BatchStoreRemoves | include/LockFreeSharedDataManager.h:98-102 | The one head store of a batch removes exactly the values it moved out, as many as were announced |
| SpscProtocol.StepRefinesFifo | include/LockFreeSharedDataManager.h:22-103 | The tail store appends to a queue that is not full, a head store removes the prefix that is returned, no other step changes the queue |

## Left out

- MpmcQueue.MpmcQueue.Perform: asks for the invariant, and so for at least two cells, because with one cell the protocol
  does not hold (`MpmcProtocol.SafeIffTwoCells`).
- MpmcProtocol.EveryRun: positions are unbounded and atomics sequentially consistent; the memory orders and the
  wrap-around of 64-bit positions are not modelled.
- SpscProtocol.EveryRun: atomics are sequentially consistent; memory orders are not modelled.
- MpmcQueue.MpmcQueue.Push: the other threads take finitely many steps during a call; its rounds are bounded by
  successful claims and spurious failures, not by a number of its own.
- TelemetryPacket.DeserializePayload: a read past the end of the buffer is undefined in the source; the model returns
  `None` and claims nothing about what the program does then.
- ChunkInvariance.Accounting: counters are unbounded; overflow of the source's `int` counters is not modelled.
- The meaning of latitude, longitude, altitude, speed and time stamp: they are opaque eight-byte patterns.
- src/DroneDataSensor.cpp and the sockets of src/DroneDataSimulator.cpp: network input is an arbitrary sequence of
  batches of chunks.
- The test traffic of `DroneDataSimulator::process_loop` and its random distributions.
- include/ThreadsSharedDataManager.h: mutex, condition variable and wake-up; any batching it can produce is covered.
- src/TelemetryDataProcessor.cpp: last-write map, time-out sweep and alerts would only add easy members.
- src/main.cpp, logging and print helpers.
