# Proofs about the LE Audio firmware

A model of the firmware's buffers, tables, protocols and PCM arithmetic in Dafny 4.11, with proofs of what they
are for. Check it with `dafny verify dfyconfig.toml`.

Each file holds one module. A module follows the C file named at its top: what the C code changes in place is a class
with the same fields and loops, proved against functions on values; what happens when several contexts run at once is a
state machine whose steps interleave freely, with theorems over all its runs.

| area | modules |
|---|---|
| machine words and positions in a ring | `Words`, `Ring` |
| the I2S sample ring, its interrupt handlers and the blocking calls | `SampleRing`, `SampleRace`, `StreamRace`, `I2sStream` |
| the frame ring, its statistics and callbacks | `FrameFifo`, `FrameRing`, `FrameRace` |
| advertising data: one builder, two parsers | `AdvData`, `AdvBuilder` |
| AT commands: two line editors, tokenizer, dispatcher, both together, hexadecimal arguments | `LineEditor`, `Tokenizer`, `AtParser`, `Terminal`, `HexArgument` |
| the GATT database, its configuration table and notifications | `CccdTable`, `GattDb` |
| connections in both of their tables | `Links` |
| audio streams and the resources they own | `StreamSlots` |
| encoded frames between the two cores | `FrameLink` |
| isochronous groups and their parameters | `CigParams`, `IsocGroups` |
| PCM conversion, gain, volume and mixing | `Pcm` |

## The assumptions of the model

- Memory is sequentially consistent, and `taskENTER_CRITICAL` sections and the queue operations of mtb-ipc are single steps.
- In `StreamRace` an interrupt handler runs between any two steps of the task, and the task does not run meanwhile. In
  `SampleRace` and `FrameRace` both sides interleave at every sample or byte.
- A FreeRTOS semaphore is a binary token. Time is a tick counter that may advance at any step; calls get their timeouts in
  ticks. The bound of `CallsEnd` on rounds needs finite timeouts to end within a turn of the 32-bit tick counter.
- Characters are unsigned, as on the target.
- Unsigned arithmetic wraps around at its C width. Signed overflow, which C leaves open, wraps around too.
- Nothing sets the field `current_timestamp` of a frame buffer, so it is zero: frames without metadata get the time zero,
  and latencies count from there.
- An endless wait for a semaphore ends, since the hardware interrupts a running stream.
- Results of hardware, controller, codec, allocator and command handlers are parameters of the calls.

## Where the code is not what one expects

Each of these is kept in the model, with the exact condition under which the expected property holds.

- `audio_apply_gain` overflows above 101 dB (`Pcm.GainExact`); attenuating and amplifying again is lossy in exactly the
  low bits only below a factor of 2^16 (`Pcm.AttenuateThenAmplify`).
- A name of 256 bytes or more is cut to its length modulo 256 (`AdvBuilder.NameRoundTrip`). A structure added with a
  length but no data pointer swallows what follows (`AdvData.RawRoundTrip`). A list of more than 127 UUIDs leaves the
  array unless its wrapped length is refused, and an empty builder refuses no such number but 255
  (`AdvBuilder.UuidsStayInside`).
- SDU intervals are cut to 24 bits (`CigParams.ReadPayload`).
- The link table takes an empty slot for a connection with the id zero (`Links.StepGood`). It keeps two links where the
  GATT database keeps four (`Links.PartAtThird`), and the database holds a connection as often as it is reported
  (`Links.HeldIsBalance`, `Links.TwiceUpStays`).
- `num_active_big` does not count the groups created as source, but their end is counted (`IsocGroups.BigRunGood`).
- `audio_task_deinit` passes over stopped streams; the next initialisation forgets what they own
  (`StreamSlots.RestartLosesStopped`).
- The erasing character does not undo a character that was dropped for lack of room (`LineEditor.EraseUndoes`).
  The echo of a backspace moves the cursor twice, so a terminal shows a wrong line (`LineEditor.EchoShowsLine`).
- The latency statistics add up minus the timestamps, since the clock of the buffer stands still
  (`FrameFifo.LatencyIsMinusTimes`).
- `at_parse_hex` is documented to read hexadecimal digits, and also reads pairs with a space or a sign
  (`HexArgument.PrintOfPair`).
- A write to a configuration descriptor reports success whether or not it takes effect: it does exactly if the table knows
  the descriptor on this connection or has room, or if the value is zero (`GattDb.Db.HandleWriteRequest`). With four
  links it does in every run exactly if there are at most 32 descriptors (`GattDb.WritesTakeEffect`), in general exactly
  if links and descriptors make at most 128 pairs (`CccdTable.RoomIsExact`); a database with 33 descriptors is reachable
  (`GattDb.OverflowReachable`).
- Only writes and reads of the frame buffer call back when the level crosses a watermark; commits, skips, discards and
  resets cross it silently (`FrameFifo.WatermarksAreTold`). A commit does not count for the peak level either
  (`FrameFifo.PeakIsHighest`), nor for overruns when it is refused (`FrameRing.AudioBuffer.CommitWrite`).

## Model

| member | source | states |
|---|---|---|
| `SampleRing.RingBuffer.Init` | source/audio/i2s_stream.c:200-213 | a ring needs memory and a size above zero, and starts empty |
| `SampleRing.RingBuffer.Available` | source/audio/i2s_stream.c:271-277 | the number of samples waiting |
| `SampleRing.RingBuffer.Free` | source/audio/i2s_stream.c:279-285 | the room left: size less the samples waiting |
| `SampleRing.RingBuffer.Clear` | source/audio/i2s_stream.c:287-294 | forgets what waits |
| `SampleRing.RingBuffer.Write` | source/audio/i2s_stream.c:215-241 | takes as many samples from the front of the data as fit, appends them in order, and touches nothing outside the ring |
| `SampleRing.RingBuffer.CopyIn` | source/audio/i2s_stream.c:229-233 | the copy loop appends exactly the samples at the data pointer, without publishing them |
| `SampleRing.RingBuffer.Read` | source/audio/i2s_stream.c:243-269 | returns the oldest samples in order, as many as wanted and waiting, removes exactly these, and writes nowhere else in the caller's array |
| `SampleRing.RingBuffer.CopyOut` | source/audio/i2s_stream.c:257-261 | the copy loop takes exactly the oldest samples, without giving their slots back |
| `SampleRace.StepInv` | source/audio/i2s_stream.c:215-285 | every step of a writer and a reader, between any two samples, keeps the invariant: head and tail are `count` plus the samples stored and taken on the way apart, and the slots between hold the unread samples in order |
| `SampleRace.RunInv` | source/audio/i2s_stream.c:215-285 | the same over every interleaving |
| `SampleRace.ReadsArePrefixOfWrites` | source/audio/i2s_stream.c:215-285 | in every run since a clear the samples read are a prefix of the samples written, and `count` is the difference and at most the size |
| `SampleRace.StepsKeepApart` | source/audio/i2s_stream.c:229-261 | in every run the writer never stores into a slot with an unread sample, and the reader never takes a sample of an unfinished write |
| `SampleRace.WriteAloneMovesAll` | source/audio/i2s_stream.c:215-241 | a write left alone ends, moves what fits, and does so also while a read stands still half way |
| `SampleRace.ReadAloneMovesAll` | source/audio/i2s_stream.c:243-269 | a read left alone ends and returns the next unread samples |
| `StreamRace.StepInv` | source/audio/i2s_stream.c:350-470 | every step of the calls, the interrupt handlers, starting and stopping keeps the ring invariant, the shape of the calls, the history of blocks and the counters |
| `StreamRace.RunInv` | source/audio/i2s_stream.c:350-470 | the same over every run |
| `StreamRace.PlayedIsPrefixOfWritten` | source/audio/i2s_stream.c:350-394 | end to end: the blocks of the TX handler without their padding, joined, are a prefix of the accepted parts of all finished writes since the start and of the one in progress, each of which is the front of its caller's buffer; each block is such samples and then only zeros; the counters are the numbers of blocks and of padded blocks modulo 2^32 |
| `StreamRace.ReadIsPrefixOfReceived` | source/audio/i2s_stream.c:412-460 | end to end: what the finished reads since the start and the one in progress moved is a prefix of what the RX handler queued, from blocks that hold the words of the hardware FIFO and then only zeros; the overrun counter is the number of blocks that were cut modulo 2^32 |
| `StreamRace.CallsEnd` | source/audio/i2s_stream.c:848-928 | between two rounds of a blocking call that move samples at most one wake-up finds nothing to move; a call, endless or with a finite timeout that lasts less than a turn of the tick counter, makes at most two rounds for each sample and three more; a wait with a finite timeout ends when the timeout is used up |
| `StreamRace.NothingIsStuck` | source/audio/i2s_stream.c:823-931 | in every run the handler can go on while it runs and otherwise may begin while the stream is on, and a call can go on unless it waits without a semaphore and its time has not come |
| `StreamRace.NoLostWakeUp` | source/audio/i2s_stream.c:445-466 | a blocked call that could move a sample has its semaphore given, whenever no handler is running |
| `StreamRace.ShortOnlyAfterTimeout` | source/audio/i2s_stream.c:848-928 | in every run every finished call moved at most what was wanted, and less only if its timeout was not endless and was used up |
| `StreamRace.EarlyReturn` | source/audio/i2s_stream.c:848-928 | a round is the last exactly if all samples are moved, the timeout is zero, or it is used up; after a timed-out wait it is |
| `I2sStream.PingPong.Swap` | source/audio/i2s_stream.c:334-339 | the block that the handler has just filled is the one played next, and it gets the other one to fill |
| `I2sStream.TxStream.Start` | source/audio/i2s_stream.c:756-791 | a start of a stopped stream empties ring, counters and DMA buffers, and leaves it running exactly if the hardware starts; of a running one does nothing; before initialisation it fails; none touches the semaphore |
| `I2sStream.TxStream.Stop` | source/audio/i2s_stream.c:793-809 | a stop keeps what waits in the ring |
| `I2sStream.TxStream.Isr` | source/audio/i2s_stream.c:350-405 | the handler fills the inactive DMA buffer with the oldest samples and then zeros, makes it active, counts the block and an underrun exactly if there were too few samples, and gives the semaphore; a stopped stream is left alone |
| `I2sStream.TxStream.Wait` | source/audio/i2s_stream.c:925-927 | a wait ends with the semaphore taken or at its deadline, an endless one with the semaphore taken; a fresh semaphore means that there is room |
| `I2sStream.TxStream.Write` | source/audio/i2s_stream.c:878-931 | refused exactly for a missing initialisation, buffer or size, or a stream that does not run; otherwise a write accepts exactly the first samples of the buffer, at least those that had room when it was called, without waiting if all had, fewer than wanted only when its finite timeout is used up, everything with an endless one, and with a zero timeout exactly what had room |
| `I2sStream.TxStream.WriteLoop` | source/audio/i2s_stream.c:901-928 | the loop ends, by a rank that falls in each round that moves nothing |
| `I2sStream.RxStream.Start` | source/audio/i2s_stream.c:756-791 | a start of a stopped stream empties ring and counters, and leaves it running exactly if the hardware starts; of a running one does nothing; before initialisation it fails |
| `I2sStream.RxStream.Stop` | source/audio/i2s_stream.c:793-809 | a stop keeps what waits in the ring |
| `I2sStream.RxStream.Isr` | source/audio/i2s_stream.c:412-470 | the handler fills the inactive DMA buffer from the hardware FIFO and then with zeros, queues as much of it as fits, and counts the block and an overrun exactly if something did not fit |
| `I2sStream.RxStream.Wait` | source/audio/i2s_stream.c:870-872 | a wait ends with the semaphore taken or at its deadline, an endless one with the semaphore taken; a fresh semaphore means that samples wait |
| `I2sStream.RxStream.Read` | source/audio/i2s_stream.c:823-876 | refused exactly as a write; otherwise a read returns exactly the oldest samples, at least those that waited when it was called, without waiting if they were enough, fewer than wanted only when its finite timeout is used up, everything with an endless one, and with a zero timeout exactly what waited; the rest of the buffer stays |
| `I2sStream.RxStream.ReadLoop` | source/audio/i2s_stream.c:846-873 | the loop ends, by a rank that falls in each round that moves nothing |
| `I2sStream.Drain` | source/audio/i2s_stream.c:427-436 | a DMA buffer after draining the FIFO: its samples and then zeros |
| `FrameFifo.ApplyValid` | source/audio/audio_buffers.c:182-245 | every operation keeps the queue within `depth` and frames within their size |
| `FrameFifo.WriteCodes` | source/audio/audio_buffers.c:182-361 | the answer to a write or a commit is Ok exactly if the queue grew, by exactly this frame with the stated metadata; Full exactly if a frame of a valid size met `depth` queued frames; otherwise it tells a wrong size; what is not accepted changes nothing but the overruns |
| `FrameFifo.ReadCodes` | source/audio/audio_buffers.c:363-580 | the answer to a read, a committed read or a skip is Ok exactly if a frame was queued, and then the oldest is gone; otherwise Empty, and nothing changes but the underruns |
| `FrameFifo.ResetsApart` | source/audio/audio_buffers.c:150-166 | a reset empties the queue and restarts the numbers and keeps the statistics; a reset of the statistics makes them zero and keeps the queue |
| `FrameFifo.RunBalanced` | source/audio/audio_buffers.c:182-245 | over every run of operations the frames accepted since the last statistics reset, with those carried over, are those removed and those queued, in order, and the statistics count frames and bytes |
| `FrameFifo.Conservation` | source/audio/audio_buffers.c:150-412 | in every run, modulo 2^32: frames written plus those queued at the last statistics reset are frames read plus the level plus the frames skipped, discarded and reset; bytes written plus those carried over are bytes read plus bytes queued plus the bytes of such frames and of the ends that short reads cut off; the peak level is at most `depth` |
| `FrameFifo.AnswersAreCounted` | source/audio/audio_buffers.c:182-412 | in every run since the last reset of the statistics: as many writes and commits were answered with Ok as frames were accepted, overruns are the full writes and underruns the empty reads, modulo 2^32 |
| `FrameFifo.LatencyIsMinusTimes` | source/audio/audio_buffers.c:395-401 | in every run the latency statistics are the number of valid frames read while tracking and minus the sum of their timestamps, modulo 2^32 |
| `FrameFifo.PeakIsHighest` | source/audio/audio_buffers.c:182-361 | in every run the peak level is the largest level that an accepted write left since the last reset of the statistics, and zero without one; commits do not count for it |
| `FrameFifo.WatermarksAreTold` | source/audio/audio_buffers.c:1044-1059 | in every run the watermark callbacks are all crossings of the watermarks, in order, exactly if no operation other than a write or a read crosses one |
| `FrameFifo.CallbacksAtMark` | source/audio/audio_buffers.c:1044-1059 | a callback reports its own watermark and no other level |
| `FrameFifo.ReportsAreExact` | source/audio/audio_buffers.c:1044-1059 | a callback happens exactly at a write or a read that takes the level from below the high watermark to it or above, or from above the low one to it or below |
| `FrameFifo.HighsApart` | source/audio/audio_buffers.c:1044-1052 | between two reports of the high watermark the level has been below it |
| `FrameFifo.DiscardIsLongest` | source/audio/audio_buffers.c:700-717 | a discard removes only older frames, and the first that it keeps is not older |
| `FrameRing.AudioBuffer.Make` | source/audio/audio_buffers.c:73-131 | a buffer exists exactly for a frame size above zero and 1 to 32 frames, and starts empty |
| `FrameRing.AudioBuffer.GetLevel` | source/audio/audio_buffers.c:582-588 | the number of queued frames |
| `FrameRing.AudioBuffer.GetSpace` | source/audio/audio_buffers.c:590-596 | level and space are `depth` |
| `FrameRing.AudioBuffer.IsFull` | source/audio/audio_buffers.c:574-580 | full exactly with `depth` frames queued |
| `FrameRing.AudioBuffer.IsEmpty` | source/audio/audio_buffers.c:566-572 | empty exactly with none queued |
| `FrameRing.AudioBuffer.CheckThresholds` | source/audio/audio_buffers.c:1044-1059 | the high callback exactly when the level rises to its threshold, the low callback exactly when it falls to its one, each with the new level |
| `FrameRing.AudioBuffer.Write` | source/audio/audio_buffers.c:182-246 | does to the queue what a bounded FIFO does: full, too long and empty frames are refused with their codes and counters, any other is appended with its metadata, statistics and callbacks |
| `FrameRing.AudioBuffer.CommitWrite` | source/audio/audio_buffers.c:319-357 | the same for a frame whose bytes are in the entry already |
| `FrameRing.AudioBuffer.Read` | source/audio/audio_buffers.c:363-412 | returns the oldest frame, cut to the caller's room, with its own metadata, removes exactly this frame, and counts it |
| `FrameRing.AudioBuffer.CommitRead` | source/audio/audio_buffers.c:495-514 | removes exactly the oldest frame and counts all its bytes |
| `FrameRing.AudioBuffer.Peek` | source/audio/audio_buffers.c:516-545 | returns what a read would and changes nothing |
| `FrameRing.AudioBuffer.Skip` | source/audio/audio_buffers.c:547-560 | removes the oldest frame without counting it as read |
| `FrameRing.AudioBuffer.DiscardBefore` | source/audio/audio_buffers.c:700-717 | removes exactly the longest front of frames older than the time, and returns its length |
| `FrameRing.AudioBuffer.ResetStats` | source/audio/audio_buffers.c:638-646 | the statistics start again, the queue stays |
| `FrameRing.AudioBuffer.Reset` | source/audio/audio_buffers.c:150-166 | the queue is empty and sequence numbers start again; the statistics stay |
| `FrameRing.AudioBuffer.GetBytes` | source/audio/audio_buffers.c:606-622 | the sum of the lengths of the queued frames |
| `FrameRace.StepInv` | source/audio/audio_buffers.c:182-580 | every step of one writing context (writes with metadata or without, commits of what was filled in place) and one reading context (reads, committed reads, skips, discards), between checks, bytes, fields of the metadata, index moves, counters and measured levels, keeps the invariant of the ring |
| `FrameRace.RunInv` | source/audio/audio_buffers.c:182-580 | the same over every interleaving |
| `FrameRace.DeliversPrefix` | source/audio/audio_buffers.c:182-717 | in every interleaving frames leave in the order in which they were asked for, each once: what a read returns is the frame at its place with its own metadata, or if it came without with the default ones and a number that counts the frames, and with as many bytes as the reader had room for; what is discarded was older than the given time; at most `depth` frames are queued |
| `FrameRace.WriteAloneEnds` | source/audio/audio_buffers.c:182-361 | a write or a commit of a valid size that finds room and is left alone ends with its frame behind all others; a write has measured the level once, a commit has not |
| `FrameRace.ReadAloneEnds` | source/audio/audio_buffers.c:363-717 | a read, a committed read or a skip that finds a frame and is left alone takes exactly one out, in its way; a discard takes out older frames only and stops at one that is not older or when there is none |
| `FrameRace.CountersBalance` | source/audio/audio_buffers.c:182-580 | in every interleaving, between calls and modulo 2^32: frames written are frames read plus the frames queued, skipped and discarded, and bytes written and read are those asked for and returned; no level measured for the peak or a callback is above `depth` |
| `FrameRace.ChecksAreExact` | source/audio/audio_buffers.c:182-717 | a write is refused exactly if `depth` frames are queued at its check, a reading operation finds nothing exactly if none is, a discard ends exactly there or at a frame that is not older; a measured level is the number of frames queued at that moment |
| `AdvData.ParseSerialized` | source/bluetooth/gap_config.c:132-153 | what follows serialised structures is parsed as if it stood alone |
| `AdvData.ParseOfSerialize` | source/bluetooth/gap_config.c:132-153 | parsing serialised structures returns them, up to the room for elements |
| `AdvData.SerializeOfParse` | source/bluetooth/gap_config.c:132-153 | serialising what was parsed from any bytes gives back the bytes that were consumed, and parsing stops only for lack of room or of a complete structure |
| `AdvData.ParseIsUnique` | source/bluetooth/bt_init.c:350-371 | no other list of structures has these properties, so two parsers that have them agree |
| `AdvData.ExtendFits` | source/bluetooth/gap_config.c:1326-1342 | an addition fits exactly if header and data stay within the limit, and changes nothing otherwise |
| `AdvData.BuildRoundTrip` | source/bluetooth/gap_config.c:1326-1548 | the bytes of a builder session never exceed its limit and parse to exactly the structures it accepted |
| `AdvData.RawRoundTrip` | source/bluetooth/gap_config.c:1517-1537 | whatever follows: with its data, or if they are empty, such a structure comes back and so does what follows; a header without its data swallows as many of the bytes that follow, and if there are too few the parser stops in front of it |
| `AdvData.LocatedAt` | source/bluetooth/gap_config.c:146-148 | element i of the elements of some structures has the type and length of structure i, and its pointer is behind the bytes of the structures before it and its own header |
| `AdvData.ElementsPointToData` | source/bluetooth/gap_config.c:146-148 | the bytes at the pointer of an element are the data of its structure |
| `AdvBuilder.Builder.constructor` | source/bluetooth/gap_config.c:1305-1314 | a builder starts empty, with a limit of at most 254 bytes |
| `AdvBuilder.Builder.Clear` | source/bluetooth/gap_config.c:1316-1324 | forgets the bytes and keeps the limit |
| `AdvBuilder.Builder.AddFlags` | source/bluetooth/gap_config.c:1326-1342 | appends a flags structure, exactly if it fits; otherwise nothing changes |
| `AdvBuilder.Builder.AddName` | source/bluetooth/gap_config.c:1344-1363 | appends a complete-name structure with the name cut to its length modulo 256, exactly if it fits |
| `AdvBuilder.Builder.AddShortName` | source/bluetooth/gap_config.c:1365-1384 | the same for a short name |
| `AdvBuilder.Builder.AddBroadcastName` | source/bluetooth/gap_config.c:1496-1515 | the same for a broadcast name |
| `AdvBuilder.Builder.AddUuid16` | source/bluetooth/gap_config.c:1386-1410 | appends the list of UUIDs, low bytes first, as complete or incomplete, exactly if it is not empty and fits; more than 127 are refused where the wrapped length check refuses them |
| `AdvBuilder.Builder.AddServiceData` | source/bluetooth/gap_config.c:1412-1434 | appends the header, the UUID and the data, if there is a pointer to them, exactly if header and data fit |
| `AdvBuilder.Builder.AddManufacturerData` | source/bluetooth/gap_config.c:1471-1494 | appends the header, the company and the data, if there is a pointer to them, exactly if header and data fit |
| `AdvBuilder.Builder.AddAppearance` | source/bluetooth/gap_config.c:1436-1452 | appends the appearance, exactly if it fits |
| `AdvBuilder.Builder.AddTxPower` | source/bluetooth/gap_config.c:1454-1469 | appends the power as a signed byte, exactly if it fits |
| `AdvBuilder.Builder.AddRaw` | source/bluetooth/gap_config.c:1517-1537 | appends a header and the data, if there is a pointer to them, exactly if header and data fit |
| `AdvBuilder.UuidsStayInside` | source/bluetooth/gap_config.c:1395-1407 | the C loop stays inside the array exactly for at most 127 UUIDs, or if the wrapped length check refuses them; an empty builder with all its room accepts every number but 127 and 255 |
| `AdvBuilder.NameRoundTrip` | source/bluetooth/gap_config.c:1344-1363 | a name comes back with its length modulo 256, so whole exactly if it is shorter than 256 bytes |
| `AdvBuilder.WordsRoundTrip` | source/bluetooth/gap_config.c:1404-1407 | a reader of words, low byte first, gets the UUIDs of a list back |
| `AdvBuilder.ParseGap` | source/bluetooth/gap_config.c:132-153 | the elements are exactly those of the structures of the bytes, by type, length and pointer, without uint8 wrap of the offset; the other elements stay |
| `AdvBuilder.ParseBt` | source/bluetooth/bt_init.c:350-371 | the second parser meets the same contract, pointers included |
| `AdvBuilder.ParseBoth` | source/bluetooth/bt_init.c:350-371 | called on the same bytes, both parsers return the same count and the same elements, pointers included, on every input |
| `AdvBuilder.BuildDefault` | source/bluetooth/bt_init.c:710-739 | at most 31 bytes, which parse to exactly a flags element and the name cut to 25 bytes; the scan response is the transmit power |
| `AdvBuilder.DefaultBytes` | source/bluetooth/bt_init.c:710-739 | these bytes, written out |
| `LineEditor.SubmittedAreClean` | source/cdc/at_parser.c:97-138 | whatever is typed, submitted lines are not empty, printable and at most 255 characters long |
| `LineEditor.TypedLinesArrive` | source/cdc/at_parser.c:97-138 | typing printable lines, each ended by carriage returns or line feeds, submits exactly these lines |
| `LineEditor.EraseUndoes` | source/cdc/at_parser.c:119-137 | an erasing character undoes the printable one before it exactly if that one had room |
| `LineEditor.EchoShowsLine` | source/cdc/at_parser.c:103-137 | a terminal that shows the line in front of its cursor shows the new line after the echo, exactly unless the character was dropped for lack of room or is a backspace in a line of at least two characters, which moves the cursor twice |
| `LineEditor.AtEditor.ProcessChar` | source/cdc/at_parser.c:97-138 | the buffer does to the line what the fold does: append while there is room, erase, submit if not empty; and what it echoes |
| `LineEditor.CdcEditor.ProcessRxChar` | source/cdc/cdc_acm.c:421-461 | the second editor does the same, and counts lines and overflows |
| `LineEditor.CdcEditor.ProcessLine` | source/cdc/cdc_acm.c:466-484 | submits the line and starts a new one |
| `LineEditor.TypeIntoBoth` | source/cdc/cdc_acm.c:421-484 | both editors, given the same characters, show the same line and submit the same lines, those of the fold |
| `Tokenizer.TokensOfPrint` | source/cdc/at_parser.c:544-593 | the tokenizer undoes a printer that writes each argument in quotes or plain and puts commas between them, up to the limit on arguments |
| `Tokenizer.TokensOfPrintFrom` | source/cdc/at_parser.c:544-593 | the same from the middle of a line, after separators |
| `Tokenizer.TokensOfSpread` | source/cdc/at_parser.c:538-592 | the same for arguments with any spaces, tabs and commas between them, of which a quoted argument needs none behind it |
| `Tokenizer.NextArgument` | source/cdc/at_parser.c:560-589 | cuts one argument, quoted or not, in place, and moves behind it |
| `Tokenizer.Tokenize` | source/cdc/at_parser.c:544-593 | in place: each pointer returned points to the NUL-terminated text of the argument that the specification finds, and none is missing |
| `AtParser.LookupIsFirst` | source/cdc/at_parser.c:505-537 | the lookup finds the first entry whose name is equal but for the case of ASCII letters, in the order of the tables, and fails only without one |
| `AtParser.MatchesIsNamed` | source/cdc/at_parser.c:515-530 | an entry matches exactly if both names, cut to 31 characters, are equal or differ only in the case of ASCII letters |
| `AtParser.CaseDoesNotMatter` | source/cdc/at_parser.c:374-410 | a line whose prefix and name are written in another case calls the same handler with the same arguments and gets the same answer |
| `AtParser.PlainLines` | source/cdc/at_parser.c:374-440 | in any case: AT is answered with OK; ATI calls the exec handler of the first entry I and passes on its success; any other line without a name behind a plus sign is refused |
| `AtParser.OneFinalReply` | source/cdc/at_parser.c:140-157 | every line that is not blank gets exactly one final reply, as the last thing sent, positive exactly if the result is OK; at most one handler is called, of an entry of the tables |
| `AtParser.ExecuteSettled` | source/cdc/at_parser.c:359-500 | the same for the executed part of a line |
| `AtParser.NameArrives` | source/cdc/at_parser.c:359-444 | a line with a name of at most 28 characters is dispatched to the first entry of this name in any case, or answered as unknown |
| `AtParser.CommandArrives` | source/cdc/at_parser.c:359-500 | a command with arguments, quoted or plain, calls the exec handler of the first matching entry with exactly the first 16 of them, and the reply is the handler's, exactly if the entry has one and takes so many; otherwise nothing is called and the reply says why |
| `AtParser.ShortCommandsArrive` | source/cdc/at_parser.c:416-500 | the same for a bare command, a query (which the exec handler may answer) and a test (which has a default answer) |
| `AtParser.Parser.RegisterCommands` | source/cdc/at_parser.c:80-95 | appends a table that is not empty while there are fewer than eight |
| `AtParser.Parser.FindCommand` | source/cdc/at_parser.c:505-537 | the double loop finds what the lookup specifies |
| `AtParser.Parser.Serve` | source/cdc/at_parser.c:454-500 | calls the handler that is there for the request, checks the numbers of arguments, and answers as specified |
| `AtParser.Parser.Split` | source/cdc/at_parser.c:450-452 | the arguments of a line are those of the tokenizer |
| `AtParser.Parser.ParseAndExecute` | source/cdc/at_parser.c:359-500 | the calls made and replies sent for a line are those specified |
| `AtParser.Parser.ProcessLine` | source/cdc/at_parser.c:140-157 | blanks are skipped, an empty line does nothing, a parser that is not initialised refuses |
| `Terminal.TypingIsAnswered` | source/cdc/at_parser.c:97-157 | whatever is typed, there is exactly one final reply for each submitted line that is not blank, at most that many handlers are called, and they belong to entries; the lines are clean |
| `Terminal.TypedCommandsArrive` | source/cdc/at_parser.c:97-157 | typing commands with their arguments, each ended by returns or line feeds, submits one line for each, and each calls the exec handler of the first entry of its name with these arguments or is refused for the stated reason, in order |
| `Terminal.TypeAllProcesses` | source/cdc/at_parser.c:97-138 | calls and replies for a sequence of characters are those of the lines that they submit |
| `Terminal.TypeChar` | source/cdc/at_parser.c:97-138 | a character goes to the editor, and a line that it ends is processed at once |
| `Terminal.Type` | source/cdc/at_parser.c:97-138 | a whole input: the editor shows what the characters come to, and the parser has processed exactly the lines that they submitted; before initialisation nothing happens |
| `HexArgument.ParseOfPrint` | source/cdc/at_parser.c:268-300 | bytes printed in hexadecimal of either case, with or without a prefix, come back, up to the room for them |
| `HexArgument.PrintOfPair` | source/cdc/at_parser.c:289-297 | a pair of characters is what its byte prints as exactly if it is two upper-case digits; pairs with a space or a sign are read as well |
| `HexArgument.PairsRead` | source/cdc/at_parser.c:289-297 | a pair is read exactly if it ends in a hexadecimal digit and starts with one, white space or a sign; the sign minus makes the byte wrap around |
| `HexArgument.ParseHex` | source/cdc/at_parser.c:268-300 | the number of bytes read, which are those of the pairs, or -1; nothing is written past them |
| `CccdTable.KeysFill` | source/bluetooth/gatt_db.c:982-994 | distinct slots: the table is full exactly if it maps 128 keys |
| `CccdTable.Table.Find` | source/bluetooth/gatt_db.c:970-980 | finds an entry exactly if the map has the key, and it holds the mapped value |
| `CccdTable.Table.Get` | source/bluetooth/gatt_db.c:582-589 | the mapped value, or zero |
| `CccdTable.Table.Alloc` | source/bluetooth/gatt_db.c:982-994 | takes a slot that was free, exactly if there is one, and keeps keys distinct |
| `CccdTable.Table.Set` | source/bluetooth/gatt_db.c:591-611 | updates the map at this key and nowhere else; fails only for a new key in a full table |
| `CccdTable.Table.Clear` | source/bluetooth/gatt_db.c:613-621 | erases exactly the keys of this connection |
| `CccdTable.PairsCount` | source/bluetooth/gatt_db.c:90 | as many pairs as connections times handles |
| `CccdTable.LiveSince` | source/bluetooth/gatt_db.c:437-478 | a connection counts as live exactly if an event brought it up and none after that took it down |
| `CccdTable.NeverFull` | source/bluetooth/gatt_db.c:591-611 | pigeonhole: with at most 128 pairs of a connection and a handle there is a slot for every key of theirs |
| `CccdTable.RunHolds` | source/bluetooth/gatt_db.c:582-621 | after every run with at most 128 pairs of a live connection and a handle the table holds entries of live connections only, and what was last configured |
| `CccdTable.TableIsMap` | source/bluetooth/gatt_db.c:582-621 | in such a run no write fails, and every read returns what this client last wrote on this connection since it last went down, or zero |
| `CccdTable.TableOverflows` | source/bluetooth/gatt_db.c:591-611 | for any number of links and handles that make more than 128 pairs there is a run in which 128 writes succeed and the next one is lost, so that its notification bit stays off |
| `CccdTable.RoomIsExact` | source/bluetooth/gatt_db.c:591-611 | no write fails in any run over so many links and these handles, exactly if they make at most 128 pairs |
| `GattDb.CharConsistent` | source/bluetooth/gatt_db.c:865-913 | adding a characteristic keeps handle = index + 1 and every link to a descriptor right, keeps all earlier attributes, and fits exactly with room for two attributes; it has a descriptor exactly with room for three |
| `GattDb.ServiceConsistent` | source/bluetooth/gatt_db.c:298-347 | adding a service keeps the database consistent and every earlier attribute, so handles are never reused, also if it fails half way |
| `GattDb.CharLaid` | source/bluetooth/gatt_db.c:865-913 | with room, a characteristic takes two attributes or three: a declaration, the value with the caller's UUID, properties, permissions, length and callback, linked to a descriptor behind it exactly if one was asked for |
| `GattDb.CharsLaid` | source/bluetooth/gatt_db.c:320-344 | with room for all, the characteristics stand one behind the other, so the handle of the k-th value is the first handle plus the sizes before it |
| `GattDb.ServiceLaid` | source/bluetooth/gatt_db.c:298-347 | the same behind the service's own attribute: adding it succeeds and every handle is known in advance |
| `GattDb.ServiceFits` | source/bluetooth/gatt_db.c:298-347 | adding a service succeeds exactly if the declaration and the value of its last characteristic fit behind the others |
| `GattDb.Db.FindAttribute` | source/bluetooth/gatt_db.c:839-847 | the linear search finds index handle - 1, exactly for handles in range |
| `GattDb.Db.Alloc` | source/bluetooth/gatt_db.c:825-837 | the next handle, or none in a full database |
| `GattDb.Db.AddCharacteristic` | source/bluetooth/gatt_db.c:865-913 | appends declaration, value and descriptor as specified |
| `GattDb.Db.AddService` | source/bluetooth/gatt_db.c:298-347 | appends the service and its characteristics in order, up to the first that does not fit |
| `GattDb.Db.OnConnect` | source/bluetooth/gatt_db.c:757-765 | a connection changes no configuration; it is in the history of events |
| `GattDb.Db.OnDisconnect` | source/bluetooth/gatt_db.c:767-776 | the configuration of this connection is erased, as the history of events says |
| `GattDb.Db.HandleWriteRequest` | source/bluetooth/gatt_db.c:1476-1525 | the answer to every write; two bytes to a configuration descriptor are a configuration event, low byte first, which the table then holds byte by byte exactly if it knows the descriptor on this connection or has room, or if both are zero; no other key and no other write changes the table |
| `GattDb.Db.NotificationsEnabled` | source/bluetooth/gatt_db.c:560-567 | bit 0 of the mapped value |
| `GattDb.Db.SendNotification` | source/bluetooth/gatt_db.c:480-518 | the notification of a value with a descriptor is passed to the stack exactly if the table has the notification bit on this connection, so with at most 4 links up at a time and 32 descriptors exactly if the client last wrote it; without a descriptor always |
| `GattDb.WriteThenNotify` | source/bluetooth/gatt_db.c:480-518 | after a client wrote two bytes to the descriptor of a value, and the write took effect, its notification passes exactly if the lowest bit of the first byte is set |
| `GattDb.WritesTakeEffect` | source/bluetooth/gatt_db.c:591-611 | with four links, all writes of clients take effect in every run, exactly if the database has at most 32 configurable characteristics |
| `GattDb.OverflowReachable` | source/bluetooth/gatt_db.c:1489-1499 | a database with one service of 33 configurable characteristics has a run with four connections in which 128 writes take effect and the next, though answered with success, leaves the client's notification bit off |
| `FrameLink.FrameQueue.Put` | source/ipc/audio_ipc.c:368 | a queue of four: appends exactly if fewer are queued |
| `FrameLink.FrameQueue.Get` | source/ipc/audio_ipc.c:257 | takes the oldest frame, or none |
| `FrameLink.Sender.Send` | source/ipc/audio_ipc.c:361-377 | offers the frame and counts it as sent or refused |
| `FrameLink.Sender.Process` | source/audio/audio_task.c:1041-1071 | an encoded frame gets the next sequence number and is offered; a failed encoding takes no number |
| `FrameLink.Receiver.Receive` | source/ipc/audio_ipc.c:250-266 | takes the oldest frame and counts it, or counts an empty poll |
| `FrameLink.StepsInARow` | source/ipc/audio_ipc.c:250-266 | the steps of one core in a row are what the two calls do |
| `FrameLink.InOrderStep` | source/ipc/audio_ipc.c:250-266 | every step of either core keeps: received and queued frames are, in order, those of the encoded frames that the queue took |
| `FrameLink.RunHolds` | source/ipc/audio_ipc.c:361-377 | over every interleaving numbering, order and counters hold |
| `FrameLink.ReceivedInOrder` | source/audio/audio_task.c:1041-1071 | in every interleaving the received frames, after those left over, are frames of the sender in order, frame i being exactly number i modulo 2^16 with the time and the data that the codec gave; at most four are under way |
| `FrameLink.EncodedAreGiven` | source/audio/audio_task.c:1035-1070 | in every interleaving frame i carries the time and the data of the i-th encoding step |
| `FrameLink.MissingAreCounted` | source/ipc/audio_ipc.c:361-377 | at every moment of every run: the frames left over at the start and encoded since, less those received, are the refused ones, which `tx_queue_full` counts (but for one about to be counted), the queued ones and one in the sender's hands |
| `FrameLink.CountersAgree` | source/ipc/audio_ipc.c:250-266 | `tx_frames` is `rx_frames` plus the queue length modulo 2^32, but for a frame that one side has handled and not yet counted |
| `FrameLink.GapsAreLosses` | source/audio/audio_task.c:1044-1062 | the leap between the sequence numbers of neighbouring taken frames tells how many were refused in between, for losses below 2^16 |
| `Links.StepGood` | source/bluetooth/link.c:54-180 | an event keeps ids distinct and the active link connected, null only without links, exactly unless it looks up or connects id zero while a slot is empty |
| `Links.RunGood` | source/bluetooth/link.c:54-180 | the same over every run |
| `Links.OthersStay` | source/bluetooth/link.c:95-180 | an event of one connection changes nothing about another; a flag changes for the active link only |
| `Links.UpIds` | source/bluetooth/link.c:95-141 | a connection is taken exactly if it is known or there is room |
| `Links.DownIds` | source/bluetooth/link.c:143-180 | a disconnection takes exactly this id away, and succeeds exactly if it was there (or is zero and a slot is empty) |
| `Links.LookupIds` | source/bluetooth/link.c:232-235 | a lookup finds exactly the connected ids |
| `Links.ActiveIsLatest` | source/bluetooth/link.c:54-63 | the active link is the one that came up or was looked up last; one that came up has its own address and handle, the LE transport and no flags |
| `Links.LinkTable.GetByConnId` | source/bluetooth/link.c:54-63 | the first slot with the id, which becomes the active one |
| `Links.LinkTable.LinkUp` | source/bluetooth/link.c:95-141 | the table after a connection, as specified, with address, handle, transport and cleared flags, and the status |
| `Links.LinkTable.LinkDown` | source/bluetooth/link.c:143-180 | the table after a disconnection: the slot is blank and the first connected link is active |
| `Links.LinkTable.SetActiveFlag` | source/bluetooth/link.c:263-315 | changes only this flag of the active link, if there is one |
| `Links.FlagsAreLast` | source/bluetooth/link.c:263-323 | in every run a connected link has exactly the flags that were last set to true while it was the active link, since it last came up; the getters tell this of the active link |
| `Links.LinkTable.GetTransport` | source/bluetooth/link.c:216-222 | the transport is that of Bluetooth LE exactly while some link is connected |
| `Links.LinkTable.GetConnectionCount` | source/bluetooth/link.c:237-246 | the number of ids |
| `Links.ConnectionTable.Find` | source/bluetooth/gatt_db.c:935-944 | finds a slot exactly if the id is held |
| `Links.ConnectionTable.Alloc` | source/bluetooth/gatt_db.c:946-956 | holds the id once more, exactly if there is room, known or not |
| `Links.ConnectionTable.Free` | source/bluetooth/gatt_db.c:958-964 | holds the id once less |
| `Links.Host.ConnectionStatus` | source/bluetooth/gatt_db.c:1542-1560 | a connection event reaches both tables |
| `Links.FourLive` | source/bluetooth/gatt_db.c:935-964 | in a well matched run with at most four connections up the database holds exactly these, once each, and the links are some of them |
| `Links.TwoLive` | source/bluetooth/link.c:95-180 | with at most two up both tables hold exactly these |
| `Links.PartAtThird` | source/bluetooth/link.c:114-121 | the tables part exactly when a third connection comes up |
| `Links.HeldIsBalance` | source/bluetooth/gatt_db.c:946-964 | in every run in which the database has room each time, matched or not, it holds each connection as often as reports up and down balance |
| `Links.AtMostFour` | source/bluetooth/gatt_db.c:919-968 | in every run the database holds at most four connections |
| `Links.TwiceUpStays` | source/bluetooth/gatt_db.c:946-964 | after a connection was reported up twice and down once the database holds it once, and the link table not at all |
| `StreamSlots.SamplesPerFrame` | source/audio/audio_task.c:1319-1328 | rate times duration over a million, without overflow; a frame of all channels has at most 960 samples |
| `StreamSlots.BuildGood` | source/audio/audio_task.c:282-361 | every outcome of the three allocations leaves a slot with all three resources or with none, and nothing else allocated |
| `StreamSlots.CreateGood` | source/audio/audio_task.c:252-365 | creating succeeds exactly for a valid configuration, a free slot and three successful allocations, and then the first free slot holds this configuration, inactive and with empty buffers; otherwise the memory and the count are as before; other streams stay |
| `StreamSlots.CallCodes` | source/audio/audio_task.c:367-511 | what destroying, starting and stopping answer: refused before the initialisation and for a stream that is not configured, and then nothing changes; nor does starting an active stream or stopping another |
| `StreamSlots.InitCodes` | source/audio/audio_task.c:150-236 | an initialisation works exactly if it is the first since closing down and mutex and task can be created; in any case all streams are blank after a first one |
| `StreamSlots.DestroyGood` | source/audio/audio_task.c:367-405 | destroying frees exactly what the slot owns and counts one stream less |
| `StreamSlots.StepGood` | source/audio/audio_task.c:252-511 | every call, and the flow of frames between calls, keeps: configured exactly if owning three resources, active exactly if started and then configured, no resource shared, the counter right, all live memory owned or lost; only an initialisation loses, and what |
| `StreamSlots.RunGood` | source/audio/audio_task.c:150-511 | the same over every run, with every allocation that may fail |
| `StreamSlots.RestartLosesStopped` | source/audio/audio_task.c:208-236 | closing down and initialising again frees everything exactly if every configured stream was active |
| `StreamSlots.DestroyUndoesCreate` | source/audio/audio_task.c:252-405 | destroying a stream undoes creating it: memory, count and the other streams are as before |
| `StreamSlots.StopUndoesStart` | source/audio/audio_task.c:451-511 | starting resets the sequence number, empties the two buffers and takes the time, and does nothing else that stopping does not undo; the resources stay |
| `StreamSlots.AudioTask.FindFree` | source/audio/audio_task.c:1333-1341 | the first slot that is not configured |
| `StreamSlots.AudioTask.InitTask` | source/audio/audio_task.c:150-206 | all slots are blank, also if the mutex or the task cannot be created |
| `StreamSlots.AudioTask.Acquire` | source/audio/audio_task.c:282-361 | the allocations and their clean-up, one by one, leave slot and memory as specified; whatever is freed is live |
| `StreamSlots.AudioTask.CreateStream` | source/audio/audio_task.c:252-365 | the checks in order, then the first free slot |
| `StreamSlots.AudioTask.StartStream` | source/audio/audio_task.c:451-486 | a stream that is not active becomes active with sequence number zero, the current time and both buffers, which are live, emptied |
| `StreamSlots.AudioTask.StopStream` | source/audio/audio_task.c:488-511 | an active stream becomes inactive and keeps its resources |
| `StreamSlots.AudioTask.DestroyStream` | source/audio/audio_task.c:367-405 | the three resources are freed, each once, also of an active stream |
| `StreamSlots.AudioTask.DeinitTask` | source/audio/audio_task.c:208-236 | active streams are stopped and destroyed, the others passed over |
| `CigParams.ReadPayload` | source/bluetooth/hci_isoc.c:1044-1084 | the payload has 15 + 9n bytes, and a reader gets the configuration back with SDU intervals modulo 2^24: whole exactly if they are below 2^24 |
| `CigParams.PayloadOfRead` | source/bluetooth/hci_isoc.c:1044-1084 | every well formed payload is the payload of what is read from it |
| `CigParams.PayloadLayout` | source/bluetooth/hci_isoc.c:1044-1084 | where each field stands: words low byte first, stream i from byte 15 + 9 i on |
| `CigParams.BuildParams` | source/bluetooth/hci_isoc.c:1044-1084 | the bytes written one by one are that payload |
| `IsocGroups.CigStepGood` | source/bluetooth/hci_isoc.c:999-1122 | every call and event keeps CIG ids unique, counted, and with one to four streams each |
| `IsocGroups.CigRunGood` | source/bluetooth/hci_isoc.c:1245-1284 | in every run `num_active_cig` is the number of ids in use, and they are unique |
| `IsocGroups.SetParamsAdds` | source/bluetooth/hci_isoc.c:999-1113 | setting parameters succeeds exactly with one to four streams, a new id, a free slot and a granted command; then exactly this id is added, with its streams configured, and the other groups stay; otherwise nothing changes |
| `IsocGroups.RemoveTakes` | source/bluetooth/hci_isoc.c:1245-1284 | removing succeeds exactly for an id in use without established streams and a granted command; then exactly this group goes and the others stay; otherwise nothing changes |
| `IsocGroups.MarksExactly` | source/bluetooth/hci_isoc.c:1154-1168 | marking the streams of a list of handles, one after the other, marks exactly those whose handle is in the list |
| `IsocGroups.CreateCisMarks` | source/bluetooth/hci_isoc.c:1124-1180 | creating streams succeeds exactly for at least one handle, an id in use and a sent command, and marks exactly the streams of this group with one of the handles, also if the command is not sent |
| `IsocGroups.StreamEvents` | source/bluetooth/hci_isoc.c:286-335 | what its events do to the first stream with the handle and to no other: established, disconnecting also if the command is not sent, idle with the handle forgotten or, by the stack, kept |
| `IsocGroups.BigStepGood` | source/bluetooth/hci_isoc.c:357-544 | every call and event keeps BIG handles unique, and the counter off by the number of groups created here |
| `IsocGroups.BigRunGood` | source/bluetooth/hci_isoc.c:1309-1398 | in every run handles are unique, and `num_active_big` is right exactly if the number of groups created here is a multiple of 256 |
| `IsocGroups.ReportMakesActive` | source/bluetooth/hci_isoc.c:357-515 | a reported group is active afterwards, exactly if it was known or there is room, source or sink as it was or as reported |
| `IsocGroups.ReportEvents` | source/bluetooth/hci_isoc.c:356-516 | with the status zero the two reports make their group active exactly if known or there is room, a new one source or sink; with another status they change nothing |
| `IsocGroups.TerminateMarks` | source/bluetooth/hci_isoc.c:1398-1424 | asking for the end of a group marks it, also if the command is not sent, and nothing else |
| `IsocGroups.CreateTakesSlot` | source/bluetooth/hci_isoc.c:1309-1398 | creating takes a slot exactly for one to four streams, a new handle, room and a sent command, and counts nothing |
| `IsocGroups.EndTakesAway` | source/bluetooth/hci_isoc.c:427-544 | an end takes exactly its handle away, under the conditions of each event and call |
| `IsocGroups.OtherBigsStay` | source/bluetooth/hci_isoc.c:357-544 | no event touches another group |
| `IsocGroups.SinkOnly` | source/bluetooth/hci_isoc.c:457-544 | in runs of the sink side it is always right |
| `IsocGroups.Groups.SetCigParams` | source/bluetooth/hci_isoc.c:999-1122 | the call does what the specification says, and nothing to broadcast groups |
| `IsocGroups.Groups.RemoveCig` | source/bluetooth/hci_isoc.c:1245-1284 | the call does what the specification says |
| `IsocGroups.Groups.CreateStreams` | source/bluetooth/hci_isoc.c:1124-1180 | the nested loops mark the streams as specified |
| `IsocGroups.Groups.SearchCis` | source/bluetooth/hci_isoc.c:686-690 | the first stream of a group with the handle |
| `IsocGroups.Groups.UpdateCis` | source/bluetooth/hci_isoc.c:682-694 | the first stream with the handle changes, and no other |
| `IsocGroups.Groups.HandleCisEstablished` | source/bluetooth/hci_isoc.c:286-335 | as specified: only the status zero establishes |
| `IsocGroups.Groups.DisconnectStream` | source/bluetooth/hci_isoc.c:1219-1244 | as specified: disconnecting, also if the command is not sent |
| `IsocGroups.Groups.HandleCisDisconnected` | source/bluetooth/hci_isoc.c:550-576 | as specified: idle, with the handle forgotten for an event of the controller |
| `IsocGroups.Groups.CreateBig` | source/bluetooth/hci_isoc.c:1309-1398 | a slot is taken but not counted; it is given back if the command cannot be sent |
| `IsocGroups.Groups.HandleReport` | source/bluetooth/hci_isoc.c:357-515 | a reported group is marked active in its slot, or takes and counts a free one |
| `IsocGroups.Groups.TerminateBig` | source/bluetooth/hci_isoc.c:1400-1425 | marks the group and keeps its slot |
| `IsocGroups.Groups.HandleEnd` | source/bluetooth/hci_isoc.c:427-544 | an ended group frees its slot and is counted down; a lost sync of the controller only for sinks |
| `IsocGroups.Groups.BigTerminateSync` | source/bluetooth/hci_isoc.c:1482-1508 | frees the slot of a sink exactly if the command is granted |
| `Pcm.GainExact` | source/audio/audio_buffers.c:983-1011 | a positive gain is the exact product, limited to 16 bits, on all samples exactly up to 101 dB |
| `Pcm.AttenuateThenAmplify` | source/audio/audio_buffers.c:983-1011 | attenuating and amplifying by the same gain loses exactly the low k bits of every sample, exactly for k up to 15 |
| `Pcm.ApplyGain` | source/audio/audio_buffers.c:983-1011 | every sample in place, and no other |
| `Pcm.ScaledShrinks` | source/audio/audio_task.c:1292-1298 | the volume keeps signs, never makes a sample larger, and at 100 and 0 agrees with the early returns |
| `Pcm.ScaledIsPercentage` | source/audio/audio_task.c:1292-1298 | the volume is a percentage, and the rest is cut off toward zero |
| `Pcm.ScaledKeepsOrder` | source/audio/audio_task.c:1292-1298 | it keeps the order of samples, and a higher volume never makes a sample smaller |
| `Pcm.ScaledIsOdd` | source/audio/audio_task.c:1292-1298 | opposite samples stay opposite, since division truncates |
| `Pcm.ApplyVolume` | source/audio/audio_task.c:1277-1299 | every sample in place, muted or scaled |
| `Pcm.WidenThenNarrow` | source/audio/audio_buffers.c:879-934 | 16 bits to 24 or 32 and back is the identity |
| `Pcm.ConvertedExactly` | source/audio/audio_buffers.c:879-934 | widening multiplies by 2^8 or 2^16 exactly; narrowing keeps the upper 16 bits, rounding down |
| `Pcm.NarrowThenWiden24` | source/audio/audio_buffers.c:891-899 | 24 bits to 16 and back is the identity exactly on samples of 24 bits whose low byte is zero |
| `Pcm.NarrowThenWiden32` | source/audio/audio_buffers.c:901-909 | 32 bits to 16 and back is the identity exactly on samples whose low half is zero |
| `Pcm.ConvertFormat` | source/audio/audio_buffers.c:879-934 | every sample is converted, exactly for the known pairs of formats and at least one sample |
| `Pcm.InterleaveSplit` | source/audio/audio_buffers.c:936-960 | interleaving and splitting are inverses of each other |
| `Pcm.Interleave` | source/audio/audio_buffers.c:936-947 | left and right samples in turns |
| `Pcm.Deinterleave` | source/audio/audio_buffers.c:949-960 | the even and the odd samples of the buffer as it was, also when they go into that buffer; into one buffer, the odd ones |
| `Pcm.MeanBetween` | source/audio/audio_buffers.c:974-980 | the mix of a frame lies between its smallest and largest sample, so the cast cuts nothing off |
| `Pcm.MeanIsExact` | source/audio/audio_buffers.c:974-980 | the mix is the sum of the samples over their number, cut off toward zero |
| `Pcm.SumJoins` | source/audio/audio_buffers.c:974-980 | the sum of two parts of a frame is the sum of their sums |
| `Pcm.MixedAt` | source/audio/audio_buffers.c:974-980 | every mixed sample is the mean of its own frame |
| `Pcm.MixToMono` | source/audio/audio_buffers.c:962-981 | the output is these means, also in place; no channels change nothing |
| `Pcm.MixFrame` | source/audio/audio_buffers.c:974-980 | the sum of up to 255 channels stays in 32 bits |

## Left out

- I2sStream.TxStream.Write: the stream is not stopped by another task while the call waits; the conversion of milliseconds to ticks is the caller's. The same holds for Read.
- I2sStream.TxStream.Start: each direction has its own flags and block counter, where the C context shares one of each, and initialisation is the constructor.
- I2sStream.TxStream.Isr: the user callback does not change the block, and the part of a block that the hardware FIFO takes is not modelled. The same holds for the RX handler.
- StreamRace.StepInv: the stream is not started again while a call is blocked, and one task at a time calls in each direction.
- StreamRace.NoLostWakeUp: the semaphore wakes the task; when the scheduler runs it is not modelled.
- FrameRing.AudioBuffer.Write: callbacks are recorded with their levels and do not call back into the buffer; the pool of frame bytes is part of each entry.
- FrameRace.StepInv: peeks and resets run alone, in FrameRing, as do latency statistics and the comparison of levels with the watermarks. Metadata of the caller are copied field by field.
- AdvBuilder.Builder.AddUuid16: not to be called where the C loop leaves the array, by the exact condition of UuidsStayInside; what memory holds after that is not modelled.
- AdvBuilder.ParseGap: the data pointer of an element is the position in the raw bytes that it points to.
- AtParser.Parser.ProcessLine: a missing line pointer is not modelled; handlers are a function of the call, so they do not register commands, feed lines or change the echo themselves.
- CccdTable.TableIsMap: the history of connections is the one reported to the database.
- GattDb.Db.HandleWriteRequest: the copy into a stored value, since no code ever gives an attribute one; built-in services are not part of this model, nor are reads and indications.
- Links.StepGood: connection parameters, MTU and the fields of the stack's connection status other than id and address are not modelled.
- FrameLink.ReceivedInOrder: one stream, which is not restarted while a frame of it is being processed; the way of frames to the decoder and the debug queue are not modelled.
- FrameLink.CountersAgree: neither core resets its statistics during the run.
- StreamSlots.RunGood: calls are atomic; suspending, the task's own state and the stream's connection handles are not modelled.
- StreamSlots.StepGood: the buffers of a stream are the numbers of their frames, which change freely between calls; their contents are the subject of FrameRing.
- IsocGroups.BigStepGood: calls and events are atomic, and the contents of events other than handle and status are not modelled; neither are initialisation, the events' callbacks and the connection handles of streams.
- IsocGroups.Groups.UpdateCis: stream handles are placeholders that repeat between groups, so the first match may be of another group.
- Pcm.GainExact: the result of an overflow is that of wrap-around.
- Pcm.ConvertFormat: source and destination do not overlap, as C demands: memcpy between overlapping buffers and access to one buffer as samples of two widths are undefined.
- The remaining argument parsers of at_parser.c call the C library's strtol and sscanf, which are not part of this model.
- The double DMA buffer at the end of audio_buffers.c and the getters for latency and timestamps: only easy members.
- Advertising sets, scanning, periodic advertising and their events in gap_config.c: thin layers over the Bluetooth stack.
- Command payloads of hci_isoc.c other than Set CIG Parameters: they repeat its encoding.
- Loss of samples before the encoder, and `frames_dropped_tx` as a loss count: the code makes no such promise.
- AT command handlers, Wi-Fi, MIDI, USB, the LE Audio profiles, the LC3 wrapper and the platform code.
