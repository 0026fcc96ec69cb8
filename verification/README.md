# store-service in Dafny

store-service records camera streams into fixed-size buffers, writes the buffers out as `.store`
files, indexes the files by time, copies them to a backup server and replays them over RTMP. Its
requests and answers are JSON. This project models the parts of it that carry the most state and
arithmetic, and proves what they keep over whole runs.

`dafny verify dfyconfig.toml` checks everything.

## What is modelled

**The recorder** (`StoreImage`, `StoreDevice`, `StoreSteps`, `StoreRuns`, `StoreKeyStart`,
`StoreExact`, `StoreFlush`, `StoreOutcome`, `StoreLimits`, `StoreRecorder`, `AnnexB`). A buffer is a byte image: frame bytes grow up from offset
0, records of 96 bytes grow down from the end, a record is live while its head holds the mark.
`StoreRecorder` is the imperative form: classes over byte arrays with the cursors of the source. Its
methods are proved equal to functions on values (`Append`, `MoveFrom`, `RotateKey`, `RotateGroup`,
`WriteFrame`, `Flush`, `StopBegin`), and the run theorems are about those functions. The capacity is
symbolic. Four results carry the component: frames read back from the files, the pending buffer and
the current buffer are the accepted frames, in order, throughout a run if and only if every step of it
is clean (`RunConserves`, `StoreExact.RunExact`, and `FineExact` with the file writer taken in its own
steps); a rotation splits the frame list
at the newest key frame (`GroupSplit`); every image handed over delimits itself (`SelfDelimiting`,
`GapReadable`, `GroupReadable`); every buffer and file starts with a key frame, in runs of delimited frames
whose recordings start with one and whose moving rotations find the free slot unmarked (`RunKeyStart`).

**JSON** (`JsonText`, `JsonParse`, `JsonRoundTrip`, `JsonLiteral`, `JsonGrammar`, `JsonMinify`,
`JsonParser`, `JsonOverrun`, `JsonLanguage`, `JsonLayout`, `JsonTokens`, `JsonWrite`, `JsonPrinter`, `JsonGrowth`, `JsonBuffered`, `JsonNodes`). `Print` and
`ParseText` are the meaning of printing and parsing. `RoundTrip` ties them to each other and
`JsonGrammar` ties parsing to the grammar of RFC 8259. `JsonLanguage` defines the larger language the parser
accepts and proves that it accepts exactly that (`ParsesExactly`); `JsonLayout` and `JsonTokens` say byte by byte
what the printers write and the minifier takes out. The cursor loops, the length arithmetic, the
growing buffer and the in-place minifier are methods proved against them. `JsonNodes` has the linked
child lists and the duplication of trees on the heap.

**The H.264 splitter and repackager** (`AnnexB`, `NalUnits`, `VideoPacket`), **the time index**
(`TimeIndex`), **the chunked backup** (`Backup`) and **the life cycle of stream threads**
(`StreamThreads`, `StreamCalls`). The last two are step systems over any number of clients, controllers and threads.

**The replay** (`Replay`) joins the recorder and the splitter. `StartPlaybackStoreFile` is the loop over a
file. Frames accepted as encodings of NAL units, recorded and flushed are sent again as exactly those
units, in order (`RecordedIsSent`, `RunIsSent`).

## Where the code does not do what is meant

The model keeps the code as it is in each of these, and states the exact condition under which it
does what is meant.

- A stop that appends its frame clears with the gap measured before the append
  (`src/store.cpp:450`, `src/store.cpp:532`). The appended record is always lost, and one more record for every
  96 bytes of the frame begun: `StopImage`, `StopLosesFrames`. The clearing leaves the buffer if and only if
  the frame is larger than 96 bytes for every frame stored before it, as it always is for the first frame of a
  recording: `StopOverruns`, `StopLeavesBuffer`. A stop keeps all frames if and only if its frame did not
  fit: `StopConserves`. With the gap measured after the append nothing is lost: `StopIntended`,
  `MeantStopConserves`. Runs may contain stops of both kinds.
- A reused buffer keeps the marks of its former life, so moving the last group can copy a stale frame:
  `ReuseKeepsMark`, and the run `StaleRun`. It does not if and only if the free slot is unmarked: `GroupSplit`.
- A rotation does not wait for the file writer: `SecondRotationLosesFrames`. A write keeps all frames if and
  only if its rotation finds nothing readable pending and copies nothing stale: `WriteExact`.
- A rotation can exchange the pending buffer while it is being written to its file: `TornRun`. With any number
  of rotations every byte of the file is that byte of the buffer pending when it was written, and the file is
  the buffer handed over if and only if those buffers agree with it there: `TornFile`. The file writer's turns
  may be taken as single steps if and only if every file is the buffer pending at its end: `RunRefines`. With
  its steps taken one by one, a run keeps all frames throughout if and only if every other step is
  clean: `FineExact`. No rotation then falls into a turn.
- The replay loop ends at a frame of size zero and at one larger than its buffer. It reads the whole file if
  and only if there is none: `ReplaysWhole`.
- The player leaves its list of NAL units alone when a frame does not begin with a 4-byte start code, so
  the two key-frame tests agree, and the packet sent holds the frame's units, whatever was split before if
  and only if it does: `KeyTestsAgreeExactly`, `RepackagesExactly`.
- The string parser drops an escape that follows a high surrogate and is not its low half:
  `SwallowedLetter`. It gives the text the literal stands for if and only if every escape dropped
  like that stood for nothing: `DecodesExactly`, and for whole texts `ParsesAsMeant`.
- The string parser leaves its text at a backslash that is the last byte, and can leave its allocation when the
  four places behind a `\u` run over the quote: `Overruns`. It stays inside every text that has neither
  behind any of its quotes, accepted or not: `TextStays`.
- The buffered printer of objects overwrites the variable that holds the start of its text, so a nested call can
  return a wrong address, which nothing reads: `ReturnedExactly`. The root's address is right.
- `src/mysql.cpp:638` clears a local variable where the caller's flag is meant. `StrayFlags` states when an
  uninitialised flag changes the answer, and `IntendedRejection` what the flags are for.
- Backup stream numbers are distinct if and only if a stream is not begun while the 32-bit counter stands
  at the number of an open one: `BeginKeeps`, over runs `Backup.RunExact`. That takes more than 2^32
  openings: `ShortRunsAreFree`, and the run `WrapRun`. A transfer is an exact copy if and only if the server's file
  was empty: `ExactCopy`.
- `isThreadListUsed` is read and set in two steps. Taken as the mutual exclusion it stands for, an
  entry has at most one thread: `AtMostOneThread`. Without it `DeleteRace` and `SecondThread` are runs that
  leave a cancelled entry running and then give it a second thread. A step leaves an active entry without its thread if
  and only if it is one of three kinds: `StreamThreads.StepExact`, over runs `StreamThreads.RunExact`.

## Assumptions

- The memory of a frame can be read four bytes past its end, as the scans of the source do.
- Padding inside a record is taken as zero when it is written; nothing depends on it when it is read.
- Times are parameters. Allocation succeeds. Files are named distinctly; a flush writes whole blocks.
- `ParseKeyFrame` falls off its end without a return value; non-zero is taken as its result there.
- Numbers that are printed are integers of the C int range; strings hold no zero byte. Number parsing is
  exact over the reals.
- In the thread model a controller's read or write of an entry's state is one step.
- The entries of the player's unit list are read as positions in its frame buffer. Packets are sent over a
  connection that stays up.

## Model

| member | source | states |
|---|---|---|
| AnnexB.CodeLenMeans | src/common.cpp:395-406 | a start code of four bytes is found exactly at 00 00 00 01, one of three exactly at 00 00 01 |
| AnnexB.TypeMeans | src/common.cpp:408-408 | the type taken from a header is the one that section 7.3.1 of ITU-T H.264 gives it, whatever its forbidden bit and reference importance |
| AnnexB.ParseKeyFrame | src/common.cpp:386-417 | the scanning loop gives the key-frame test of the frame at that address |
| AnnexB.KeyScanIsLocal | src/common.cpp:386-417 | the test of a delimited frame depends on its own bytes only, wherever it is stored and from wherever in it the scan goes on |
| AnnexB.KeyScanStored | src/common.cpp:386-417 | a frame copied into a buffer keeps its key-frame property |
| StoreImage.RecordFields | src/store.cpp:10-18 | a written record is read back field by field: mark, time, index, offset, size |
| StoreImage.SlotLayout | src/store.cpp:10-18 | where a slot lies and which of its 96 bytes, lowest first, are the mark 0x7a5d9e3b, the time, the frame number, the offset and the size |
| StoreImage.HoldsFrame | src/store.cpp:521-527 | a change between the data and the records disturbs no held frame |
| StoreImage.HoldsFirstFrames | src/store.cpp:587-612 | reading the first n records of an image that holds a list gives its first n frames |
| StoreImage.SelfDelimiting | src/store.cpp:587-612 | an image that holds a list and has the next slot unmarked is read back as exactly that list |
| StoreImage.ZeroByteUnmarked | src/store.cpp:595-599 | one cleared byte at the front of a record is enough to end the list |
| StoreDevice.ResetOk | src/store.cpp:242-252 | a buffer set up over arbitrary bytes holds no frame and has both cursors right |
| StoreDevice.AppendOk | src/store.cpp:511-527 | a frame that fits is appended: the buffer holds the old list and the frame, cursors included |
| StoreDevice.CopyHolds | src/store.cpp:69-78 | one turn of the copy loop appends the source's frame with its offset rebased |
| StoreDevice.MoveFromHolds | src/store.cpp:66-79 | the copy loop appends every live frame byte for byte, with offsets that are prefix sums |
| StoreDevice.MovedOk | src/store.cpp:66-83 | the target of a move holds exactly the live frames from the group's slot on and both cursors are right |
| StoreDevice.LiveFramesHeld | src/store.cpp:67-79 | the live frames from a slot begin with the rest of the list, and are exactly the rest if and only if the free slot is unmarked |
| StoreDevice.MoveSafeHeld | src/store.cpp:67-79 | with the free slot unmarked the copy loop stays inside both buffers |
| StoreSteps.ClearedHolds | src/store.cpp:484-485 | a clearing from above the first k frames into slot k leaves those frames in place and slot k unmarked |
| StoreSteps.NewestKeyHeld | src/store.cpp:55-64 | the walk over the records stops at a key frame with no key frame after it, or finds that there is none |
| StoreSteps.RotateKeyFrames | src/store.cpp:489-505 | rotation on a key frame: the old buffer reads back as all its frames, the new one is empty |
| StoreSteps.GroupSplit | src/store.cpp:46-83 | move and clearing split the list at the newest key frame: the prefix is readable in the old buffer, the new one begins with the suffix, and equals it if and only if the free slot was unmarked |
| StoreSteps.RotateGroupFrames | src/store.cpp:469-488 | the same for the whole rotation of a device |
| StoreRuns.MakeRoomFrames | src/store.cpp:467-506 | a rotation keeps every frame of the current buffer, and adds none if and only if the free slot was unmarked |
| StoreRuns.WriteFrames | src/store.cpp:467-527 | after a write the current buffer ends with the new frame and the pending one is what the rotation left |
| StoreOutcome.FullMeans | src/store.cpp:457-467 | both size tests: a frame and its record fit if and only if its size and 96 bytes lie between the cursors |
| StoreOutcome.RoomEnables | src/store.cpp:467-527 | a frame for which there is room can be written in every state |
| StoreOutcome.WriteStays | src/store.cpp:467-527 | such a frame goes to the end of the current buffer and of the accepted frames, and the buffers are not exchanged; an undated buffer is dated |
| StoreOutcome.WriteRotates | src/store.cpp:467-527 | any other frame is accepted too, and the buffers are exchanged: the old one is pending, the new one dated |
| StoreOutcome.KeyWriteRotates | src/store.cpp:489-527 | on a key frame all frames are handed over and the new buffer holds the key frame alone |
| StoreOutcome.KeyWriteEnables | src/store.cpp:489-527 | for a key frame that can be done if and only if the frame and two records fit an empty buffer |
| StoreOutcome.GroupWriteRotates | src/store.cpp:469-527 | on any other frame the list is cut at the last frame that passes the key-frame test: the frames before it are handed over, the rest and the new frame are in the new buffer, with nothing else if and only if the free slot was unmarked |
| StoreOutcome.StopEnables | src/store.cpp:452-455 | in which states a stop can begin and end and the file writer take its turn |
| StoreOutcome.StopStores | src/store.cpp:450-533 | a stop accepts its frame if and only if there is room for it |
| StoreOutcome.MeantStopStores | src/store.cpp:450-533 | the same for a stop as it is meant, which hands over all frames and this one |
| StoreOutcome.FinishEmpties | src/store.cpp:534-542 | after a stop the same buffer is in use, empty and undated |
| StoreOutcome.StartsEmpty | src/store.cpp:242-252 | cursors, current buffer and frame number of a new device |
| StoreExact.WriteExact | src/store.cpp:467-527 | a write loses and repeats nothing if and only if its rotation, if it causes one, finds nothing readable pending and copies no stale mark |
| StoreRuns.FlushConserves | src/store.cpp:105-158 | a turn of the file writer moves the pending frames into a file, in order |
| StoreRuns.FinishConserves | src/store.cpp:534-542 | the end of a stop keeps what has been read back |
| StoreRuns.StopOverruns | src/store.cpp:532-532 | how many bytes behind the buffer the clearing of a stop reaches: none if and only if its frame is at most 96 bytes for every frame stored before it |
| StoreRuns.StopImage | src/store.cpp:450-532 | the image a stop hands over lacks its own frame and one record for every 96 bytes of it begun, as far as there are records |
| StoreRuns.StopFrames | src/store.cpp:452-533 | what a stop leaves to be written, when there is room for its frame and 96 bytes more and when there is not |
| StoreRuns.StopConserves | src/store.cpp:452-533 | a stop keeps every accepted frame if and only if there was no room for its own frame and 96 bytes more |
| StoreRuns.StopIntended | src/store.cpp:529-533 | with the gap measured after the append the image reads back as all frames and the last one |
| StoreRuns.MeantStopFrames | src/store.cpp:452-533 | a stop as it is meant leaves all frames to be written, and its own if there is room for it and 96 bytes more |
| StoreRuns.MeantStopConserves | src/store.cpp:452-533 | a stop as it is meant keeps every accepted frame |
| StoreRuns.StartConserved | src/store.cpp:242-252 | a new device has accepted nothing and holds nothing, whatever its memory contains |
| StoreRuns.RunConserves | src/store.cpp:430-554 | over every run of writes, flush turns and stops, as coded or as meant, in which those conditions hold, files, pending buffer and current buffer read back as exactly the accepted frames in order |
| StoreRuns.RunOk | src/store.cpp:430-554 | in every reachable state of every run the device is in order, and the data cursor never passes the index cursor |
| StoreExact.StepExact | src/store.cpp:430-554 | any step keeps every accepted frame if and only if it is clean |
| StoreExact.RunExact | src/store.cpp:430-554 | throughout every run the frames read back are the accepted frames if and only if every step of the run is clean |
| StoreExact.DeviceExact | src/store.cpp:242-252 | the same for every run of a new device |
| StoreFlush.StepRefines | src/store.cpp:105-158 | every step of the file writer is the whole turn or nothing if and only if it does not end a file that differs from the buffer then pending |
| StoreFlush.RunRefines | src/store.cpp:105-158 | over every run, rotations included, each step is that of a run whose turns are single steps if and only if every file ended is the buffer then pending; device, files and frames then agree at the end |
| StoreFlush.UndisturbedWhole | src/store.cpp:105-158 | that is so in every run in which no rotation falls between the steps of the file writer |
| StoreFlush.FineConserves | src/store.cpp:105-158 | a run whose steps other than the file writer's are clean holds exactly the accepted frames in every state, and no rotation falls into a turn of the file writer |
| StoreFlush.FineExact | src/store.cpp:105-158 | throughout every run with the file writer taken in its own steps the frames read back are the accepted frames if and only if every other step is clean |
| StoreFlush.TornFile | src/store.cpp:136-147 | with any number of rotations while a file is written, every byte of the file is that byte of the buffer pending when it was written, and the file is the buffer handed over if and only if those buffers agree with it there |
| StoreKeyStart.GroupStartsWithKey | src/store.cpp:55-64 | the frame at which a group is split off is a key frame |
| StoreKeyStart.MakeRoomKeyFirst | src/store.cpp:467-506 | a rotation leaves a pending and a current buffer that start with a key frame |
| StoreKeyStart.KeyGroupSafe | src/store.cpp:46-83 | a buffer that starts with a key frame and has its free slot unmarked can be rotated: the walk finds a key frame and no copy leaves a buffer |
| StoreKeyStart.KeyWriteEnabled | src/store.cpp:467-527 | in a key run a write can be made if and only if its frame fits behind what the rotation leaves |
| StoreKeyStart.RunKeyStart | src/store.cpp:430-554 | if every recording starts with a key frame and no stale mark is copied, then over every run the current buffer, the pending one and every non-empty file start with a key frame |
| StoreKeyStart.RunNumbered | src/store.cpp:516-516 | over every run the accepted frames are numbered consecutively, modulo 2^32 |
| StoreLimits.ReuseKeepsMark | src/store.cpp:480-503 | a buffer that held two frames and is reused has its second slot marked after its first new frame |
| StoreLimits.StaleRun | src/store.cpp:67-79 | a run of a new device that keeps every frame, and a write that then copies a frame of a buffer's former life although nothing is pending |
| StoreLimits.StopLosesFrames | src/store.cpp:450-532 | a concrete stop that loses its frame |
| StoreLimits.StopLeavesBuffer | src/store.cpp:532-532 | a concrete stop that clears bytes behind the buffer |
| StoreLimits.SecondRotationLosesFrames | src/store.cpp:486-500 | a concrete second rotation before a flush that loses frames |
| StoreLimits.TornRun | src/store.cpp:136-147 | a concrete run from a new device in which a rotation between two blocks makes the file differ from the buffer handed over |
| StoreRecorder.StoreBuffer.constructor | src/store.cpp:242-252 | a new buffer is the reset buffer over its memory |
| StoreRecorder.StoreBuffer.Put | src/store.cpp:512-527 | both copies and both cursor updates are one append |
| Bytes.CopyInto | src/store.cpp:522-526 | the copied bytes stand at their offset and no other byte changes |
| StoreRecorder.Clear | src/store.cpp:485-491 | the range is zero and no other byte changes |
| StoreRecorder.FindGroup | src/store.cpp:52-64 | the walk up the records finds the slot of the newest key frame |
| StoreRecorder.CopyTurn | src/store.cpp:69-77 | one turn of the copy loop, the parked offset of the next record included |
| StoreRecorder.CopyGroup | src/store.cpp:66-80 | the copy loop and its cursors are the move on values |
| StoreRecorder.MoveGroup | src/store.cpp:46-83 | move and clearing in place give the moved buffer and the old one without the group |
| StoreRecorder.WriteBlocks | src/store.cpp:135-147 | the block loop writes the whole buffer, each byte once |
| StoreRecorder.Recorder.constructor | src/store.cpp:242-252 | a new device as it is set up |
| StoreRecorder.Recorder.RotateOnKey | src/store.cpp:489-505 | the fields and buffers after a rotation on a key frame |
| StoreRecorder.Recorder.RotateWithGroup | src/store.cpp:471-487 | the fields and buffers after a rotation that moves the last group |
| StoreRecorder.Recorder.Rotate | src/store.cpp:467-506 | the choice between the two by the key-frame test |
| StoreRecorder.Recorder.Write | src/store.cpp:430-527 | a write in place is the write of the run theorems |
| StoreRecorder.Recorder.FlushTurn | src/store.cpp:105-158 | one turn of the file writer: the file, and the pending field cleared |
| StoreRecorder.Recorder.Stop | src/store.cpp:452-533 | the stop path as coded, whatever the size of its frame, the stale gap included, and how far its clearing reaches behind the buffer |
| StoreRecorder.Recorder.FinishStop | src/store.cpp:534-542 | the cursors after a planned recording has been written |
| StoreRecorder.GetOneFrameByIndex | src/store.cpp:587-612 | bytes, size and time of the frame of a record, and -1 with an untouched output for an unmarked record or a frame too large |
| StoreRecorder.ReaderAgrees | src/store.cpp:587-612 | for every index up to the count the reader gives the frame of the list, and nothing at the count |
| StoreRecorder.GapReadable | src/store.cpp:491-491 | in a buffer handed over on a key frame every frame can be read by its index and the count is the end |
| StoreRecorder.GroupReadable | src/store.cpp:483-486 | the same for a buffer handed over after its last group was moved |
| NalUnits.ScanEncoded | src/rtmpsrv.cpp:227-251 | from any start code on, the scan of an encoding finds exactly the places of its units |
| NalUnits.SplitReturnsUnits | src/rtmpsrv.cpp:219-263 | splitting any Annex B encoding that begins with a 4-byte start code returns exactly its units, their lengths, and their types by the syntax of their headers |
| NalUnits.SplitInMem | src/rtmpsrv.cpp:219-252 | whatever a frame holds, the units found in it lie in its memory |
| NalUnits.ScanHasKey | src/rtmpsrv.cpp:227-251 | the scan lists a unit of type 5 if and only if the current unit is one or the key-frame test finds one further on |
| NalUnits.KeyTestsAgree | src/rtmpsrv.cpp:265-298 | the recorder's and the player's key-frame tests agree on every frame that begins with a 4-byte start code |
| NalUnits.KeyTestsAgreeExactly | src/rtmpsrv.cpp:254-298 | they agree whichever frame was split before if and only if the frame begins with a 4-byte start code |
| NalUnits.KeyTestMeans | src/common.cpp:386-417 | the recorder's test of any encoding, whatever its first start code, holds if and only if the header of one of its units is 128f + 32r + 5 for a forbidden bit f and a reference importance r |
| VideoPacket.DecodePrefixed | src/rtmpsrv.cpp:356-365 | a length-prefixed body is decoded to the units it was made of |
| VideoPacket.PacketDecodes | src/rtmpsrv.cpp:338-368 | a receiver reads frame type 1 or 2, codec 7, packet type 1, composition time 0 and the units from every packet |
| VideoPacket.RepackagePreserves | src/rtmpsrv.cpp:338-368 | the packet of a frame decodes, header included, to the frame's units, as a key frame if and only if one of them is an IDR slice, and is longer by five bytes and one for every 3-byte start code |
| VideoPacket.RepackageStale | src/rtmpsrv.cpp:254-263 | a frame that begins otherwise is sent as what lies where an earlier frame's units lay, marked by that frame's kind; header and units as a receiver reads them |
| VideoPacket.RepackagesExactly | src/rtmpsrv.cpp:338-368 | the packet holds the frame's units whatever was split before if and only if the frame begins with a 4-byte start code |
| VideoPacket.PutLength | src/rtmpsrv.cpp:359-362 | the length of a unit goes in highest byte first, and what lies before it stays |
| VideoPacket.PutUnit | src/rtmpsrv.cpp:359-364 | big-endian length and bytes of a unit behind what was written |
| VideoPacket.PutHeader | src/rtmpsrv.cpp:342-354 | the five bytes of the AVCVIDEOPACKET header |
| VideoPacket.PutUnits | src/rtmpsrv.cpp:357-365 | the loop writes all units one behind the other |
| VideoPacket.Player.ParseH264Param | src/rtmpsrv.cpp:219-252 | the global list becomes the scan of the frame |
| VideoPacket.Player.ParseVideoData | src/rtmpsrv.cpp:265-298 | list, key-frame flag, the last index of each kind, and the wrapping frame counter |
| VideoPacket.Player.PacketVideoData | src/rtmpsrv.cpp:338-368 | the body is the packet of the list and its length is returned |
| Replay.FetchedLive | src/rtmpsrv.cpp:992-992 | the loop fetches no more than the live frames, and all of them if and only if every live record has a size from 1 to that of its buffer |
| Replay.ReplaysWhole | src/rtmpsrv.cpp:992-992 | it reads the whole file if and only if no frame is empty or larger than its buffer |
| Replay.NextFrame | src/rtmpsrv.cpp:992-997 | one frame fetched into the frame buffer over what earlier ones left there, and split |
| Replay.StartPlaybackStoreFile | src/rtmpsrv.cpp:992-1018 | the packets sent are those of the frames fetched, in order, from the first key frame on |
| Replay.PacketsDecode | src/rtmpsrv.cpp:992-1018 | frames that encode units with a 4-byte start code in front are sent one packet each, and the packets decode to the units with the right header, whatever was played before |
| Replay.RecordedIsSent | src/store.cpp:430-554 | in every conserved state the frames of each file are fetched whole, are the accepted frames behind those of the files before, and are sent as their units |
| Replay.RunIsSent | src/store.cpp:430-554 | the same after every clean run of a new device whose recordings start with a key frame |
| TimeIndex.SearchClosest | src/mysql.cpp:613-686 | the loop ends and, with increasing times, gives the least row at or after the sought time, or the last row; what the flag becomes |
| TimeIndex.SliceRows | src/mysql.cpp:112-129 | the rows from start to end, nothing for an empty range, failure when a row is missing |
| TimeIndex.SliceIsInterval | src/mysql.cpp:704-722 | the slice between the two found rows is the interval that is meant |
| TimeIndex.QueryByDate | src/mysql.cpp:702-728 | empty table, rejection by the flags, and the interval otherwise |
| TimeIndex.IntervalMeans | src/mysql.cpp:704-722 | the interval holds every row in range and at most one more, the first after the end |
| TimeIndex.IntendedRejection | src/mysql.cpp:710-719 | with cleared flags a query is rejected if and only if the range lies before the first or after the last row |
| TimeIndex.StrayFlags | src/mysql.cpp:636-639 | exactly when leftover flag values change the rejection |
| Backup.BackupServer.TransBakFile | src/backup.cpp:135-138 | the stream is entered under the counter unless that number is in use, and the counter wraps at 2^32 |
| Backup.BackupServer.DoingRecvBakFile | src/backup.cpp:155-172 | the chunk is appended to the stream's file; an unknown number is entered with no file |
| Backup.BackupServer.FinishBakFile | src/backup.cpp:197-204 | the stream is forgotten; whether it was known |
| Backup.BackupServer.DoingTransBakFile | src/backup.cpp:382-444 | the chunk loop appends the whole source, whatever the chunk size |
| Backup.BeginKeeps | src/backup.cpp:135-138 | opening keeps open streams apart if and only if the counter is not the number of an open stream |
| Backup.SendKeeps | src/backup.cpp:155-172 | a chunk changes its own stream's file only |
| Backup.EndKeeps | src/backup.cpp:197-204 | closing a stream leaves the others as they are and fixes its copy |
| Backup.RunKeeps | src/backup.cpp:382-444 | over every interleaving each open stream's file is its starting contents and that stream's chunks in order |
| Backup.RunExact | src/backup.cpp:382-444 | that holds in every state of an interleaving if and only if no stream is begun while the counter stands at the number of an open one |
| Backup.ShortRunsAreFree | src/backup.cpp:138-138 | in runs of up to 2^32 openings no number is reused |
| Backup.WrapRun | src/backup.cpp:138-138 | a run with one opening more in which two open streams share a number |
| Backup.SharedNumber | src/backup.cpp:135-138 | when a number is reused while its stream is open, the new client's chunks go to the file of the old stream |
| Backup.UnknownNumber | src/backup.cpp:155-172 | a chunk with a number that is not entered enters it for the empty path and touches no other file |
| Backup.ExactCopy | src/backup.cpp:382-444 | a finished transfer is an exact copy if and only if the server's file was new or empty |
| Backup.TransferRun | src/backup.cpp:382-444 | every file can be sent, in chunks of any size, and arrives as it is |
| StreamThreads.CtlMoveOk | src/stream.cpp:207-242 | every read or write of a controller keeps its entry in order |
| StreamThreads.ThreadMoveOk | src/stream.cpp:196-202 | every state change of a stream thread keeps its entry in order |
| StreamThreads.RunKeeps | src/stream.cpp:258-289 | the invariant over every run under mutual exclusion |
| StreamThreads.AtMostOneThread | src/stream.cpp:207-242 | in every such run an entry has at most one thread, and none when it is stopped or cancelled |
| StreamThreads.StepExact | src/stream.cpp:207-242 | a step leaves every active entry with its thread, or about to get it, if and only if no creation fails, no thread returns at once and no stop request is written to a stopped entry |
| StreamThreads.LiveExactlyWhenActive | src/stream.cpp:80-80 | without shutdown, failing creations and bad ids, an entry has a thread exactly while creating, running or stopping, save for the step between marking it and creating the thread |
| StreamThreads.RunExact | src/stream.cpp:207-242 | throughout every run under mutual exclusion active entries have their threads if and only if no step of the run is of those kinds |
| StreamThreads.CancelStaysThroughout | src/stream.cpp:403-434 | over every run under mutual exclusion a cancelled entry stays cancelled, without a thread, until AddStream arms it |
| StreamThreads.DeleteRace | src/stream.cpp:446-462 | a run without mutual exclusion that leaves a cancelled entry with a running thread |
| StreamThreads.SecondThread | src/stream.cpp:212-222 | a run that then gives the entry a second thread |
| StreamCalls.CallGoesOn | src/stream.cpp:207-242 | a step of a controller stays in its call and touches its own entry only |
| StreamCalls.ReturnAchieves | src/stream.cpp:207-242 | what a call has achieved when it returns in a state in order |
| StreamCalls.CallsAchieve | src/stream.cpp:207-242 | over every run under mutual exclusion: a stop that returns leaves its entry stopped without a thread, a delete cancelled without one, an add leaves a new or cancelled entry stopped and any other alone, a start leaves it running while the process is up; stops and starts leave cancelled entries alone |
| StreamCalls.WhoWaits | src/stream.cpp:196-242 | a thread can leave its loop exactly when it is asked to stop or the process goes down, and a controller waits exactly while the state it waits for lasts |
| StreamCalls.StartRun | src/stream.cpp:207-225 | a run under mutual exclusion in which a stopped entry is started |
| StreamCalls.StopRun | src/stream.cpp:230-242 | one in which a running entry is stopped |
| StreamCalls.DeleteRun | src/stream.cpp:446-462 | one in which a running entry is deleted |
| StreamCalls.AddRun | src/stream.cpp:402-411 | one in which a deleted entry is added again |
| JsonRoundTrip.ParseInt | src/cJSON.cpp:96-115 | the text of every integer is parsed to its value and ends where the digits end |
| JsonRoundTrip.ParseQuoted | src/cJSON.cpp:192-307 | every string without zero bytes is parsed back from its printed form |
| JsonRoundTrip.ParsePrinted | src/cJSON.cpp:357-658 | a printed value is parsed back wherever it stands, at every depth and in both formats |
| JsonRoundTrip.RoundTrip | src/cJSON.cpp:323-337 | printing and parsing gives back the value and consumes all the text, strict or not |
| JsonLiteral.CountLiteral | src/cJSON.cpp:197-197 | the first pass over a well-formed literal stops at its closing quote, counting five for a \u escape and one otherwise |
| JsonLiteral.ReadLiteral | src/cJSON.cpp:202-243 | the second pass stops at the same quote with the decoded text |
| JsonLiteral.DecodedFits | src/cJSON.cpp:199-244 | the second pass writes no more bytes than the first counted |
| JsonLiteral.ParseLiteral | src/cJSON.cpp:192-249 | all of this for a whole literal of section 7 of RFC 8259 |
| JsonLiteral.DecodesExactly | src/cJSON.cpp:219-227 | the decoded text is the text meant if and only if every escape dropped behind a high surrogate stood for nothing |
| JsonLiteral.SwallowedLetter | src/cJSON.cpp:221-226 | the literal of the two escapes D800 and 0041 stands for the letter A and is parsed as the empty text |
| JsonLiteral.Utf8WellFormed | src/cJSON.cpp:229-237 | the bytes written for a code point are its UTF-8 by section 4 of RFC 3629 |
| JsonLiteral.CombineHalves | src/cJSON.cpp:226-226 | two surrogates are joined to the code point they encode by section 2.1 of RFC 2781, and to no other |
| JsonLiteral.EscapedCodePoint | src/cJSON.cpp:216-238 | a code point written as one or two escapes is parsed to its UTF-8 |
| JsonGrammar.ParseNum | src/cJSON.cpp:96-115 | every number of section 6 of RFC 8259 is parsed to its exact value, fraction and exponent included |
| JsonGrammar.ParseDoc | src/cJSON.cpp:357-547 | every value written by the grammar of RFC 8259, with white space wherever it is allowed, is accepted with its value, strings as decoded, and ends where its text ends |
| JsonGrammar.ParseJsonText | src/cJSON.cpp:323-337 | the same for whole texts; a strict parse consumes the trailing white space as well |
| JsonGrammar.ParsesAsMeant | src/cJSON.cpp:323-337 | every whole text is accepted, and with the value it stands for if and only if none of its literals loses an escape |
| JsonLanguage.NumberExact | src/cJSON.cpp:96-115 | a number is read from the longest text of the accepted form, and to the decimal value of its digits, point and exponent |
| JsonLanguage.Pow10Steps | src/cJSON.cpp:109-109 | the powers of ten used for it |
| JsonLanguage.UnicodeExact | src/cJSON.cpp:216-238 | what any `\u`, well formed or not, stands for and how far it reaches |
| JsonLanguage.CharsRead | src/cJSON.cpp:202-241 | what the second pass reads is a row of characters of the accepted form with their meaning |
| JsonLanguage.CharsTaken | src/cJSON.cpp:202-241 | and every such row up to a quote or the end of the text is what it reads |
| JsonLanguage.ValueFound | src/cJSON.cpp:357-550 | every value that is parsed stands in the text as a value of the accepted language |
| JsonLanguage.ValueTaken | src/cJSON.cpp:357-550 | every value of the accepted language is parsed to it, unless the parser leaves its text or allocation |
| JsonLanguage.ParsesOnly | src/cJSON.cpp:323-337 | both for whole texts, with and without the check for trailing text |
| JsonLanguage.ParsesExactly | src/cJSON.cpp:323-337 | a text with whole escapes is parsed to a value if and only if it is a text of the accepted language for that value, and refused if and only if it is one for no value |
| JsonLanguage.StrictReadsAll | src/cJSON.cpp:333-335 | with that check all of the text is read |
| JsonParser.SkipBlanks | src/cJSON.cpp:320-320 | the position behind blanks and control bytes |
| JsonParser.ReadNumber | src/cJSON.cpp:96-115 | the digit loops give the exact value and the end of the number |
| JsonParser.CountPass | src/cJSON.cpp:197-197 | the first loop counts what is allocated |
| JsonParser.EmitUtf8 | src/cJSON.cpp:229-237 | bytes written from the last to the first are the UTF-8 of the code point |
| JsonParser.Unescape | src/cJSON.cpp:208-241 | one escape in place: what is written and where reading goes on |
| JsonParser.UnescapePass | src/cJSON.cpp:202-243 | the second loop stays inside the allocation and leaves the decoded text there |
| JsonParser.ReadString | src/cJSON.cpp:192-249 | both passes give the string and the position behind its quote, or failure |
| JsonParser.ReadItems | src/cJSON.cpp:415-430 | the loop over array elements builds the chain of values in order |
| JsonParser.ReadArray | src/cJSON.cpp:406-431 | arrays, the empty one and malformed ones included |
| JsonParser.ReadMembers | src/cJSON.cpp:523-546 | the loop over members builds the chain of names and values in order |
| JsonParser.ReadObject | src/cJSON.cpp:514-547 | objects, the empty one and malformed ones included |
| JsonParser.ReadValue | src/cJSON.cpp:357-369 | every kind of value, and failure for anything else |
| JsonParser.ReadText | src/cJSON.cpp:323-337 | the whole parse, with and without the check for trailing text |
| JsonOverrun.WholeStays | src/cJSON.cpp:197-241 | where no backslash is the last byte and the places behind every `\u` lie in the literal, both passes stop at the same place and the second writes no more than the first counted, whatever the literal holds otherwise |
| JsonOverrun.TextStays | src/cJSON.cpp:323-337 | a text that meets this behind every quote is parsed or refused without leaving the text or an allocation |
| JsonOverrun.Overruns | src/cJSON.cpp:197-241 | a text that ends in a backslash and a `\u` in front of the closing quote, on which the parser leaves its text or allocation |
| JsonMinify.PrintStays | src/cJSON.cpp:735-750 | minifying the formatted print of a value, wherever it stands, leaves its unformatted print |
| JsonMinify.MinifyFormatted | src/cJSON.cpp:735-750 | minifying the formatted print of a tree gives exactly its unformatted print |
| JsonTokens.BlankGoes | src/cJSON.cpp:740-743 | a blank, tab, carriage return or newline in front of any text is taken out |
| JsonTokens.LineGoes | src/cJSON.cpp:744-744 | so is a line comment |
| JsonTokens.BlockGoes | src/cJSON.cpp:745-745 | so is a block comment |
| JsonTokens.StringStays | src/cJSON.cpp:746-746 | a string literal is kept with everything inside it |
| JsonTokens.ByteStays | src/cJSON.cpp:747-747 | every other byte is kept |
| JsonMinify.SkipLine | src/cJSON.cpp:744-744 | a line comment is skipped to its newline or the end |
| JsonMinify.SkipBlock | src/cJSON.cpp:745-745 | a block comment is skipped to its end mark or the end of the text |
| JsonMinify.CopyString | src/cJSON.cpp:746-746 | a literal is copied through its closing quote, escapes included, with the write cursor not passing the read cursor |
| JsonMinify.Minify | src/cJSON.cpp:735-750 | the in-place loop leaves the minified text with a terminator at the front of the buffer |
| JsonWrite.NeedsEscape | src/cJSON.cpp:256-256 | whether any byte has to be escaped |
| JsonWrite.SpecialMeans | src/cJSON.cpp:255-255 | the test that chooses between the two string paths holds exactly for the bytes that are not printed as they are |
| JsonWrite.EscapedLength | src/cJSON.cpp:278-278 | the counted length is the length of the escaped text |
| JsonWrite.EmitEscape | src/cJSON.cpp:288-303 | one character, escaped as it must be, behind what was written |
| JsonWrite.EmitQuoted | src/cJSON.cpp:263-305 | the quoted text and a terminator behind what was written |
| JsonPrinter.PrintFits | src/cJSON.cpp:434-658 | for every tree, depth and format the text and its terminator fit the length computed beforehand, and strings use it exactly |
| JsonPrinter.SpareExactly | src/cJSON.cpp:434-658 | how many bytes of the computed length stay unused, for every kind of value, depth and format |
| JsonLayout.ArrayLayout | src/cJSON.cpp:434-508 | which bytes stand around and between the elements of an array |
| JsonLayout.ObjectLayout | src/cJSON.cpp:553-655 | in a formatted object every member has a line of its own behind as many tabs as it is deep, with a tab behind its colon |
| JsonLayout.PlainObjectLayout | src/cJSON.cpp:553-655 | which bytes stand around and between the members of an unformatted object, and inside empty ones |
| JsonLayout.EscapeTable | src/cJSON.cpp:286-304 | which characters are escaped, and how |
| JsonLayout.QuotedIs | src/cJSON.cpp:252-307 | a string is its characters, escaped one by one, between two quotes |
| JsonLayout.IntegerLayout | src/cJSON.cpp:147-162 | an integer is its decimal digits without a leading zero, behind a minus sign when negative |
| JsonLayout.IntRange | src/cJSON.cpp:157-157 | the integers in scope are those of 32 bits |
| JsonPrinter.PrintNonZero | src/cJSON.cpp:372-658 | printed text holds no zero byte, so its C length is its length |
| JsonPrinter.PrintNumber | src/cJSON.cpp:147-175 | an integer in the 2 or 21 bytes allocated for it |
| JsonPrinter.PrintString | src/cJSON.cpp:252-307 | the allocation is filled exactly by the quoted text and its terminator |
| JsonPrinter.PrintChildren | src/cJSON.cpp:471-483 | the first loop: the texts of all children and the summed length |
| JsonPrinter.WriteEntries | src/cJSON.cpp:499-506 | the second loop: the texts with separators between them |
| JsonPrinter.PrintArray | src/cJSON.cpp:434-511 | an array's text and terminator in the length computed |
| JsonPrinter.PrintPairs | src/cJSON.cpp:610-626 | the first loop over members: printed names and values and the summed length |
| JsonPrinter.WritePairs | src/cJSON.cpp:642-651 | the second loop over members |
| JsonPrinter.PrintEmptyObject | src/cJSON.cpp:560-569 | the empty object with its indentation |
| JsonPrinter.PrintObject | src/cJSON.cpp:550-658 | an object's text and terminator in the length computed |
| JsonPrinter.PrintValue | src/cJSON.cpp:389-402 | the unbuffered printer gives `Print` with a terminator in a buffer of the computed length |
| JsonGrowth.LeastPowerOfTwo | src/cJSON.cpp:117-117 | `pow2gt` gives the least power of two not below its argument, for every argument up to 2^30 |
| JsonGrowth.SmearMore | src/cJSON.cpp:117-117 | every shift-and-or doubles the run of ones below the highest bit |
| JsonGrowth.OrBits | src/cJSON.cpp:117-117 | or is or on every bit |
| JsonGrowth.ShrBits | src/cJSON.cpp:117-117 | a shift to the right moves every bit down |
| JsonBuffered.PrintBuffer.constructor | src/cJSON.cpp:347-350 | a buffer of any starting size with nothing written |
| JsonBuffered.PrintBuffer.Ensure | src/cJSON.cpp:121-136 | room for the request, everything written kept, and the new length a power of two only when the old one did not do |
| JsonBuffered.PrintBuffer.Update | src/cJSON.cpp:138-144 | the offset moves to the terminator of what was written |
| JsonBuffered.PrintBuffer.PrintNumber | src/cJSON.cpp:147-175 | an integer behind what was written |
| JsonBuffered.PrintBuffer.PrintString | src/cJSON.cpp:252-307 | a quoted string behind what was written |
| JsonBuffered.PrintBuffer.PrintValue | src/cJSON.cpp:372-388 | behind what was written stands the text of the unbuffered printer; which address is returned |
| JsonBuffered.PrintBuffer.PrintArray | src/cJSON.cpp:453-468 | the same for arrays, through every growth |
| JsonBuffered.PrintBuffer.PrintObject | src/cJSON.cpp:550-607 | the same for objects; a formatted one with members returns its depth for its address, which is right exactly when it starts at that offset |
| JsonBuffered.ReturnedExactly | src/cJSON.cpp:602-604 | the address a nested call returns is that of its text, except for formatted objects with members that do not start as many bytes into the buffer as they are deep |
| JsonBuffered.PrintBuffered | src/cJSON.cpp:345-353 | for every tree and starting size the buffer starts with the text of the unbuffered printer and the returned address is its start |
| JsonNodes.PositionIs | src/cJSON.cpp:677-677 | a negative position is the first one |
| JsonNodes.Walk | src/cJSON.cpp:677-677 | the child at a position, counting anything negative as the first |
| JsonNodes.AddItemToArray | src/cJSON.cpp:666-671 | append on the sequence of children; next and prev stay inverse and no other node changes |
| JsonNodes.DetachItemFromArray | src/cJSON.cpp:677-678 | removal from the sequence, and an unlinked node; nothing behind the last child |
| JsonNodes.InsertItemInArray | src/cJSON.cpp:684-685 | insertion into the sequence, at the end for a position behind the last child |
| JsonNodes.ReplaceItemInArray | src/cJSON.cpp:686-688 | replacement in the sequence, and an unlinked old node; nothing behind the last child |
| JsonNodes.ReferenceCleared | src/cJSON.cpp:717-717 | bit 8 of a kind is cleared and all other bits are kept |
| JsonNodes.DataOf | src/cJSON.cpp:708-733 | every tree of nodes holds some data, so duplication applies to every tree |
| JsonNodes.Attach | src/cJSON.cpp:728-729 | a finished copy is hung behind the last one without disturbing the others |
| JsonNodes.Duplicate | src/cJSON.cpp:708-733 | fresh nodes, none twice, linked as a tree, holding the same data with the reference marks cleared; nothing that existed changes |

## Left out

- Sockets, HTTP routing, the request handlers, FFmpeg, librtmp, MySQL and gRPC calls: input and output, or libraries that cannot be seen.
- `AddStoreEvent`, `RemoveStoreEvent` and manual or alarm recordings after a stop: only planned recordings return to a reset buffer; the rest is bookkeeping.
- `ReadStoreFileFrame`: file input around `GetOneFrameByIndex`.
- `PacketVideoParam`: it offers little beyond `PacketVideoData`.
- Floating-point printing in cJSON, and rounding in its number parsing: they depend on `pow` and `sprintf`.
- Case-insensitive member lookup, references, `cJSON_Delete` and the creation helpers: they would only add easy members.
- Backup failure reporting: its results are unsigned bytes compared with zero, so nothing is claimed about failed runs.
- The weekly schedule of `StreamScheduleProc`: the model lets a controller start or stop an entry at any time.
- StoreRecorder.Recorder.FlushTurn: the method is the whole turn; frames written during it are modelled in `StoreFlush`, and a failing `open` or `write` is not.
- StoreRecorder.Recorder.Stop: when its clearing leaves the buffer the model clears up to the end and counts the bytes behind it; what they destroy is not modelled.
- StoreRecorder.Recorder.Write: accesses that would leave a buffer are excluded (no key frame in the buffer, a group that does not fit a fresh buffer).
- JsonParser.ReadText: inputs on which the original reads past its text or writes past its allocation are excluded; they are the ones for which `ParseText` gives `Overrun`. By `TextStays` a backslash before the end of the text or a `\u` whose places leave its literal is needed for that, and by `ParseJsonText` no JSON text is one of them.
- JsonParser.CountPass: the same inputs are excluded.
- JsonParser.ReadString: the same inputs are excluded.
- JsonParser.ReadItems: the same inputs are excluded.
- JsonParser.ReadArray: the same inputs are excluded.
- JsonParser.ReadMembers: the same inputs are excluded.
- JsonParser.ReadObject: the same inputs are excluded.
- JsonParser.ReadValue: the same inputs are excluded. The nodes it builds are values; their links are modelled in `JsonNodes` only.
- JsonMinify.Minify: unterminated strings and block comments, on which the original runs past the end, are excluded.
- JsonPrinter.PrintValue: lengths are unbounded integers; texts beyond the C int range are not modelled.
- JsonBuffered.PrintBuffered: texts within 21 bytes of 2^30 and longer are excluded, where `pow2gt` overflows.
- JsonNodes.AddItemToArray: an item whose `next` is set would bring its own chain with it, and one whose `prev` is set would be a first child with a predecessor; both are excluded.
- JsonNodes.InsertItemInArray: the same where the new item is appended; elsewhere its links are overwritten.
- StoreRecorder.GetOneFrameByIndex: a marked record whose frame would lie outside the file, which the original reads past its end, is excluded.
- JsonMinify.CopyString: the same as for `Minify`.
- Replay.StartPlaybackStoreFile: the parameter packet and its time stamps are left out; files whose marked records leave the file or fill it to its front, and packets larger than the body buffer, which the original does not check, are excluded.
- VideoPacket.Player.ParseVideoData: a frame of size zero in front of a 4-byte start code, for which the original lists an uninitialised unit, is excluded.
- JsonNodes.Duplicate: string buffers are values, so sharing of them is not modelled.
