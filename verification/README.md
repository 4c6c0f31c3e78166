# A model of ffprobe's writers, ffplay's playback engine, ffserver, and ffmpeg's frame handling

The project models five parts of the repository and proves what they promise.

- **ffprobe's structured writers.** `ProbeReport` is what ffprobe reports: chapters of sections of
  entries and tags. `JsonReport`, `XmlReport` and `CsvReport` define the text of a whole run;
  `JsonWriter`, `XmlWriter` and `CsvWriter` are the writers as objects that append to their output
  call by call, proved to print that text. `JsonGrammar`, `XmlGrammar` and the first part of
  `CsvReport` are independent readers (RFC 4627 sections 2 to 2.5; the tags, attributes and
  references of XML 1.0; rules 4 to 7 of section 2 of RFC 4180). The main results say exactly when
  the text parses, and that it then parses to the report; `JsonDocument` and `XmlDocument` say what
  a reader then finds, chapter by chapter, for the reports that main and probe_file build, and
  `JsonLayout` how the text is laid out in lines. The JSON writer repeats its comma after a
  type prefix and before tags whether or not the section printed an entry, so the JSON result is an
  equivalence with that condition, and the counterexample that the option `-show_format` with an
  entry filter reaches is stated as a lemma. The flag `print_packets_and_frames` is read in every
  section but set only in a multi-entry chapter; the expected document follows the flag.
- **ffplay's playback engine** and the player's smaller copies of it: the subtitle blend
  (`SubtitleBlend`), the packet queue (`PacketQueue`), the seek protocol (`SeekProtocol`), blocking
  and waking (`WakeUp`), the picture ring (`PictureRing`), the frame timer (`FrameTimer`) and audio
  re-chunking (`AudioChunks`).
- **ffserver**: connection and bandwidth accounting (`ServerAccounting`), RTSP replies and RTP frames
  on one connection (`RtspInterleave`), and the circular feed store with its reader (`FeedStore`).
- **ffmpeg's constant- and variable-rate frame resampling** (`FrameRate`).
- **ffmpeg's pool of reference-counted frame buffers** (`BufferPool`).

`Options` and `Bytes` hold what several modules share.

An object that the source updates in place is a class with the same fields; its invariant `Valid` is
established by the constructor and kept by every method, so it holds in every reachable state, and
ghost fields record the history that the conservation statements speak of. Threads are modelled as
steps, one for each critical section or unlocked access, and the theorems quantify over every
interleaving. Results of calls into the codec, the allocator, the file system and the network are
parameters. Times and durations are exact reals.

Where the code does not do what its neighbours suggest, the code is followed and the exact condition
is proved: JSON with a section that prints no entry (`JsonReport.ReportIsJson`), tags of a CSV section
without entries (`CsvReport.SectionIsRecord`, `CsvReport.FileIsCsv`), the right-hand chroma in the
last row of a subtitle and the chroma of one whose first row is handled alone and ends in one column
(`SubtitleBlend.ChromaMeetsSpecIff`), a flush packet of a seek lost to a failed allocation
(`SeekProtocol.LostFlushIsUnsafe`, `SeekProtocol.LostFlushRun`), an abort with two waiting consumers
(`WakeUp`), a timer reset after an automatic exit (`FrameTimer.HarmfulResetHurts`,
`FrameTimer.LostNullRun`, `FrameTimer.SwitchedAtEndRun`), a feed file whose index is at its limit
(`FeedStore.StoredOnCircleIff`, `FeedStore.ReaderFollowsIff`), and variable-rate timestamps of
pictures longer than 1.6 frames (`FrameRate.VfrIncreasesIff`).

## Model

| member | source | states |
|---|---|---|
| JsonReport.ReportIsJson | jni/ffmpeg/ffprobe.c:764-925 | For every report, pretty or compact, the whole text is JSON exactly when each section with a type prefix or tags prints at least one entry; it then parses to the nested document the calls describe. |
| JsonDocument.RunIsDocument | jni/ffmpeg/ffprobe.c:800-861 | For every report of lists and records, each chapter once, as main and probe_file build them, pretty or compact: the output is JSON exactly if every section has what its commas separate; it then is an object with one member for each chapter, in order, no name twice; packets, frames, streams and libraries are arrays with one object for each section, in order; and every object holds the type where the flag asks for it, the printed entries in order with their values, and the tags. |
| JsonReport.ScanUndoesEscape | jni/ffmpeg/ffprobe.c:764-782 | Reading an escaped string up to its closing quotation mark gives back the original bytes and stops there. |
| JsonReport.NoSelectedEntryBreaksJson | jni/ffmpeg/ffprobe.c:901-925 | A format section with tags whose entries are all filtered out makes the output unparsable: the condition on entries cannot be dropped. |
| JsonReport.SectionLexes | jni/ffmpeg/ffprobe.c:833-861 | The text of one section reads as the tokens of one object: optional name, optional type member, entries, tags. |
| JsonReport.UnreadableObject | jni/ffmpeg/ffprobe.c:845-850 | A section that violates the condition makes a reader reject whatever follows it. |
| JsonReport.IntTextIsNumber | jni/ffmpeg/ffprobe.c:887-899 | A printed integer is one number token, whatever follows that cannot continue a number. |
| JsonLayout.SectionOnLines | jni/ffmpeg/ffprobe.c:833-925 | Compact output prints every section on a single line, whatever its strings hold, as the documentation of that option promises; other output gives each brace, entry and tag a line of its own. |
| JsonGrammar.ParseInvertsTokens | jni/ffmpeg/ffprobe.c:784-925 | The reader of objects, arrays and values inverts the token form of every document and stops at its end. |
| JsonWriter.EscapeStr | jni/ffmpeg/ffprobe.c:764-782 | The escaping loop produces the specified escaped string. |
| JsonWriter.Writer.PrintChapterHeader | jni/ffmpeg/ffprobe.c:800-819 | Comma between chapters, array opening for a multi-entry chapter; the sticky flag changes only there. |
| JsonWriter.Writer.PrintChapterFooter | jni/ffmpeg/ffprobe.c:821-831 | Closes the array exactly if the header opened one, and restores the indent level. |
| JsonWriter.Writer.PrintSectionHeader | jni/ffmpeg/ffprobe.c:833-850 | Comma between sections, name outside arrays, type member when the flag is set; the item count restarts. |
| JsonWriter.Writer.PrintSectionFooter | jni/ffmpeg/ffprobe.c:852-861 | Closes the object and counts the section. |
| JsonWriter.Writer.PrintInteger | jni/ffmpeg/ffprobe.c:285-292 | Prints a selected integer entry after a separator unless it is the first, and nothing otherwise. |
| JsonWriter.Writer.PrintString | jni/ffmpeg/ffprobe.c:294-303 | Prints a selected string entry unless it is optional. |
| JsonWriter.Writer.ShowTags | jni/ffmpeg/ffprobe.c:901-925 | Prints the tags object of the specification for a dictionary, nothing for none. |
| JsonWriter.Writer.PrintReport | jni/ffmpeg/ffprobe.c:1573-1607 | A run in the order of calls that main and probe_file use prints the specified text, which parses to the report exactly under the condition above. |
| XmlReport.ReportIsXml | jni/ffmpeg/ffprobe.c:1032-1146 | For every report with XML names the whole text is well formed (tags nest and match, no attribute twice) exactly when no printed value has an illegal character and no section prints a key twice; it then denotes the report's elements. |
| XmlDocument.RunIsDocument | jni/ffmpeg/ffprobe.c:1057-1100 | For the same reports, well-formed output has a root with one child for each chapter, in order; packets, frames, streams and libraries are elements with one child for each section, in order; every section element has its printed entries as attributes in order and one child for each tag. |
| XmlReport.ScanUndoesEscape | jni/ffmpeg/ffprobe.c:1014-1030 | Decoding the references of an attribute value gives back the original string with white space normalised, and fails exactly on illegal characters. |
| XmlReport.ValueComesBack | jni/ffmpeg/ffprobe.c:1014-1030 | The normalised value is the original exactly if it holds no tab or line break. |
| XmlReport.SectionReads | jni/ffmpeg/ffprobe.c:1083-1100 | The flag within_tag closes a section as an empty tag or with an end tag as its content requires. |
| XmlGrammar.ParseInvertsTokens | jni/ffmpeg/ffprobe.c:1057-1100 | The reader of nested elements inverts their token form. |
| XmlWriter.EscapeStr | jni/ffmpeg/ffprobe.c:1014-1030 | The escaping loop produces the specified escaped string. |
| XmlWriter.Writer.PrintChapterHeader | jni/ffmpeg/ffprobe.c:1057-1071 | Blank line between chapters, element opening for a multi-entry chapter. |
| XmlWriter.Writer.PrintSectionHeader | jni/ffmpeg/ffprobe.c:1083-1089 | Opens a start tag and remembers that it is open. |
| XmlWriter.Writer.PrintSectionFooter | jni/ffmpeg/ffprobe.c:1091-1100 | Closes the start tag or writes the end tag. |
| XmlWriter.Writer.ShowTags | jni/ffmpeg/ffprobe.c:1120-1146 | Closes an open start tag before the first tag and prints one element per tag. |
| XmlWriter.Writer.PrintReport | jni/ffmpeg/ffprobe.c:1573-1607 | A run prints the specified text, which is well formed exactly under the condition above. |
| CsvReport.FieldReads | jni/ffmpeg/ffprobe.c:524-545 | An escaped field is read back as the original string whatever follows that ends a field. |
| CsvReport.RecordReads | jni/ffmpeg/ffprobe.c:624-657 | A line of escaped fields is read back as those fields. |
| CsvReport.SectionIsRecord | jni/ffmpeg/ffprobe.c:624-678 | A section's line is read back as its name and all values exactly when it has entries or exactly one tag; tags of a section without entries run together. |
| CsvReport.FileIsCsv | jni/ffmpeg/ffprobe.c:624-698 | A whole run whose section names need no quotation marks is read back as one record per section, in order, exactly when every section has entries or exactly one tag. |
| CsvReport.RecordsShow | jni/ffmpeg/ffprobe.c:624-698 | The condition in terms of the report: every section has a chosen entry or exactly one tag; each record then is the name, the fields of the entries and the text of every tag. |
| CsvReport.FieldsInOrder | jni/ffmpeg/ffprobe.c:285-303 | One field for each entry in order, optional or not, in the format chapter for each one chosen; a field is the text or a numeral of the number. |
| CsvReport.NoSelectedEntryMergesTags | jni/ffmpeg/ffprobe.c:659-678 | A format section with two tags whose entries are all filtered out is not read back: the condition cannot be dropped. |
| CsvWriter.EscapeStr | jni/ffmpeg/ffprobe.c:524-545 | The scan for characters that need quotation marks and the doubling loop produce the specified field. |
| CsvWriter.Writer.PrintString | jni/ffmpeg/ffprobe.c:636-647 | Appends an escaped field after a separator unless it is the first. |
| CsvWriter.Writer.ShowTags | jni/ffmpeg/ffprobe.c:659-678 | Appends the tag values, separated only if the section has entries. |
| CsvWriter.Writer.PrintFile | jni/ffmpeg/ffprobe.c:1573-1607 | A run prints the specified lines, which read back as the records exactly when every section is separable. |
| ProbeReport.NatTextReads | jni/ffmpeg/ffprobe.c:649-657 | A printed natural number is all digits, without a leading zero, and denotes that number. |
| ProbeReport.IntTextReads | jni/ffmpeg/ffprobe.c:887-899 | A printed integer denotes that integer. |
| ProbeReport.PrintedInOrder | jni/ffmpeg/ffprobe.c:285-303 | The printed entries are, in order, those that are not optional strings and, in the format chapter, are chosen. |
| SubtitleBlend.BlendSubrect | jni/ffmpeg/ffplay.c:480-678 | For every parity of position and size, every sample of all three planes: a luma sample is the single blend of the palette entry at its row and column inside the clipped rectangle and the old value outside; a chroma sample is the single blend of the pixels under its 2x2 cell, with two exceptions: a last row handled alone drops the chroma of the left-hand pixel of each full pair of columns, and after a first row that leaves the chroma pointers behind the cells of all later rows land one sample to the left. |
| SubtitleBlend.CodeCellIsCell | jni/ffmpeg/ffplay.c:636-677 | What is blended into a chroma sample is the sum of all pixels under its 2x2 cell exactly unless a last row handled alone has a full pair of columns whose left pixel adds chroma. |
| SubtitleBlend.ChromaMeetsSpecIff | jni/ffmpeg/ffplay.c:538-677 | For an area and any line size with room for it, every bitmap leaves every chroma sample with the single blend of the pixels under its cell exactly if neither exception applies: the first row is not handled alone, ends in a full pair or is the only row; and the last row is not handled alone or has no full pair of columns. |
| SubtitleBlend.LastRowLosesChroma | jni/ffmpeg/ffplay.c:655-668 | A white dot on opaque black, as the left-hand pixel of the first full pair in a last row handled alone, leaves no chroma. |
| SubtitleBlend.DriftMissesLastSample | jni/ffmpeg/ffplay.c:538-550 | In every call whose first row leaves the chroma pointers behind, in both chroma planes, the last sample under the area keeps its value though it covers a pixel. |
| SubtitleBlend.BlendStaysByte | jni/ffmpeg/ffplay.c:451-452 | Every blend of byte samples is a byte; alpha 0 keeps, alpha 255 replaces. |
| SubtitleBlend.BlendIsMix | jni/ffmpeg/ffplay.c:451-452 | A blend is the sum of old and new samples weighted by 255 - alpha and alpha, divided by 255 times their number and rounded down. |
| SubtitleBlend.BlendMoves | jni/ffmpeg/ffplay.c:451-452 | As alpha grows the blend moves from the old sample towards the mean of the new ones. |
| SubtitleBlend.BlendLiesBetween | jni/ffmpeg/ffplay.c:451-452 | The blend lies between the old sample and the mean of the new ones. |
| SubtitleBlend.LumaIsMix | jni/ffmpeg/ffplay.c:451-478 | A luma sample inside the area is the mix by the alpha and the luma of its palette word, byte by byte of the word; outside it is kept. |
| SubtitleBlend.ChromaIsMix | jni/ffmpeg/ffplay.c:551-634 | A chroma sample over n pixels is the mix of the old sample and the mean of their chromas by a quarter of their summed alpha; n is never 3, and a sample over none is kept. |
| SubtitleBlend.CellSums | jni/ffmpeg/ffplay.c:551-634 | The cell of a chroma sample counts and sums the pixels of its 2x2 square that lie in the area. |
| SubtitleBlend.ClippedArea | jni/ffmpeg/ffplay.c:489-492 | The clipped rectangle lies inside the image; each coordinate and length is the given one, or the nearest bound if that is exceeded. |
| SubtitleBlend.BlendPass | jni/ffmpeg/ffplay.c:504-550 | One pass over the columns blends exactly the samples of its rows and moves the pointers as the next pass needs them. |
| SubtitleBlend.PassCellIsCodeCell | jni/ffmpeg/ffplay.c:551-677 | The cells a pass meets are those of the whole-call specification. |
| PacketQueue.Queue.PutPrivate | jni/ffmpeg/ffplay.c:309-332 | Appends the packet unless aborted or out of memory; the list stays a list, the counters its length and size. |
| PacketQueue.Queue.Get | jni/ffmpeg/ffplay.c:405-438 | Takes the first packet, or reports abort, emptiness or the need to wait; what leaves is recorded as delivered. |
| PacketQueue.Queue.Flush | jni/ffmpeg/ffplay.c:361-376 | Frees every queued packet once, in order, and leaves an empty queue. |
| PacketQueue.Queue.Start | jni/ffmpeg/ffplay.c:396-403 | Clears the abort flag and queues the flush packet first. |
| PacketQueue.FirstInFirstOut | jni/ffmpeg/ffplay.c:309-438 | In every reachable queue the k-th packet that left is the k-th accepted. |
| PacketQueue.LeavesOnce | jni/ffmpeg/ffplay.c:361-438 | Every packet has been delivered, freed or is still queued as many times as it was accepted, also the flush packet, which is accepted many times. |
| SeekProtocol.SeekSafety | jni/ffmpeg/ffplay.c:2645-2671 | On every interleaving with any number of seeks and stream switches, packets from different sides of a successful seek never reach the codec without it being flushed or closed between them, if flush packets of a seek are lost to failed allocations only when none is needed; one of a start may always be lost. |
| SeekProtocol.LostFlushIsUnsafe | jni/ffmpeg/ffplay.c:309-332 | If a needed flush packet of a seek is lost, some continuation feeds packets of two epochs without a flush: the condition of SeekSafety is exact. |
| SeekProtocol.LostFlushRun | jni/ffmpeg/ffplay.c:2645-2671 | A run from the start whose flush packet is lost to a failed allocation feeds packets of two epochs without a flush. |
| SeekProtocol.GoodIsSafe | jni/ffmpeg/ffplay.c:1490-1512 | The step-by-step form of the promise is equivalent to the one over pairs of packets. |
| SeekProtocol.StepKeepsInv | jni/ffmpeg/ffplay.c:2212-2490 | Every step of reader, decoder and the thread that closes and opens the stream keeps the invariant. |
| SeekProtocol.SeekFlushesCodec | jni/ffmpeg/ffplay.c:2645-2671 | Without anything in between, a seek that succeeds empties the queue and has the codec flushed; one that fails leaves everything as it is. |
| SeekProtocol.SwitchStartsAfresh | jni/ffmpeg/ffplay.c:2212-2490 | An open stream can be closed from every state, which leaves queue, hand and codec empty; the next start opens it with the flush packet in front. |
| SeekProtocol.ClosedSeek | jni/ffmpeg/ffplay.c:2645-2671 | A seek goes past the queue of a stream that is not open. |
| SeekProtocol.NothingIsSkipped | jni/ffmpeg/ffplay.c:2645-2671 | In every run in which the queue is not emptied after a successful seek and the stream not closed, whatever seeks fail, the decoder gets the packets in the order they were queued and misses none. |
| SeekProtocol.OnlySeekAndCloseEmpty | jni/ffmpeg/ffplay.c:2645-2671 | What each step does to the queue: a failed seek changes nothing, only the emptying and the closing lose packets. |
| WakeUp.NoLostWakeUp | jni/src/packetqueue.cpp:60-121 | With any number of threads, before an abort, while a consumer sleeps unsignalled the queue is no longer than the number of woken consumers. |
| WakeUp.NoPacketIsLost | jni/src/packetqueue.cpp:60-121 | In every run without a flush, with any number of threads and wake-ups, what is put comes out in order, once, or is still queued. |
| WakeUp.SleeperGetsPacket | jni/src/packetqueue.cpp:60-121 | A packet put into an empty queue on which one consumer sleeps wakes that consumer, which gets it. |
| WakeUp.GetsTakeAll | jni/src/packetqueue.cpp:90-121 | As many gets as there are packets take them all, in order. |
| WakeUp.SleepsExactlyIf | jni/src/packetqueue.cpp:90-121 | A get sleeps exactly if it asked to wait, nothing is queued and there was no abort; a woken thread chooses again. |
| WakeUp.OneConsumerSleepsOnlyOnEmpty | jni/src/packetqueue.cpp:90-121 | With one consumer, sleeping unsignalled means the queue is empty and not aborted. |
| WakeUp.AbortWakesEverybodyIff | jni/src/packetqueue.cpp:123-128 | A signal that wakes one thread leaves nobody asleep after an abort exactly if at most one slept. |
| WakeUp.LeftAsleep | jni/src/packetqueue.cpp:90-128 | A thread left asleep by an abort stays asleep while nothing is put and no wait ends by itself. |
| WakeUp.AbortStrandsSecondConsumer | jni/src/packetqueue.cpp:123-128 | The run in which an abort strands the second of two consumers. |
| PictureRing.RingIsSafe | jni/ffmpeg/ffplay.c:1379-1481 | Under all interleavings and for every capacity: windex is rindex plus the corrected size modulo capacity, the size stays in bounds, the slot being written or allocated is neither displayed nor peeked at, and pictures leave in the order they entered. |
| PictureRing.StepKeepsInv | jni/ffmpeg/ffplay.c:1126-1135 | Every step of either thread, with indices moved before the size is published, keeps the invariant. |
| PictureRing.RunKeepsInv | jni/src/videodecoder.cpp:183-327 | The same for the runs of the player's decoder. |
| PictureRing.SpaceCheckIsExact | jni/src/videodecoder.cpp:183-187 | While a picture is displayed the slot to write is another one exactly if the published size leaves space. |
| PictureRing.PictureGoesIn | jni/ffmpeg/ffplay.c:1379-1481 | From every reachable state with space the decoder thread alone can bring a picture into the ring, as the last one. |
| PictureRing.PictureComesOut | jni/ffmpeg/ffplay.c:1126-1135 | From every reachable state with a published picture the display thread alone can let go the first one that entered. |
| PictureRing.AllocatedOnRequest | jni/ffmpeg/ffplay.c:1379-1424 | A requested bitmap is allocated whenever the display thread rests, after which the picture can be written; giving up leaves the ring as it was. |
| PictureRing.PostponedIsSeenAgain | jni/ffmpeg/ffplay.c:1173-1185 | A picture that is not due stays in the ring and is seen again. |
| PictureRing.NeverBothWait | jni/ffmpeg/ffplay.c:1379-1424 | In every reachable state one of the threads can take a step that is neither giving up nor postponing. |
| FrameTimer.TimerFollowsClock | jni/ffmpeg/ffplay.c:1173-1191 | In every run with any seeks, stream switches and lost packets in which the reader does not exit by itself, or does but neither loses a null packet nor has the stream switched at the end of the file, the timer never passes the clock, the recorded duration stays in [0,10), and after a picture with positive delay is accepted the timer lags by less than that delay. |
| FrameTimer.LoopAbortsAreHarmless | jni/ffmpeg/ffplay.c:2795-2848 | However often the event loop aborts the queue, by a stream switch or at the end, no reset falls into a move of the timer. |
| FrameTimer.NoMishapNoHarm | jni/ffmpeg/ffplay.c:2682-2708 | With the automatic exit, a reset falls into a move only after a null packet was lost or the stream was switched between the null packet and the look at the queues. |
| FrameTimer.HarmlessRunFollowsClock | jni/ffmpeg/ffplay.c:1173-1191 | The same timing in any run whose resets are harmless, whatever aborted the queue. |
| FrameTimer.HarmfulResetHurts | jni/ffmpeg/ffplay.c:1501-1507 | Any reset that is not harmless, at whichever access of the move it falls, needs an abort by the reader, and the move then ends beyond the clock or loses the reset. |
| FrameTimer.LostNullRun | jni/ffmpeg/ffplay.c:2682-2708 | Under -autoexit, a run in which the null packet is lost to a failed allocation while the decoder waits in a flush: the reader aborts, the decoder resets the timer before the move, and it ends 5 seconds beyond the clock. |
| FrameTimer.SwitchedAtEndRun | jni/ffmpeg/ffplay.c:2682-2848 | The same without a failed allocation, when the stream is switched between the null packet and the look at the queues. |
| FrameTimer.MoveEndsJustBefore | jni/ffmpeg/ffplay.c:1187-1191 | The whole delays elapsed when a picture is found due take the timer to less than a delay before that time; there is at least one exactly if the picture is due, and the number is negative exactly if the timer is past that time. |
| FrameTimer.LookAtPicture | jni/ffmpeg/ffplay.c:1164-1189 | Undisturbed, a look at the next picture records its duration exactly if that is above 0 and below 10 seconds, and leaves it for later exactly if the clock has not reached the end of the delay. |
| FrameTimer.ShowPicture | jni/ffmpeg/ffplay.c:1190-1195 | Undisturbed, a due picture leaves the ring, its time is the last one, and the timer ends less than its delay before the time at which it was found due, and not after it. |
| FrameTimer.ThreadsGoOn | jni/ffmpeg/ffplay.c:2645-2708 | The reader comes back to reading from every seek and from the end of the file; an empty ring is passed over. |
| FrameTimer.DelayDirection | jni/ffmpeg/ffplay.c:1097-1124 | A positive delay is dropped exactly if a slaved video is behind its clock by at least the larger of 0.01 seconds and the delay, and doubled exactly if it is ahead by as much, in both cases by less than 10 seconds. |
| FrameTimer.PlanNeverAdds | jni/ffmpeg/ffplay.c:1097-1124 | In every reachable state, within 10 seconds of the clock, a plan brings the video no further from it and not past it. |
| FrameTimer.NeverDriftsAway | jni/ffmpeg/ffplay.c:1097-1124 | The same over a run of pictures of any durations. |
| FrameTimer.CatchesUp | jni/ffmpeg/ffplay.c:1097-1124 | After n pictures of one duration the video is within the larger of 0.01 seconds and that duration, or n durations nearer than at the start. |
| FrameTimer.TargetDelay | jni/ffmpeg/ffplay.c:1097-1124 | The delay becomes 0, itself or twice itself, and only for a slaved video. |
| AudioChunks.AudioOutput.Callback | jni/ffmpeg/ffplay.c:2230-2261 | Fills the request from decoded or silent buffers of any size; what was played and the rest of the last buffer stay the concatenation of all buffers. |
| AudioChunks.AudioOutput.Copy | jni/src/audiodecoder.cpp:180-186 | One copy moves as many bytes as both sides allow and nothing else. |
| AudioChunks.AudioOutput.Refill | jni/src/audiodecoder.cpp:169-178 | The buffer becomes the decoded bytes, or as many zeros as the silence has bytes after an error, and the index restarts. |
| AudioChunks.PlayedIsPrefix | jni/ffmpeg/ffplay.c:2240-2261 | Whatever the request and buffer lengths, what an output has played is a prefix of the supplied sound. |
| AudioChunks.PlayedByte | jni/ffmpeg/ffplay.c:2240-2261 | Every byte played is the byte of the decoded frame at its place, and 0 in the place of a failed call. |
| AudioChunks.PlayedIsData | jni/src/audiodecoder.cpp:169-186 | If no call failed, what was played is a prefix of the decoded data put together. |
| AudioChunks.OneBufferAhead | jni/ffmpeg/ffplay.c:2241-2253 | The decoder is never more than one buffer ahead of the output. |
| AudioChunks.SilenceKeepsFramesIff | jni/src/audiodecoder.cpp:171-174 | Silence keeps every sound in whole sample frames exactly if its length is a whole number of frames. |
| AudioChunks.AudioOutput.Ffplay | jni/ffmpeg/ffplay.c:2244-2246 | The silence of ffplay is the largest whole number of frames that fits the silence buffer, for every frame size. |
| AudioChunks.ChannelsStayInStep | jni/ffmpeg/ffplay.c:2240-2261 | With such silence and whole decoded frames, the next byte to be played is at the same place of its frame as in the decoded buffer, whatever the request lengths. |
| ServerAccounting.BooksAreRight | jni/ffmpeg/ffserver.c:1591-1618 | In every reachable state the counter is the length of the list and within the limit, the bandwidth counter is the sum of the charges and fits 64 bits, live HTTP connections that were not refused stay within the configured bandwidth, and no session refers to an RTSP connection that was closed. |
| ServerAccounting.Server.NewConnection | jni/ffmpeg/ffserver.c:778-825 | Adds a waiting connection exactly if the limit and memory allow it. |
| ServerAccounting.Server.RtpNewConnection | jni/ffmpeg/ffserver.c:3300-3361 | Adds a session and charges its bandwidth exactly if the limit and memory allow it. |
| ServerAccounting.Server.ParseRequest | jni/ffmpeg/ffserver.c:1462-1870 | Every outcome of a request keeps the books; it charges a live GET once, accepts it exactly if the bandwidth then charged is within the limit, records the stated status, and marks a feed as received only for its feeder. |
| ServerAccounting.AcceptedIff | jni/ffmpeg/ffserver.c:1611-1870 | A request is accepted exactly if its stream is there, not redirected and not being received, no redirecting file is asked for, and a GET fits the bandwidth and its input opens, or a POST is for a feed whose file opens. |
| ServerAccounting.RefusedWith | jni/ffmpeg/ffserver.c:1591-1870 | 301 exactly for a redirected stream, 503 exactly for a GET beyond the bandwidth, 200 exactly for an affordable redirecting file or status page, otherwise 404. |
| ServerAccounting.Server.Answer | jni/ffmpeg/ffserver.c:1478-1870 | The order of the tests decides the status, which requests count as served, and that a refused request stays charged until it is closed. |
| ServerAccounting.Server.Serve | jni/ffmpeg/ffserver.c:1740-1870 | A request that gets as far as its stream counts as served once, becomes the feeder of a feed whose file opens, is answered by the status page, or is sent the input that opens; otherwise it gets 404. |
| ServerAccounting.Server.SendOver | jni/ffmpeg/ffserver.c:3428-3432 | A session over TCP refers to the RTSP connection it is sent on. |
| ServerAccounting.Server.CloseConnection | jni/ffmpeg/ffserver.c:827-912 | Unlinks exactly this connection, clears the references of sessions to it, takes its charge off and frees its feed. |
| RtspInterleave.RtspConnection.SendData | jni/ffmpeg/ffserver.c:2485-2533 | The first packets of a session's buffer go out framed and in order, only on an idle connection, each to the extent the socket took of it; a busy connection leaves the buffer alone, a packet buffer that cannot be opened drops what is left of it, and other sessions are not affected. |
| RtspInterleave.RtspConnection.Continue | jni/ffmpeg/ffserver.c:1030-1081 | Of the pending bytes exactly the first ones, as many as the socket took, go to the wire; the connection is free exactly when all are taken, and an error takes none. |
| RtspInterleave.RtspConnection.Answer | jni/ffmpeg/ffserver.c:2908-2918 | A reply becomes the pending unit. |
| RtspInterleave.OnlyLastIncomplete | jni/ffmpeg/ffserver.c:1030-1081 | On every connection the wire is whole units with only the last possibly incomplete, and none when the connection is idle. |
| RtspInterleave.FrameReads | jni/ffmpeg/ffserver.c:2505-2513 | A frame is read back as its channel and payload exactly if the payload is shorter than 65536 bytes. |
| RtspInterleave.StreamReads | jni/ffmpeg/ffserver.c:2485-2533 | A finished stream is taken apart into exactly the replies and packets put on it, in order. |
| RtspInterleave.WireReads | jni/ffmpeg/ffserver.c:1030-1081 | The bytes that the sends of a connection took, put together, are its wire, and at any time it is taken apart into the units put on it, without the last one while that is not sent completely. |
| RtspInterleave.FirstPacket | jni/ffmpeg/ffserver.c:2462-2474 | The length prefix delimits the next packet of a session's buffer. |
| FeedStore.Feed.constructor | jni/ffmpeg/ffserver.c:3767-3781 | The server starts with any file of whole packets and raises a smaller limit to its size, keeping any other; the index is then on the circle exactly unless the limit is at most the size of the file and the index at its end. |
| FeedStore.Feed.Open | jni/ffmpeg/ffserver.c:2566-2601 | Opening for reception takes up the index of the header, after cutting the file to its header if asked for. |
| FeedStore.Feed.Store | jni/ffmpeg/ffserver.c:2673-2700 | Storing a packet keeps: aligned index, bounded file, and the slots of the circle hold the last packets stored on it in order; a packet stored with the index at the limit goes beyond the circle for good and makes the file longer than the circle. |
| FeedStore.StoredOnCircleIff | jni/ffmpeg/ffserver.c:2680-2694 | For every file, aligned index and limit: whatever packet is stored, the last packets are kept in circular order, exactly if the index is below the limit. |
| FeedStore.OpensBeyondIff | jni/ffmpeg/ffserver.c:3774-3779 | A file opens with its index at the limit exactly if the configured limit is at most its size and its index is at its end. |
| FeedStore.LoweredLimit | jni/ffmpeg/ffserver.c:3776-3779 | Lowering the limit of a feed that has not wrapped opens it so. |
| FeedStore.FirstPacketMissed | jni/ffmpeg/ffserver.c:2680-2694 | The first packet stored then is in the slot after the circle, and the circle does not hold it. |
| FeedStore.DataWritten | jni/ffmpeg/ffserver.c:2680-2694 | Writing at the index and wrapping keeps the last min(n, K) packets, K the slots that start below the limit. |
| FeedStore.WrapTest | jni/ffmpeg/ffserver.c:2692-2694 | From every slot, on the circle or beyond it, the comparison with the limit is the step to the next slot of the circle; a slot is on the circle exactly if it starts below the limit. |
| FeedStore.SizeBoundIsExact | jni/ffmpeg/ffserver.c:2600-2601 | A packet keeps the size bound exactly if its index is below the limit. |
| FeedStore.ReopenResumes | jni/ffmpeg/libavformat/ffmdec.c:31-52 | The index written to the header is the one read when the feed is opened again, and the file may be opened with any limit. |
| FeedStore.ReaderFollows | jni/ffmpeg/libavformat/ffmdec.c:62-164 | A reader m packets behind, fewer than the slots, is told of m packets and reads exactly the last m in order across the wrap. |
| FeedStore.ReaderFollowsIff | jni/ffmpeg/libavformat/ffmdec.c:62-164 | In a file of whole packets a reader on the circle is told of the m packets it is behind and reads exactly them, if and only if it does not cross the end of the file or the file is no longer than the circle. |
| FeedStore.StaleSlotIsRead | jni/ffmpeg/libavformat/ffmdec.c:62-164 | With one slot more, a reader that crosses the end of the file is told of one packet more and reads what that slot holds between the others. |
| FeedStore.FirstPacketReadAgain | jni/ffmpeg/libavformat/ffmdec.c:62-164 | A feed whose first packet went beyond the circle serves it again to every reader on every round. |
| FeedStore.FullCircleReadsNothing | jni/ffmpeg/libavformat/ffmdec.c:77-79 | The oldest packet of a full circle is out of reach. |
| Bytes.BigEndianReads | jni/ffmpeg/libavformat/ffmdec.c:31-52 | A number that fits its bytes is read back. |
| Bytes.BigEndianPart | jni/ffmpeg/libavformat/ffmdec.c:41-52 | A number that does not fit its bytes comes back no larger and with the same low bytes. |
| FrameRate.OutputStream.DoVideoOut | jni/ffmpeg/ffmpeg.c:1899-2056 | One call changes the counters and emits timestamps as specified, with the method of the command line or the one the format implies; the duplicate loop ends. |
| FrameRate.FramesAreAccounted | jni/ffmpeg/ffmpeg.c:1951-1958 | Over any run frames are calls plus duplicates less drops, equal to the timestamps emitted, and never above the limit. |
| FrameRate.CfrDriftIsBounded | jni/ffmpeg/ffmpeg.c:1916-1936 | At a constant rate the drift stays between -2.1 and 0.5 over runs of any length below the limit. |
| FrameRate.LowestDrift | jni/ffmpeg/ffmpeg.c:1932-1935 | The lower bound is reached. |
| FrameRate.HighestDrift | jni/ffmpeg/ffmpeg.c:1934-1935 | The upper bound is reached, with rounding half to even. |
| FrameRate.CfrCountsUp | jni/ffmpeg/ffmpeg.c:2042-2051 | At a constant rate the timestamps are 0, 1, 2 and so on. |
| FrameRate.CfrFollows | jni/ffmpeg/ffmpeg.c:1932-1936 | At a constant rate one more picture adds no frame exactly if it ends more than 1.1 frames before those encoded, one if it ends within 1.1 frames of them, and otherwise as many as bring them within half a frame of its end, unless the limit comes first. |
| FrameRate.VfrFollows | jni/ffmpeg/ffmpeg.c:1937-1942 | At a variable rate one more picture is dropped exactly if it ends 0.6 frames or more before the next timestamp, keeps its own timestamp exactly if it ends more than 0.6 frames after it, and otherwise gets the next. |
| FrameRate.PassthroughKeepsTimes | jni/ffmpeg/ffmpeg.c:1943-1946 | The other methods give every picture its own timestamp, once, up to the limit. |
| FrameRate.AutoRuns | jni/ffmpeg/ffmpeg.c:1921-1929 | Left to the format, the method of a fixed rate counts up from 0, that of a variable rate without timestamps keeps those of the pictures, and that of any other variable rate repeats nothing and increases for pictures up to 1.6 frames; a method that is set is used. |
| FrameRate.VfrIncreasesIff | jni/ffmpeg/ffmpeg.c:1937-1942 | At a variable rate the timestamps are strictly increasing for all pictures of a duration exactly if it is at most 1.6 frames. |
| FrameRate.Round | jni/ffmpeg/ffmpeg.c:1935-1945 | The nearest integer, half to even. |
| BufferPool.InputStream.GetBuffer | jni/ffmpeg/ffmpeg.c:608-648 | Hands out a buffer of the right size that nobody holds, reused, replaced or new; fails exactly when the size check or a needed allocation fails. |
| BufferPool.InputStream.Share | jni/ffmpeg/ffmpeg.c:2708-2724 | A filter becomes one more holder of a decoded frame's buffer. |
| BufferPool.InputStream.Release | jni/ffmpeg/ffmpeg.c:595-606 | One holder less; the buffer returns to the list exactly when none is left. |
| BufferPool.InputStream.Push | jni/ffmpeg/ffmpeg.c:600-605 | The search for the buffer in the list never finds it, and it becomes the head. |
| BufferPool.InputStream.FreePool | jni/ffmpeg/ffmpeg.c:584-593 | Frees everything in the list once and nothing else; everything that is alive when nobody holds a buffer. |
| BufferPool.InputStream.Drop | jni/ffmpeg/ffmpeg.c:623-628 | A head of another size is freed once and leaves the list. |
| BufferPool.InputStream.FreeAllowed | jni/ffmpeg/ffmpeg.c:584-593 | No held buffer is in the list, so freeing the list frees nothing held. |

## Left out

- FeedStore.Feed.constructor: takes a file of whole packets whose index is the start of a packet inside it, which is what the muxer writes and every method leaves; other files, and the errors of opening and truncating, are not modelled.
- FrameRate.OutputStream.DoVideoOut: rounds the exact difference; the detour of lrintf through single precision and overflow of the frame counters are not modelled.
- AudioChunks.AudioOutput.Player: starts index and size at 0, which the player's decoder does not itself do.
- The escaping named "c" of the compact writer (jni/ffmpeg/ffprobe.c:503-519), which looks at the first character instead of the current one; the default writer; the formatting of times and units.
- Fully qualified names in the XML writer, and the line-end handling of section 2.11 of XML 1.0 before parsing; the JSON reader accepts \u escapes below 0x80 only, which is all the writer prints.
- PacketQueue::flush of the player (jni/src/packetqueue.cpp:47-51), which reads a node after freeing it; ffplay's version is used.
- Pausing, the audio clock, subtitle queues and the display itself in ffplay; a stream switch after the reader has exited; an allocation request still pending when the player's decoder stops.
- jni/src/player.c, an older variant of the same queue and ring.
- Request parsing, access lists, redirect files and status pages of ffserver beyond the status they record; its poll loop; waking of connections that wait for a feed.
- Chunk headers in jni/ffmpeg/ffserver.c:2617-2663, the choice of the RTP or RTCP channel by jni/ffmpeg/ffserver.c:2503, closing a session while one of its packets is partly sent, and a session whose RTSP connection is gone.
- Parsing inside feed packets in jni/ffmpeg/libavformat/ffmdec.c: a packet is an opaque block of 4096 bytes.
- Codecs, demuxers, filters, scaling, sockets, files, SDL, JNI, option parsing and logging.
