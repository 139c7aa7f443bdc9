# Containers: a verified model

The `containers` library reads and writes multimedia container files. This project models its stateful core in Dafny:
the cached and asynchronous I/O layer, the seek index, the packet byte stream and packetizer queue, the AVC to Annex B
packetizer, the bit reader, the URI parser and builder, and the AVI and ASF writers together with the AVI reader's index
seek and the ASF reader's header. Code that updates structures in place is modelled by classes and loops; each method is
proved against a specification on plain sequences, and the laws the library exists for are theorems about runs of those
methods. `dafny verify dfyconfig.toml` checks everything.

## What is proved

**I/O cache** (`IoCache`). Any session of reads, peeks, skips, seeks and writes behaves as a flat file with a cursor, through
alignment shifts, bypass reads and shift-back refills, as long as writes come where nothing read is left in the window and,
if they are as long as the memory area, not after a seek that may go back into bytes not yet flushed; closing leaves the file
that the flat file would be. For any other write the resulting state is given too.

**Asynchronous writer** (`AsyncIo`). A transition system with one action for each step of the client and of the worker
thread. In every interleaving the file receives the posted areas and the seeks once each and in order, the area being
filled is never in flight, a call in progress can always move, and every call ends. However the client's writes are spread
over areas and its seeks go back within the area being filled, once a wait is over the file is the flat file of the cache
model after the same writes and seeks.

**Histogram** (`Histogram`, `HistogramExact`). Sums wrap at 32 bits as in the source. As long as all that is added fits 32
bits, the totals are conserved, and the records are sorted by their quotient, as the header promises, exactly when the shift is
zero; while there are no more different quotients than bins, the table is the exact histogram with any shift. In general the
counts are conserved modulo 2^32, and the other totals exactly where no wrapped record is shifted out.

**Seek index** (`SeekIndex`). The table is the history of accepted entries, every 2^k-th of them, in slots that never have to
be moved; the binary search equals a linear search.

**Byte stream, start codes, packetizer queue** (`ByteStream`, `StartCode`, `Packetizer`). A list of packets is a flat byte
sequence for every packet split; a start-code search that stopped for lack of data resumes to the result of one search over
all data; forced release hands client packets back once and in order without touching the unread bytes.

**AVC packetizer** (`AnnexB`, `NalSearch`, `Avc1`). For every sequence of output buffers and size queries, the concatenated
output of a frame is its Annex B form, and the start and end flags mark the first and the last piece. A decoder that searches
for the three-byte start code prefix finds exactly the units of the frame, a zero byte in front of each prefix, if and only if
no unit contains a prefix of its own or ends with a zero byte.

**Bit reader** (`BitCodes`, `BitReader`). Reads return what the next bits spell; the Exp-Golomb reader inverts the code for
every 32-bit value (sections 9.1 and 9.1.1 of ITU-T H.264).

**URIs** (`UriText`, `UriSpec`, `UriRoundTrip`, `UriCase`, `UriGrammar`, `UriCode`). Parsing a printed URI gives back its
parts exactly when they are well-formed, a condition on the parts alone; the same for plain paths without a scheme. Any string
but a DOS name is parsed into the components that appendix B of RFC 3986 delimits, unescaped, and strings that differ in the
case of the digits of their escapes are parsed alike. The reserved-character tables encode the classes their comments list
(sections 2.1 and 3 of RFC 3986).

**AVI** (`AviFormat`, `AviChunks`, `AviOpenDml`, `AviWriter`, `AviWalk`, `AviReader`, `AviIndex`, `AviSuperIndex`,
`AviReaderSeek`, `AviSeek`, `AviSpelling`). For every interleaving of tracks and fragments the writer leaves exactly the
specified file: headers, chunks with all data in order, a standard index for each track that its super index points at, and a
legacy index. Which packets a chunk holds and whether it is a keyframe is told from the packets alone. A reader that goes from
chunk to chunk by their sizes finds them all exactly if every packet keeps to the size that was announced. Chunk times follow
the frame rate: `den` chunks take `num` seconds, in whole microseconds, and sampled tracks count whole samples. A seek goes by
the super indexes: one track leads, to the latest keyframe up to the request or the first one after it, and every other track
follows to the time of that chunk. Whether the seek succeeds is characterised exactly, and so is the position that each track
ends at. A scan of the legacy index, as for a track without a super index, leads to the header of the selected chunk exactly
when no header was left behind in front of it.

**ASF** (`AsfFormat`, `AsfWriter`, `AsfReader`, `AsfReadBack`). Every object carries the size of what follows it, at every
nesting depth, although nested dry runs into the null sink skip their own sizing; a reader that uses only the size fields finds
exactly the objects written. The header reader of the library, fed with a written header, knows the packet size and of each
track that it has room for the number, the type, all fields of the format and the extradata.

## Where code and promise differ

Each of these is a theorem with its exact condition.

- Skipping a packet from inside it leaves the counter of the byte stream behind by the bytes already read
  (`ByteStream.Stream.SkipPacket`, `Size`); the AVC packetizer does this at the end of every frame (`Avc1.Converter.EndFrame`).
- Without a complete codeword the Exp-Golomb read is promised to fail; it succeeds when the number of bits left is even,
  positive and at most 64, with the second half zero if it is 64 (`BitCodes.IncompleteCode`, `IncompleteAccepted`).
- Skipping a truncated codeword is promised to invalidate the stream; if nothing can be taken for a codeword, the stream
  ends empty but passes for valid when at least 16 bits were available
  (`BitReader.BitStream.SkipExpGolomb`, `BitReader.SkipTruncated`).
- The statistics records are documented as sorted; the write statistics use a shift of 8 (`Histogram.OutOfOrder`,
  `SortedIffUnshifted`). Without a shift, too, they can get out of order once a sum passes 2^32
  (`Histogram.WrapOutOfOrder`).
- A record whose count has wrapped to zero passes for unused, and a later value can drop its total (`Histogram.StoredTotals`,
  `TotalLost`); the totals are conserved modulo 2^32 as long as the counts fit 32 bits (`Histogram.TableModulo`).
- A write after a partial read of a clean window lands at the end of the window: the stream keeps its cursor exactly when
  nothing unread is dropped, and seeking back first is no remedy (`IoCache.ContainerIo.Write`, `IoCache.WriteAfterRead`,
  `IoCache.WriteAfterSeek`).
- A write at least as long as the memory area can bypass it to where the file happens to stand: past bytes not yet flushed, or
  with the file elsewhere after the area in front of the window was refilled (`IoCache.ContainerIo.Write` with its predicate
  `CanWrite`, `IoCache.WriteOverDirty`, `IoCache.WriteElsewhere`).
- The URI parser takes an empty scheme, and drops what follows the closing bracket of a host up to the end of the authority if
  it does not start with a colon; appendix B of RFC 3986 has neither (`UriGrammar.ParsedByGrammar` with its predicate
  `HostDelimited`).
- An empty packet that begins an AVI chunk and does not end it leaves a header behind without an index entry, and all later
  legacy index entries are 8 too low for each (`AviFormat.IndexPointsAtHeader`, `RunHarm`, `Harmful`).
- An announced frame size stays in the header of a chunk that a packet of its track ends, even if the data of the chunk is
  less, as when audio is cut at its size limit or another track interrupts the frame (`AviFormat.RunHarm`, `Harmful`,
  `Interrupted`).
- A finished AVI file has a super index for each track, so a seek in it does not go by the legacy index. The standard index
  counts 12 bytes for the header of each chunk, which has 8, and only the chunks of its track: entry j of a track, from 0,
  leads to the header of its chunk exactly if 4j - 4 equals the bytes of other tracks and of left-behind headers in front of
  it (with 2^31 more for each chunk of the track in front of it that has the greatest size, 2^31 - 1). The first entry is
  always wrong, and in a file of one track only the second is right
  (`AviSeek.EntryPointsAtHeader`, `FirstChunkMissed`, `OnlySecondRight`, `SingleKeyframeMissed`).
- A backward seek by the legacy index always returns the last good position; by the super index it fails if the index has
  no keyframe at the time sought and no chunk after it, even with keyframes before it
  (`AviSuperIndex.ScanFindsLatest`, `BeyondLast`, `AviSeek.SeekBeyondLast`).
- The other tracks are taken to the time of the chunk that the leading track found, by the same kind of scan. The whole seek
  fails if one of them has chunks but finds none, as an audio track without a chunk at or after the time of the last keyframe
  (`AviReaderSeek.Seek`, `AviSeek.WriteThenSeek`, `AviSeek.SeekFollowerMissing`).
- Closing a file to which no packet was written puts the size of the list of chunks, which does not exist, in the place of the
  file size (`AviWriter.Writer.Close` with `FinishedEmpty`).
- An AVI file is walked through by its chunk sizes exactly if no packet begins a chunk empty, and every chunk has the size that
  its first packet announced, if any (`AviWalk.FileWalks`, `ChunksHonest`).
- The RIFF header of a finished AVI file counts the whole file, eight bytes more than follow it, and a super index counts 16
  bytes less than its standard index has (`AviWalk.RiffFound`, `SuperTells`).
- A seek by the legacy index leaves a track without a keyframe at time zero, even if the track starts later
  (`AviReaderSeek.Seek` with its predicate `AllTimely`).
- The ASF writer stores the bit rate of an audio track where the reader expects bytes per second, so it comes back eightfold;
  that of a video track is not stored. Extradata comes back without what exceeds 256 bytes, and only the first two tracks are
  read. A header is read back as it was set up exactly if it has at most two tracks, each of video or audio with no more than
  256 bytes of extradata and a bit rate of zero (`AsfReadBack.HeaderAsSet`, `EightfoldRate`).
- The file that the ASF writer leaves is refused by the reader, because the size of its data object leaves out the object's own
  fields (`AsfReadBack.FileOpened`, `HeaderOpened`).
- The AVI reader refuses legacy index entries in front of the data, but lets those pass that its arithmetic places in front
  of the file (`AviReader.CheckMisses`, `InFrontOfFile`).

## Model

| member | source | states |
|---|---|---|
| `IoCache.Session` | containers/core/containers_io.c:231-373 | a whole session on a seekable file, with writes wherever the caller knows that nothing read is left in the window, and as long as the memory area or longer at the start, after writes, at the end of the file and after a seek there: all results and the final file are those of a flat file with a cursor |
| `IoCache.Perform` | containers/core/containers_io.c:263-373 | one client call has the result and effect of the same operation on the flat file |
| `IoCache.ContainerIo.Read` | containers/core/containers_io.c:285-300 | a read returns exactly the bytes at the cursor, fewer only at the end of the file, and moves the cursor by them |
| `IoCache.ContainerIo.Peek` | containers/core/containers_io.c:263-283 | a peek returns what a read would and changes neither file nor cursor |
| `IoCache.ContainerIo.Skip` | containers/core/containers_io.c:319-338 | skipping fewer than 8 bytes moves like a read, otherwise like a seek |
| `IoCache.ContainerIo.Seek` | containers/core/containers_io.c:341-373 | a seek sets the cursor and leaves the contents as the client sees them |
| `IoCache.ContainerIo.Write` | containers/core/containers_io.c:302-317 | a write changes the file seen by the client at the write point only, unless it bypasses the memory area over a dirty window or with the file elsewhere; for such a write of any length the new state says which bytes went where; the stream keeps its cursor exactly if nothing unread in a clean window is dropped |
| `IoCache.WriteAfterRead` | containers/core/containers_io.c:600-617 | after reading one byte of two, a one-byte write lands behind the other one and the stream loses its cursor |
| `IoCache.WriteAfterSeek` | containers/core/containers_io.c:600-617 | a seek back to the start before that write does not help |
| `IoCache.WriteOverDirty` | containers/core/containers_io.c:640-659 | a write as long as the memory area over a byte not yet flushed leaves that byte behind the data |
| `IoCache.WriteElsewhere` | containers/core/containers_io.c:600-690 | after reading from the middle of a file, from its start and to its end, a write as long as the memory area goes to the middle instead of the end |
| `IoCache.Held.StrayedOn` | containers/core/containers_io.c:617-655 | a write that goes astray does so in stretches of the length of the memory area, each to where the file stands |
| `IoCache.ContainerIo.Close` | containers/core/containers_io.c:231-260 | after close the file is what the client saw |
| `IoCache.ContainerIo.CacheRead` | containers/core/containers_io.c:554-598 | however the request is split over window, refills and bypass, the bytes are those of the file; the assertion at the end holds |
| `IoCache.ContainerIo.ReadRound` | containers/core/containers_io.c:554-598 | one round of the read loop delivers the next bytes of the file, or there are none |
| `IoCache.ContainerIo.BypassRound` | containers/core/containers_io.c:533-552 | a round that bypasses the window delivers the next bytes of the file and keeps the rest due |
| `IoCache.ContainerIo.CachedRound` | containers/core/containers_io.c:512-598 | a round through the window delivers the next bytes of the file and keeps the rest due |
| `IoCache.ContainerIo.Refill` | containers/core/containers_io.c:512-531 | after a refill the window is clean, starts where the old one ended, and is empty only at the end of the file |
| `IoCache.ContainerIo.RefillBypass` | containers/core/containers_io.c:533-552 | the bypassing read returns the bytes of the file and leaves an empty window behind them |
| `IoCache.ContainerIo.CacheSeek` | containers/core/containers_io.c:661-706 | after a cached seek, also one that refills the area before the window, window and cursor agree with the file |
| `IoCache.ContainerIo.ShiftBack` | containers/core/containers_io.c:673-690 | refilling the memory area before the window extends the window by the bytes of the file in front of it |
| `IoCache.ContainerIo.CacheWrite` | containers/core/containers_io.c:600-659 | the data lands at the write point whatever the split into rounds, flushes and direct writes |
| `IoCache.ContainerIo.Flush` | containers/core/containers_io.c:708-750 | a flush makes the file equal to what the client sees and empties the window at its end |
| `IoCache.ContainerIo.BeginRefill` | containers/core/containers_io.c:512-524 | before a refill the window is dropped without loss and the file stands where the window ended |
| `IoCache.ContainerIo.CachedData` | containers/core/containers_io.c:554-598 | any stretch of the window is that stretch of the file as the client sees it, dirty or not |
| `IoCache.SpliceWindow` | containers/core/containers_io.c:640-750 | writing into the window and writing the window back is writing into the file |
| `Common.SpliceMore` | containers/core/containers_io.c:600-659 | two consecutive writes are one |
| `IoCache.Flat.Advance` | containers/core/containers_io.c:554-598 | a read is a shorter read followed by the read of the others |
| `AsyncIo.FileInOrder` | containers/core/containers_io.c:869-966 | in every interleaving the file has received a prefix of what was posted and sought, in order and once each, and all of it when a complete wait or a close is over |
| `AsyncIo.FlatFile` | containers/core/containers_io.c:600-748 | in every interleaving, once a wait is over or nothing is unflushed, the file is what a flat file makes of the writes and seeks of the client, also of those that go back into the area being filled and of the bytes overwritten there |
| `AsyncIo.FilledAreaIsFree` | containers/core/containers_io.c:906-935 | in every interleaving the area being filled is neither queued nor being written |
| `AsyncIo.StepInv` | containers/core/containers_io.c:869-1043 | every step of either thread keeps the counting, content and control invariants |
| `AsyncIo.InitInv` | containers/core/containers_io.c:968-1022 | the invariants hold after the start with two or more areas |
| `AsyncIo.ExecInv` | containers/core/containers_io.c:869-1043 | the invariants hold over all runs |
| `AsyncIo.WriteContents` | containers/core/containers_io.c:869-904 | a write of the worker stores exactly what was in the area when it was posted |
| `AsyncIo.FillKeepsFlight` | containers/core/containers_io.c:906-935 | filling the current area changes no area in flight |
| `AsyncIo.CallCanMove` | containers/core/containers_io.c:869-1043 | during a flush, wait or close some thread can always move: no wake-up is lost |
| `AsyncIo.CallsReturn` | containers/core/containers_io.c:906-1043 | every schedule of internal steps is bounded, so every call ends |
| `AsyncIo.InternalStepCounts` | containers/core/containers_io.c:869-1043 | each internal step decreases a non-negative measure |
| `Histogram.Stats.AddValue` | containers/core/containers_io.c:767-830 | the in-place search, shift and merge, with sums of 32 bits, turn the whole table into the specified one |
| `Histogram.TableIs` | containers/core/containers_io.c:767-830 | over any run whose values fit 32 bits altogether no sum wraps |
| `Histogram.TableConservesTotals` | containers/core/containers_io.c:767-830 | over such a run, for every shift, count and num are conserved, merges included |
| `Histogram.StoredTotals` | containers/core/containers_io.c:767-830 | one value changes the total of the counts modulo 2^32 by exactly itself, and that of num exactly if no wrapped record is shifted out |
| `Histogram.TableModulo` | containers/core/containers_io.c:767-830 | over any run of 32-bit values the counts are conserved modulo 2^32, and num too as long as the counts fit 32 bits |
| `Histogram.TotalLost` | containers/core/containers_io.c:767-830 | a run after which the next value drops a total |
| `Histogram.MediantBetween` | containers/core/containers_io.c:800-830 | the quotient of a merged pair lies between those of the pair |
| `Histogram.TableSorted` | containers/core/containers_io.c:767-830 | with shift 0 the records are sorted after every run whose values fit 32 bits altogether |
| `Histogram.OutOfOrder` | containers/containers.h:563-587 | for every other shift eleven values leave the records unsorted |
| `Histogram.SortedIffUnshifted` | containers/containers.h:563-587 | the documented order holds over all runs that fit 32 bits exactly if the shift is 0 |
| `Histogram.WrapOutOfOrder` | containers/core/containers_io.c:767-830 | eleven values beyond 32 bits that leave the records unsorted without a shift |
| `Histogram.Closest` | containers/core/containers_io.c:802-815 | no two neighbours are closer than the pair chosen for merging |
| `Histogram.DiffWraps` | containers/core/containers_io.c:802-815 | the difference of two quotients wraps at 32 bits |
| `HistogramExact.ExactHistogram` | containers/core/containers_io.c:767-830 | with any shift, while there are at most ten different quotients and all that is added fits 32 bits, the table is sorted and has one record for each quotient, with the sums of the values that have it |
| `HistogramExact.AddHolds` | containers/core/containers_io.c:776-800 | one more value joins the record of its quotient or gets a record of its own |
| `HistogramExact.NumpcLaw` | containers/core/containers_io.c:759-759 | the quotient is the total for each 2^shift of the count, rounded down |
| `SeekIndex.SlotBijection` | containers/core/containers_index.c:50-65 | the address map is inverted by the map for the complementary gap |
| `SeekIndex.SlotInjective` | containers/core/containers_index.c:50-65 | two entries never share a slot |
| `SeekIndex.DiscardKeepsEven` | containers/core/containers_index.c:114-137 | after a discard new entry i is where old entry 2i was, also when the gap wraps |
| `SeekIndex.KeptSlots` | containers/core/containers_index.c:50-65 | the slot of the next entry holds none of those in use |
| `SeekIndex.Index.constructor` | containers/core/containers_index.c:67-90 | the capacity is the largest power of two within the clamped length, and the table is empty |
| `SeekIndex.Index.Add` | containers/core/containers_index.c:101-140 | an addition ignores covered times, otherwise extends the history; the records stay every 2^k-th of it, a full table keeps its even ones, and after any discard more than half of it is in use |
| `SeekIndex.Index.Discard` | containers/core/containers_index.c:114-137 | a discard writes no slot and leaves exactly the even records |
| `SeekIndex.Index.Store` | containers/core/containers_index.c:101-140 | storing appends to the logical records and overwrites none of them |
| `SeekIndex.Index.Get` | containers/core/containers_index.c:142-191 | the search returns the record that a linear search selects, and fails only on an empty table |
| `SeekIndex.Index.Bisect` | containers/core/containers_index.c:149-166 | the bisection ends with an exact hit or with neighbours around the time |
| `SeekIndex.Between` | containers/core/containers_index.c:142-191 | which of the two neighbours the linear search would select |
| `SeekIndex.SelectedUnique` | containers/core/containers_index.c:142-191 | the linear search selects exactly one record |
| `SeekIndex.CountersFit` | containers/core/containers_index.c:35-44 | up to 2^33 accepted entries the counters, here unbounded, stay below 2^31 |
| `SeekIndex.HistoryFixesCounts` | containers/core/containers_index.c:101-140 | the length of the history alone fixes the step, the number of records and the left-over count |
| `StartCode.Resume` | containers/core/containers_bytestream.h:329-387 | resuming after any more bytes finds what one search over all of them finds |
| `StartCode.SearchResult` | containers/core/containers_bytestream.h:329-387 | a skipped stretch ends at the first match, or there is none yet |
| `StartCode.RuledOutForGood` | containers/core/containers_bytestream.h:329-387 | a position once ruled out never becomes a match |
| `StartCode.LeastMatch` | containers/core/containers_bytestream.h:329-387 | the least position of a match at or after a position |
| `ByteStream.Stream.FindStartcode` | containers/core/containers_bytestream.h:329-387 | the search returns the least match at or after the offset; without one it has passed only positions that no later data can match |
| `ByteStream.Stream.Push` | containers/core/containers_bytestream.h:55-63 | a push appends the packet and its bytes |
| `ByteStream.Stream.Pop` | containers/core/containers_bytestream.h:65-79 | a pop returns the first packet once it has been read and never changes the unread bytes |
| `ByteStream.Stream.GetPacket` | containers/core/containers_bytestream.h:81-96 | the packet and offset of the next unread byte |
| `ByteStream.Stream.SkipPacket` | containers/core/containers_bytestream.h:98-110 | exactly the rest of the packet is skipped; from inside a packet the counter falls behind by the bytes read |
| `ByteStream.Stream.Size` | containers/core/containers_bytestream.h:149-152 | the size is that of the unread bytes plus what skipped packets left behind |
| `ByteStream.Stream.Counting` | containers/core/containers_bytestream.h:149-152 | the counters stay within a fixed drift of the unread bytes |
| `ByteStream.Stream.Skip` | containers/core/containers_bytestream.h:154-179 | skips exactly that many bytes, or none if there are fewer |
| `ByteStream.Stream.Get` | containers/core/containers_bytestream.h:181-209 | moves exactly that many unread bytes to the buffer, or fails and changes nothing |
| `ByteStream.Stream.Peek` | containers/core/containers_bytestream.h:211-235 | copies the next unread bytes and moves nothing |
| `ByteStream.Stream.PeekAt` | containers/core/containers_bytestream.h:237-273 | copies the unread bytes at a distance and moves nothing |
| `ByteStream.Stream.SkipByte` | containers/core/containers_bytestream.h:275-290 | skips one unread byte over any number of empty packets |
| `ByteStream.Stream.GetByte` | containers/core/containers_bytestream.h:310-327 | returns the next unread byte over any number of empty packets |
| `ByteStream.RestEnd` | containers/core/containers_bytestream.h:154-209 | a position inside a packet with only later packets left is that packet's end |
| `ByteStream.CountedSkip` | containers/core/containers_bytestream.h:98-110 | the counters after skipping a packet from inside |
| `Packetizer.Input.Push` | containers/core/packetizers.c:141-150 | a push appends a client packet to the unread bytes |
| `Packetizer.Input.Pop` | containers/core/packetizers.c:152-200 | client packets come back once each in push order; force releases any packet not handed back, and the unread bytes never change; copies stay a prefix of the list |
| `Packetizer.Input.Replace` | containers/core/packetizers.c:171-200 | a copy takes the place of the first client packet, even of the one being read |
| `Packetizer.Input.PopRead` | containers/core/packetizers.c:158-169 | read copies are dropped and the first read client packet is handed back |
| `Avc1.ConvertFrame` | containers/h264/avc1_packetizer.c:90-260 | for every sequence of buffers and size queries the pieces concatenate to the Annex B form, the flags mark the first and last piece only, and a decoder finds the units of the frame in the pieces exactly if no unit contains a start code or ends with a zero byte |
| `Avc1.Converter.Packetize` | containers/h264/avc1_packetizer.c:90-260 | one call delivers the next stretch of the Annex B form of the frame, as much as fits, or reports what is left |
| `Avc1.Converter.FindFrameEnd` | containers/h264/avc1_packetizer.c:102-112 | whether a frame is complete and how many input bytes it has |
| `Avc1.Converter.CountUnits` | containers/h264/avc1_packetizer.c:114-142 | the frame size is that of the Annex B form |
| `Avc1.Converter.FillBuffer` | containers/h264/avc1_packetizer.c:184-253 | output so far and output due are together constant until buffer or frame ends |
| `Avc1.Converter.EndFrame` | containers/h264/avc1_packetizer.c:236-243 | the end of a frame leaves the input behind the frame unread and the byte counter behind by the last packet |
| `Avc1.Serve` | containers/h264/avc1_packetizer.c:90-260 | one request keeps the frame going or ends it |
| `AnnexB.FieldValue` | containers/h264/avc1_packetizer.c:186-205 | a length field of n bytes spells the size it was made for |
| `AnnexB.ReadField` | containers/h264/avc1_packetizer.c:186-205 | the byte-by-byte reading of the field gives that number |
| `AnnexB.Progress.Begin` | containers/h264/avc1_packetizer.c:184-212 | starting a unit reads its size and keeps the output due |
| `AnnexB.Progress.EmitStart` | containers/h264/avc1_packetizer.c:213-224 | start code bytes written are those due |
| `AnnexB.Progress.EmitData` | containers/h264/avc1_packetizer.c:226-234 | unit bytes copied are those due |
| `AnnexB.Progress.Finished` | containers/h264/avc1_packetizer.c:236-252 | the output is complete exactly when the input of the frame is used up |
| `NalSearch.FrameDecodes` | containers/h264/avc1_packetizer.c:70-70 | a decoder that searches for 00 00 01 finds the units of a frame, each with one zero byte in front of the prefix, exactly if no unit contains a start code or ends with a zero byte |
| `NalSearch.FrameFound` | containers/h264/avc1_packetizer.c:184-253 | a search that does not know the start code the packetizer writes gives back units without a start code in them and without zeros at their end |
| `NalSearch.DecodedClean` | containers/h264/avc1_packetizer.c:184-253 | whatever the search finds in any bytes contains no start code and no zero bytes at the end |
| `BitCodes.CodeRoundTrip` | containers/core/containers_bits.c:350-373 | reading inverts the Exp-Golomb code for every 32-bit value, whatever follows, and stops right behind the codeword |
| `BitCodes.CodeValue` | containers/core/containers_bits.c:350-373 | the codeword of v is the binary number v + 1 with a zero in front for each bit behind its first one |
| `BitCodes.IncompleteCode` | containers/core/containers_bits.c:109-163 | without a complete codeword the read fails exactly if the bit count is zero, odd, above 64, or 64 with a non-zero second half |
| `BitCodes.IncompleteAccepted` | containers/core/containers_bits.c:109-163 | two zero bits read as the value 1 |
| `BitCodes.SignedMapping` | containers/core/containers_bits.c:376-391 | the signed form inverts the mapping of section 9.1.1 of ITU-T H.264 |
| `BitCodes.ReadFits` | containers/core/containers_bits.c:350-373 | every value read fits 32 bits |
| `BitCodes.ValueConcat` | containers/core/containers_bits.c:302-341 | the number of two stretches of bits is the shifted first plus the second |
| `BitCodes.ByteBits` | containers/core/containers_bits.c:322-337 | the shift and mask of the read loop cut out the number spelled by those bits |
| `BitReader.BitStream.constructor` | containers/core/containers_bits.c:170-181 | a fresh stream has all bits of the buffer left |
| `BitReader.BitStream.Available` | containers/core/containers_bits.c:222-227 | the bits left, none if invalid |
| `BitReader.BitStream.Skip` | containers/core/containers_bits.c:241-259 | drops exactly n bits or invalidates the stream; skipping nothing on an invalid stream can undo the mark |
| `BitReader.BitStream.ReadU32` | containers/core/containers_bits.c:302-341 | returns the number spelled by the next n bits and ends in the state that a skip of n bits ends in |
| `BitReader.BitStream.TakeBits` | containers/core/containers_bits.c:314-340 | the loop over partial and whole bytes |
| `BitReader.BitStream.ScanZeros` | containers/core/containers_bits.c:133-157 | the scan finds the leading zeros of a complete code, or gives up after half of the bits |
| `BitReader.BitStream.LeadingZeroBits` | containers/core/containers_bits.c:109-163 | the stream stands behind the marker bit, or is invalid with a zero result |
| `BitReader.BitStream.ReadU32ExpGolomb` | containers/core/containers_bits.c:350-373 | returns the value that the specification reads, or zero on an invalid stream |
| `BitReader.BitStream.ReadS32ExpGolomb` | containers/core/containers_bits.c:376-391 | returns the signed value; the one codeNum without a 32-bit value invalidates |
| `BitReader.BitStream.SkipExpGolomb` | containers/core/containers_bits.c:344-347 | a codeword is skipped exactly; without one the stream is empty, and marked invalid exactly if fewer than 16 bits were available |
| `BitReader.SkipTruncated` | containers/core/containers_bits.h:190-200 | seventeen zero bits are skipped without the promised invalidation |
| `BitReader.SplitRead` | containers/core/containers_bits.c:302-341 | two consecutive reads spell what one read spells |
| `BitReader.AfterAfter` | containers/core/containers_bits.c:241-259 | moving in two steps ends where one step ends |
| `BitReader.SkipLandsWhereReadLands` | containers/core/containers_bits.c:344-373 | a skip lands where a successful read lands; it also passes codewords that the read refuses |
| `UriText.ReservedClasses` | containers/core/containers_uri.c:59-101 | the seven bit tables hold exactly the character classes of their comments |
| `UriText.HexRoundTrip` | containers/core/containers_uri.c:113-140 | two hexadecimal digits give back the character |
| `UriText.DigitValue` | containers/core/containers_uri.c:126-140 | a hexadecimal digit of either case has the value of its place in the list of digits |
| `UriText.NoDigitValue` | containers/core/containers_uri.c:126-140 | every other character has the value 0 |
| `UriText.LetterLowered` | containers/core/containers_uri.c:275-285 | a capital letter is lowered to the small letter at the same place of the alphabet |
| `UriText.OtherKept` | containers/core/containers_uri.c:275-285 | every other character is kept |
| `UriText.UnescapeEscape` | containers/core/containers_uri.c:165-229 | unescaping inverts escaping for every string and component |
| `UriText.TextOfEscape` | containers/core/containers_uri.c:165-241 | the stored string of an escaped C string is that string |
| `UriText.EscapeConcat` | containers/core/containers_uri.c:165-189 | escaping distributes over concatenation |
| `UriText.EscapeAvoids` | containers/core/containers_uri.c:165-189 | a reserved character occurs in no escaped string |
| `UriText.FindEscaped` | containers/core/containers_uri.c:288-301 | cutting at an unreserved delimiter commutes with escaping |
| `UriSpec.ParseEscaped` | containers/core/containers_uri.c:380-477 | splitting and unescaping the printed query is splitting it before escaping |
| `UriSpec.FieldsJoin` | containers/core/containers_uri.c:426-596 | joined query items split back exactly if names and values are free of separators |
| `UriSpec.FieldsOk` | containers/core/containers_uri.c:380-477 | every item that splitting stores is well-formed |
| `UriRoundTrip.RoundTrip` | containers/core/containers_uri.c:528-849 | parts with a scheme survive printing and parsing exactly if they are well-formed |
| `UriRoundTrip.PlainRoundTrip` | containers/core/containers_uri.c:528-849 | a path without a scheme survives exactly if it is a DOS name or has no delimiters that matter and no escapes |
| `UriRoundTrip.HostPortPrint` | containers/core/containers_uri.c:341-374 | host and port are read back exactly if the host is lower-case and its end can be found |
| `UriRoundTrip.AuthorityPrint` | containers/core/containers_uri.c:794-811 | the authority ends where its printed form ends, and its userinfo is read back |
| `UriRoundTrip.TailSurvives` | containers/core/containers_uri.c:813-841 | path, query and fragment behind the authority are read back |
| `UriRoundTrip.PathBehindAuthority` | containers/core/containers_uri.c:795-824 | behind an authority a parsed path is absent or starts with a slash |
| `UriRoundTrip.SchemePrint` | containers/core/containers_uri.c:773-793 | the scheme is read back in lower case and a printed URI is never taken for a DOS name |
| `UriGrammar.ParsedByGrammar` | containers/core/containers_uri.c:761-849 | a string composed of delimited components is parsed into their meaning: each unescaped, scheme and host in lower case, unless it is taken for a DOS name |
| `UriGrammar.SplitDelimited` | containers/core/containers_uri.c:761-849 | every string is composed of delimited components |
| `UriGrammar.ParsedAsSplit` | containers/core/containers_uri.c:761-849 | so any string is parsed into the meaning of its components |
| `UriGrammar.AuthorityParsed` | containers/core/containers_uri.c:325-377 | userinfo up to the first at sign, host up to its bracket or the first colon, port behind it |
| `UriGrammar.Spelled` | containers/core/containers_uri.c:103-108 | the delimiters are those characters |
| `UriGrammar.QueryDivided` | containers/core/containers_uri.c:426-477 | either separator divides a query into parts that are read on their own |
| `UriGrammar.QueryPart` | containers/core/containers_uri.c:380-423 | a part is a name, with a value behind its first equals sign; without a name it is passed over |
| `UriGrammar.EscapeRead` | containers/core/containers_uri.c:211-229 | an escape is the number that its two digits spell, whatever follows |
| `UriGrammar.NoEscapeRead` | containers/core/containers_uri.c:211-229 | all else is kept, and so is what is too short for an escape |
| `UriCase.ParseIgnoresDigitCase` | containers/core/containers_uri.c:761-849 | two strings that differ only in the case of the digits of their escapes are parsed into the same parts, unless they are taken for DOS names |
| `UriCase.SameUnescaped` | containers/core/containers_uri.c:192-229 | such strings are unescaped to the same string |
| `UriCase.DosPaths` | containers/core/containers_uri.c:761-771 | exactly the strings that start with a letter, a colon and a backslash are taken for DOS names |
| `UriCode.UriParts.Parse` | containers/core/containers_uri.c:761-849 | the parser fills the parts with what the specification says, all of them C strings |
| `UriCode.UriParts.ParseAuthority` | containers/core/containers_uri.c:325-377 | userinfo, host and port of the authority |
| `UriCode.UriParts.ParseQuery` | containers/core/containers_uri.c:426-477 | all items of the query are stored, within the array allocated for them |
| `UriCode.UriParts.StoreQuery` | containers/core/containers_uri.c:380-423 | one item is stored if it has a name |
| `UriCode.UriParts.Build` | containers/core/containers_uri.c:852-864 | returns the printed length, and prints the URI and its NUL if there is room for both |
| `UriCode.CalculateUriLength` | containers/core/containers_uri.c:480-525 | the length computed is that of the printed URI |
| `UriCode.BuildUri` | containers/core/containers_uri.c:528-596 | the buffer receives the printed URI and a NUL |
| `UriCode.BuildFromScheme` | containers/core/containers_uri.c:540-595 | the same for URIs with a scheme, and nothing behind the NUL is touched |
| `UriCode.EscapedLength` | containers/core/containers_uri.c:143-162 | the length of the escaped string |
| `UriCode.EscapeString` | containers/core/containers_uri.c:165-189 | the escaped string is appended to the buffer and nothing behind it is touched |
| `UriCode.UnescapedLength` | containers/core/containers_uri.c:192-208 | the length of the unescaped string |
| `UriCode.UnescapeString` | containers/core/containers_uri.c:211-229 | the buffer receives the unescaped string and a NUL |
| `UriCode.ToLowerString` | containers/core/containers_uri.c:275-285 | the C string in the buffer is lower-cased in place |
| `UriCode.FindDelimiter` | containers/core/containers_uri.c:288-301 | the first delimiter or the end of the string |
| `UriCode.BuildThenParse` | containers/core/containers_uri.c:761-864 | building into a buffer and parsing it gives equal parts exactly if they are well-formed |
| `Common.FieldsLittleEndian` | containers/core/containers_io_helpers.h:580-612 | fields of two, four and eight bytes spell their number with the least significant byte first |
| `AviFormat.RunStores` | containers/avi/avi_writer.c:771-937 | for every interleaving the chunks of a track hold exactly the data of its packets in order |
| `AviFormat.IndexPointsAtHeader` | containers/avi/avi_writer.c:566-617 | the k-th index entry gives the offset of its chunk header exactly if no header was left behind before it, and is 8 too low for each one otherwise |
| `AviFormat.RunHarm` | containers/avi/avi_writer.c:798-932 | over every run no header is left behind exactly if no empty packet begins a chunk without ending it, and all size fields are right exactly if, wherever a chunk is ended by its own track and its first packet announced a size, the data of its packets adds up to that size |
| `AviFormat.StepHarm` | containers/avi/avi_writer.c:798-932 | the same for one packet and the open chunk |
| `AviFormat.OpenBehind` | containers/avi/avi_writer.c:820-932 | the open chunk holds the packets from its first one on and keeps the size that one announced |
| `AviChunks.RunChunks` | containers/avi/avi_writer.c:771-937 | for every interleaving the chunks are those told from the packets alone: which packets each holds, the size in its header, whether it is a keyframe, and which headers are left behind |
| `AviChunks.KeyframePacket` | containers/avi/avi_writer.c:920-932 | a chunk is a keyframe exactly if its last packet ends it, is marked as a keyframe and ends a frame; one cut by another track or by closing is none |
| `AviFormat.Harmful` | containers/avi/avi_writer.c:836-932 | an empty packet and audio at its limit are such cases |
| `AviFormat.Interrupted` | containers/avi/avi_writer.c:794-858 | an announced frame that another track interrupts gets its whole size in the header of its second part |
| `AviFormat.NotesPrefix` | containers/avi/avi_writer.c:197-233 | chunks are noted in order |
| `AviFormat.PieceOf` | containers/avi/avi_writer.c:566-617 | every index entry belongs to a chunk |
| `AviWriter.Writer.Write` | containers/avi/avi_writer.c:771-937 | the file, the temporary index and the counters after a packet are those of the specified step |
| `AviWriter.Writer.FinishDataChunk` | containers/avi/avi_writer.c:169-194 | the size field in front of the data at the end of the file is rewritten, and the chunk padded |
| `AviWriter.Writer.CutChunk` | containers/avi/avi_writer.c:794-807 | switching tracks ends the open chunk with its real size and a delta entry |
| `AviWriter.Writer.EndOwnChunk` | containers/avi/avi_writer.c:891-932 | the chunk of the packet is ended, its size rewritten if it was unknown and grew |
| `AviWriter.Writer.WriteLegacyIndexChunk` | containers/avi/avi_writer.c:566-617 | the temporary index becomes the legacy index with accumulated offsets |
| `AviWriter.Writer.NumChunks` | containers/avi/avi_writer.c:158-166 | the number of finished chunks of all tracks is the number of index entries |
| `AviWriter.Writer.WriteStandardIndexChunk` | containers/avi/avi_writer.c:620-678 | the entries of the track in the temporary index become its standard index, and its place and size are kept for the super index |
| `AviWriter.Writer.WriteStandardIndexData` | containers/avi/avi_writer.c:701-724 | one standard index for each track in order, and what the super indexes will say of them |
| `AviWriter.Writer.PutHeaderList` | containers/avi/avi_writer.c:347-536 | the header list, with a super index chunk for each track that passes for junk until there is a standard index; the rest of it is given as bytes |
| `AviWriter.Writer.constructor` | containers/avi/avi_writer.c:1100-1149 | a new file: the RIFF header and the header list |
| `AviWriter.Writer.Close` | containers/avi/avi_writer.c:940-1013 | the finished file: chunks, standard indexes, legacy index, and over what was not known the file size, the header list pointing at the standard indexes, and the size of the list of chunks, which without any packet goes over the file size |
| `AviWriter.WriteFile` | containers/avi/avi_writer.c:771-1013 | a whole run, also one without packets, writes exactly the specified file with the chunks told from the packets |
| `AviWalk.FileWalks` | containers/avi/avi_reader.c:449-510 | going from chunk to chunk by the sizes alone finds exactly the chunks and indexes of a finished file if and only if every header gives the size of its data |
| `AviWalk.ListFound` | containers/avi/avi_writer.c:940-1013 | the list of chunks and the legacy index stand where their sizes lead, and end with the file |
| `AviWalk.RiffFound` | containers/avi/avi_writer.c:985-992 | a finished file starts as RIFF of type AVI and gives the size of the whole file |
| `AviWalk.SuperTells` | containers/avi/avi_writer.c:620-643 | the super index of a track points at its standard index, gives 16 bytes less than that has, and a duration of as many chunks as the track has, or bytes of its data if it is audio with a block alignment |
| `AviWalk.ChunksHonest` | containers/avi/avi_writer.c:771-937 | over every run: the headers give the right sizes exactly if no packet begins a chunk empty without ending it and every chunk comes to the size that its first packet announced |
| `AviWalk.WriteThenWalk` | containers/avi/avi_reader.c:449-510 | writing any run and going through the file: the chunks are found exactly if the packets keep to what was announced |
| `AviWriter.NoteRoundTrip` | containers/avi/avi_writer.c:197-233 | a temporary index entry is read back as it was noted |
| `AviWriter.LayoutAt` | containers/avi/avi_writer.c:820-932 | each chunk stands where the sizes before it add up to |
| `AviReader.Reader.ScanLegacyIndex` | containers/avi/avi_reader.c:568-686 | a backward seek selects the latest keyframe up to the request, a forward seek the first after it, both as told by the frame rate, and the new time is that of the selected chunk; failure exactly on an entry in front of the data or a forward seek beyond a truncated index |
| `AviReader.ChunkTimeOnTick` | containers/avi/avi_reader.c:187-202 | the time of a chunk is that of the ticks in front of it: den ticks take num seconds, in whole microseconds |
| `AviReader.OnTickBy` | containers/avi/avi_reader.c:187-202 | that fixes the time, and whether it is up to a limit without any division |
| `AviReader.WholePeriod` | containers/avi/avi_reader.c:187-202 | den chunks later it is num seconds later |
| `AviReader.WholeSamples` | containers/avi/avi_reader.c:187-202 | exactly n samples in front of a chunk count as n ticks, however they are divided into chunks |
| `AviReader.NtscSecond` | containers/avi/avi_reader.c:187-202 | 30 chunks of 1001/30000 of a second take 1001000 microseconds |
| `AviReader.NearestSample` | containers/avi/avi_reader.c:195-202 | otherwise the nearest whole sample counts |
| `AviReader.CheckMisses` | containers/avi/avi_reader.c:630-634 | the comparison with the start of the data, unsigned, refuses exactly the positions between the start of the file and the start of the data |
| `AviReader.InFrontOfFile` | containers/avi/avi_reader.c:619-634 | an entry behind in-band data that is placed in front of the file and passes the check |
| `AviReader.Reader.ScanEntry` | containers/avi/avi_reader.c:589-665 | one entry, with track check, in-band data, flags and offsets from either origin |
| `AviReader.TimeMonotone` | containers/avi/avi_reader.c:187-202 | chunk times never decrease along the index |
| `AviReader.TimeAtStart` | containers/avi/avi_reader.c:195-202 | before the first chunk the time is the start of the track |
| `AviReader.Reader.LatestUpTo` | containers/avi/avi_reader.c:553-566 | stopping at the first later chunk loses no candidate |
| `AviIndex.EntryRoundTrip` | containers/avi/avi_writer.c:600-615 | an index entry is read back with the fields written |
| `AviIndex.EntryFound` | containers/avi/avi_reader.c:583-596 | the reader finds exactly the entries that were written |
| `AviIndex.PositionFound` | containers/avi/avi_reader.c:598-634 | every entry lies behind the start of the data at the offset it gives |
| `AviIndex.EntryPointsAtChunk` | containers/avi/avi_reader.c:598-634 | the reader gets from an entry to the header and data of its chunk exactly if no header was left behind before it |
| `AviIndex.SeekLands` | containers/avi/avi_reader.c:636-665 | the selected position is the header of a keyframe chunk of the track |
| `AviIndex.WriteThenScanLegacy` | containers/avi/avi_reader.c:568-686 | scanning the legacy index of a written file, as for a track without a super index: backwards it selects the latest keyframe up to the request by the frame rate, a chunk that ends with a packet marked as keyframe and end of frame, and lands on its header if no header was left behind |
| `AviSpelling.NamesSpelled` | containers/avi/avi_writer.c:566-617 | the names of the parts of a file are those spelled by their characters |
| `AviSpelling.IdsSpelled` | containers/avi/avi_writer.c:115-156 | the ids of data chunks and standard indexes are the two digits of the track with dc, wb or ix |
| `AviSpelling.IdRead` | containers/avi/avi_reader.c:512-551 | the reader takes two digits for the track and dc, db, dd, wb for the kind of data, wb for audio tracks and the others for video tracks |
| `AviSpelling.IdFor` | containers/avi/avi_reader.c:688-728 | an index belongs to a track exactly if its chunk id is made of the two digits and of a kind for the type of the track |
| `AviSpelling.FlagsRead` | containers/avi/avi_reader.c:603-650 | of the flags of an index entry, bit 0 marks a list, bit 4 a keyframe and bit 8 a chunk without a time; all audio counts as keyframes |
| `AviSpelling.FlagsWritten` | containers/avi/avi_writer.c:566-678 | the writer marks keyframes in the legacy index, and all but keyframes in bit 31 of a standard index |
| `AviSpelling.ChunkEnd` | containers/avi/avi_writer.c:891-932 | a chunk ends with its frame, or when audio with a block alignment has passed 16384 bytes |
| `AviReader.MovedBy` | containers/avi/avi_reader.c:598-628 | a chunk is moved back by the in-band data in front of it, header included |
| `AviOpenDml.EntriesSlice` | containers/avi/avi_writer.c:620-678 | each entry of a standard index stands where its number says |
| `AviOpenDml.IndexesSlice` | containers/avi/avi_writer.c:701-724 | each standard index stands behind those of the tracks before it |
| `AviOpenDml.SuperSlice` | containers/avi/avi_writer.c:347-451 | the super index of a track stands at a place that depends on the lengths of the headers only |
| `AviSuperIndex.ScanStandardIndexChunk` | containers/avi/avi_reader.c:688-804 | the loop over the entries, with all checks, does what the specified scan does |
| `AviSuperIndex.ScanSuperIndexChunk` | containers/avi/avi_reader.c:807-881 | the loop over the standard indexes, with all checks, does what the specified scan does |
| `AviSuperIndex.ScanFindsLatest` | containers/avi/avi_reader.c:731-804 | a backward scan succeeds exactly if there is a keyframe up to the time and the index reaches a keyframe at it or a later chunk; it selects the latest such keyframe and its chunk state |
| `AviSuperIndex.BeyondLast` | containers/avi/avi_reader.c:731-804 | a single keyframe at the start is found by a backward seek to that time only |
| `AviSuperIndex.ScanFindsNext` | containers/avi/avi_reader.c:731-804 | a forward scan succeeds exactly if there is a keyframe after the time; it selects the first |
| `AviSuperIndex.TimesMonotone` | containers/avi/avi_reader.c:187-202 | chunk times never decrease along a standard index |
| `AviSuperIndex.FoundByRate` | containers/avi/avi_reader.c:731-804 | the keyframe and the time that a scan selects are those told by the frame rate |
| `AviSuperIndex.SuperTimely` | containers/avi/avi_reader.c:807-881 | after a scan, found or not, the chunk state has the time of its place in the track |
| `AviSuperIndex.EntriesUnfound` | containers/avi/avi_reader.c:731-804 | a scan that finds nothing leaves position and time alone |
| `AviReaderSeek.ChooseTrack` | containers/avi/avi_reader.c:1185-1196 | the leading track is the first enabled video track, else the first enabled one, else the first |
| `AviReaderSeek.FollowSuper` | containers/avi/avi_reader.c:1204-1218 | each other track with a super index goes where its scan for the time leads; the status is that of the first scan that fails |
| `AviReaderSeek.FollowLegacy` | containers/avi/avi_reader.c:1264-1280 | the same by the legacy index |
| `AviReaderSeek.Connect` | containers/avi/avi_reader.c:1288-1302 | the reader goes on at the least position of all tracks and shares it with exactly the tracks there |
| `AviReaderSeek.Seek` | containers/avi/avi_reader.c:1143-1313 | a seek goes by super indexes if the leading track has one, else by the legacy index; it succeeds exactly if that track and all that follow it find their place, and otherwise leaves the reader as it was; each track ends at the keyframe told by its frame rate, the new time is that of the leading chunk, and every track has the time of its place, or zero if the legacy index has no keyframe of it |
| `AviSeek.OffsetBehind` | containers/avi/avi_writer.c:655-675 | the offsets of a standard index grow by the chunks of the track and four bytes more for each |
| `AviSeek.OwnPiece` | containers/avi/avi_writer.c:655-675 | every entry of a standard index belongs to a chunk of its track |
| `AviSeek.OwnNote` | containers/avi/avi_writer.c:655-675 | the entries of a track follow its chunks in order |
| `AviSeek.SuperFound` | containers/avi/avi_reader.c:426-438 | in a finished file the super index of each track is found, says so, and points at the standard index of the track |
| `AviSeek.StandardFound` | containers/avi/avi_reader.c:700-728 | the fields and entries of a standard index are read as they were written |
| `AviSeek.EntryPointsAtHeader` | containers/avi/avi_reader.c:740-760 | where the reader takes the chunk of an entry to be; that is its header exactly if 4j - 4 for the j-th entry equals the other bytes in front of it |
| `AviSeek.FirstChunkMissed` | containers/avi/avi_reader.c:740-760 | the first entry of a track never leads to its header, the first of all to the type of the list |
| `AviSeek.OnlySecondRight` | containers/avi/avi_reader.c:740-760 | in a file of one track without left-behind headers the second entry is right and no other |
| `AviSeek.SingleKeyframeMissed` | containers/avi/avi_reader.c:740-760 | in a file with a single keyframe its entry leads four bytes in front of its header |
| `AviSeek.SingleRun` | containers/avi/avi_writer.c:771-937 | one packet that makes such a file |
| `AviSeek.FindSuperIndexes` | containers/avi/avi_reader.c:426-438 | in a finished file the super indexes of all tracks are found, with their places and sizes |
| `AviSeek.SeekFinds` | containers/avi/avi_reader.c:807-881 | the scan for a track selects from the chunks of that track |
| `AviSeek.WriteThenSeek` | containers/avi/avi_reader.c:1143-1313 | writing any run and seeking in the file, in either direction: which keyframe is selected for each track by its frame rate, that its chunk ends with a packet marked as keyframe and end of frame, how far the position is from the header of the chunk, and that the seek succeeds exactly if the leading track has a chunk to be found for the request and every other track, unless it is empty, one for the time of that chunk |
| `AviSeek.SeekBeyondLast` | containers/avi/avi_reader.c:731-804 | writing a single keyframe and seeking backward: exactly the time of the keyframe is found, no later one |
| `AviSeek.SeekFollowerMissing` | containers/avi/avi_reader.c:1204-1218 | writing two tracks and seeking backward to the time of a keyframe fails, because the other track has no chunk there |
| `AsfWriter.Context.WriteObject` | containers/asf/asf_writer.c:163-221 | an object is written with the sizes of all nested content; on the sink it counts as many bytes, and file and sink end in their places |
| `AsfWriter.Context.MeasureObject` | containers/asf/asf_writer.c:182-192 | the dry run yields the size of the content and leaves the file untouched |
| `AsfWriter.Context.WriteBody` | containers/asf/asf_writer.c:223-418 | each object type writes its content, on the file or on the sink |
| `AsfWriter.Context.WriteForTracks` | containers/asf/asf_writer.c:235-267 | one object for each track in order; the dry runs do not disturb the loop |
| `AsfWriter.Context.WriteStreamProps` | containers/asf/asf_writer.c:336-373 | the stream properties with the type-specific data |
| `AsfWriter.Context.WriteHeader` | containers/asf/asf_writer.c:421-431 | the file receives the header and the data object |
| `AsfWriter.Context.ExtraIoEnable` | containers/core/containers_writer_utils.c:97-110 | the first enable puts the rewound sink in the place of the file, others only count |
| `AsfWriter.Context.ExtraIoDisable` | containers/core/containers_writer_utils.c:113-127 | the last disable puts the file back, others only count |
| `AsfWriter.Context.ExtraIoDelete` | containers/core/containers_writer_utils.c:77-93 | however deep the nesting, the file is put back |
| `AsfFormat.TypeSizeRight` | containers/asf/asf_writer.c:289-373 | the type-specific length is that of the data that follows |
| `AsfFormat.ParseObject` | containers/asf/asf_writer.c:195-213 | an object is found by its size field alone |
| `AsfFormat.HeaderParses` | containers/asf/asf_writer.c:223-246 | the content of the header parses into its objects with their whole contents |
| `AsfFormat.ExtensionParses` | containers/asf/asf_writer.c:194-200 | the extension data size is that of the extension data, which parses into its objects |
| `AsfFormat.FileParses` | containers/asf/asf_writer.c:421-431 | the written file parses into header and data object |
| `AsfReader.Reader.constructor` | containers/asf/asf_reader.c:2133-2141 | a reader at the start of the file that knows no track |
| `AsfReader.Reader.FindTrack` | containers/asf/asf_reader.c:300-340 | the track with the stream number is found by the table or made, if there is room for it |
| `AsfReader.Reader.ReadStreamProperties` | containers/asf/asf_reader.c:632-699 | stream properties of a known kind go to the track with their stream number, all others are passed over |
| `AsfReader.Reader.ReadContent` | containers/asf/asf_reader.c:482-760 | the content of a header object is read as specified; one shorter than its fields is corrupt |
| `AsfReader.Reader.ReadNested` | containers/asf/asf_reader.c:344-508 | the objects are read one by one, up to one whose size cannot be right |
| `AsfReader.Reader.ReadFile` | containers/asf/asf_reader.c:2117-2215 | a header that names tracks and a data object with room for its fields, or the error |
| `AsfReadBack.VideoRead` | containers/asf/asf_reader.c:549-596 | width, height, fourcc and extradata of a video track are read back for all values that fit their fields |
| `AsfReadBack.AudioRead` | containers/asf/asf_reader.c:599-629 | codec, channels, sample rate, alignment, bits and extradata of an audio track are read back, the bit rate eightfold |
| `AsfReadBack.StreamRead` | containers/asf/asf_reader.c:632-699 | from the stream properties written for track n the reader fills the track with number n + 1 |
| `AsfReadBack.ExtStreamRead` | containers/asf/asf_writer.c:376-400 | the stream number of the extended stream properties is read back |
| `AsfReadBack.FileRead` | containers/asf/asf_writer.c:270-287 | the packet size of the file properties is read back |
| `AsfReadBack.ElseZero` | containers/asf/asf_writer.c:270-400 | all other fields of the file properties and the extended stream properties are zero, and both packet sizes are the same |
| `AsfReadBack.ElseZeroProps` | containers/asf/asf_writer.c:336-373 | so are those of the stream properties, but for the id that stands for no error correction |
| `AsfReadBack.ElseZeroVideo` | containers/asf/asf_writer.c:289-318 | and those of the BITMAPINFOHEADER and its preamble |
| `AsfReadBack.ReadsParsed` | containers/asf/asf_reader.c:344-508 | the reader comes to exactly the objects that the sizes delimit |
| `AsfReadBack.HeaderRead` | containers/asf/asf_reader.c:344-760 | from a written header the reader gets the packet size and, for as many tracks as it has room for, all that was written of them |
| `AsfReadBack.HeaderAsSet` | containers/asf/asf_reader.c:632-699 | all is read back as it was set up exactly with at most two tracks, each of video or audio with at most 256 bytes of extradata and a bit rate of zero |
| `AsfReadBack.EightfoldRate` | containers/asf/asf_writer.c:320-334 | a bit rate comes back as it was only if it is zero |
| `AsfReadBack.HeaderOpened` | containers/asf/asf_reader.c:2117-2215 | a file that starts with a written header is opened exactly if it has a track and its data object gives no size or one with room for its fields |
| `AsfReadBack.FileOpened` | containers/asf/asf_writer.c:421-431 | the file as the writer leaves it is refused |
| `AsfReadBack.WriteThenRead` | containers/asf/asf_reader.c:2117-2215 | writing any header and opening the file gives the packet size and the tracks, and the refusal |

## Left out

- Files, sockets, HTTP, dynamic loading, logging, DRM and codec tables: I/O or foreign libraries; a file is a byte sequence
  with a cursor that always transfers what it can.
- Allocation failures and I/O errors: every call is taken to succeed.
- Streams without a cache, extra cached areas, an explicit flush with unread bytes in the window.
- IoCache.Session: writes after a read or seek that may leave something read in the window, and writes as long as the memory
  area after a seek that may go back into bytes not yet flushed, are excluded, because they can land elsewhere as described
  above.
- AsyncIo.FlatFile: an area may take any number of bytes, and the client ends it when the cursor is behind all of them; write
  errors are not modelled, nor reads in asynchronous mode.
- Histogram.TableSorted: for runs that do not fit 32 bits only an input that fails is given, no exact condition.
- SeekIndex.Index.Add: the 32-bit counters are unbounded, which makes no difference up to 2^33 accepted entries.
- ByteStream.Stream.Get: requests larger than the unread bytes but within the drift left by skipped packets are excluded by
  `Answerable`; the code would run off the list. The same holds for Peek, PeekAt, Skip, SkipByte and GetByte.
- Time stamps of packets, in the byte stream and in the packetizer.
- Avc1.Converter.Packetize: units are not empty, the length fields of a frame add up, and the packet that ends a frame is not
  empty (after an empty one the code delivers an empty frame of its own, marked start and end); the SKIP flag and codec
  configuration are left out.
- BitReader.BitStream.constructor: the buffer is shorter than 2^29 bytes, so that the bit count fits 32 bits.
- Byte-wise operations of the bit reader, which only apply at byte boundaries.
- URI merging, dot segments, path extensions and setters.
- AviWriter.Writer.Write: the output is seekable and the headers were written on opening; a chunk stays below 2^31 bytes,
  because bit 31 of a noted size is the delta flag; the limits on file size and number of chunks are left out.
- AviWriter.Writer.PutHeaderList: the headers besides the super indexes are given as bytes of even length, with the largest
  chunk sizes that only they use; at the end they have the lengths they had at the start.
- The frame buffer of the AVI writer for outputs that cannot seek.
- AviReader.Reader.ScanLegacyIndex: scans for one track, in the state to which the caller has cleared it; chunk times are
  unbounded where the source has 64 bits.
- AviReaderSeek.Seek: the search for a legacy index that was not found at opening is left out, and so are the number of the
  track in the state that tracks share and the seek of the stream itself at the end, which is taken to succeed.
- AviSeek.WriteThenSeek: the file is shorter than 2^32 bytes, since index offsets have 32 bits; the reader is given the places
  of the super indexes and does not walk the header list.
- AsfWriter.Context.WriteBody: a run of field writes is one write of their concatenation; data packets, which the writer does
  not write, are left out.
- AsfFormat.HeaderParses: sizes are below 2^32.
- AsfReadBack.HeaderRead: at most 16 tracks, which is the writer's limit, values that fit their fields, and a header of at most
  2^29 bytes, which is the reader's.
- AsfReader.Reader.ReadContent: of objects that do not fit their fields the source may take some before it gives up; durations,
  flags and the time offset, other header objects, stream names, payload extensions and the limit on nesting are left out.
- AsfReader.Reader.ReadStreamProperties: the fourcc and the format tag stand for the codec; a track whose type-specific data is
  too short keeps what it had, where the source has set its type already.
- ASF, AVI and FLV demultiplexing, endian helpers, sorted lists.
