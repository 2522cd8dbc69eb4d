# A verified model of the mvpmc media player's stateful cores

mvpmc turns a MediaMVP box into a media player. The hard parts of its code are the
pieces that put streams together, keep queues, serialise settings and share one
resource among many clients. This project models six of them in Dafny and proves
what each is for.

| files | what they model |
|---|---|
| `IcyMeter`, `IcyAbort`, `StreamRing`, `IntakeCount`, `HttpStream` | Shoutcast intake: metadata is stripped from packets of any size, audio goes through a ring under back-pressure to the audio device |
| `Ac3Scan`, `Ac3Reset`, `PcmRing`, `Ac3Space`, `Ac3Player` | AC-3 playback: frames are put together from chunks of any size, decoded into a PCM ring, and a chunk that meets a full ring is offered again |
| `RecGroups`, `ConfigItems`, `ConfigFile` | the settings file: tagged items behind a checksummed header, optional compression, the override policy, the recording-group table |
| `Display` | the 16x1 front panel: seven clients compete for one line |
| `StableOrder`, `PlaylistOrder`, `PlaylistCollect`, `Slideshow` | the file browser: the play-all list and the image show that loads one image ahead |
| `Wire`, `TrickPlay` | the Hauppauge emulation: the wire form of offsets, and fast forward and rewind |
| `Bytes`, `Rings` | shared: octets, and a circular buffer seen as a sequence |

Every module keeps the source's form. What the source updates in place is a class, an
array or a loop here; each such method is proved against a description that does not
mention the method: the stream format, a queue, a scan of the whole stream, a stable
sort, a small protocol. The main theorems are about all inputs and whole runs:
`HttpStream.Reader.ReadStream`, `Ac3Player.Player.PlayFile`,
`ConfigFile.ConfigRoundTrip`, `Display.Panel.RunQuiet` and `Display.Panel.Run`,
`PlaylistCollect.Playlist.RecurseFindAudio`, `Slideshow.Viewer.Requests`,
`TrickPlay.Emulator.Run` with `TrickPlay.StepHasKeyDirection`.

The world outside is a parameter: what `recv`, `read` and `write` answer, which
directory entries exist, the order in which handlers are called, the syncinfo parser
and decoder of liba52, and zlib, of which only `inflate(deflate(x)) = x` and that the
checksum fits 32 bits are assumed. The target is the MediaMVP's PowerPC 405
(`SConstruct:39`): `char` is unsigned, `long` has 32 bits, the byte order is big
endian.

## What the code does not do

Where a promise turned out to hold only under a condition, the code is modelled as it
is and the exact condition is proved.

- The metadata filter handles one metadata block per packet. It is right on every run
  exactly for metadata intervals of at least 1447 bytes (`IcyMeter.StripExact`), and on
  one packet exactly when what follows its first block is all audio
  (`IcyMeter.PacketExact`).
- A metadata block that does not end in the packet of its length byte meets the
  `abort()` in the next packet exactly when it has 4000 bytes or more
  (`IcyMeter.SecondPieceAborts`). With every further packet the code counts all that is
  left of the block again, not what the packet held, so cutting a block into small
  packets can meet the guard too: every cutting is safe exactly when all blocks have
  less than 96 bytes (`IcyAbort.GuardExact`). A stream that ends inside a metadata block
  while the ring still plays can meet it as well, and `IcyAbort.EndInsideBlock` says in
  how many turns.
- `send_mpeg_data` adds the answer of a failed `write`, -1, to the ring's tail. The
  ring stays a queue exactly when no write fails (`StreamRing.RingBuf.Drain`).
- `ac3_add` asserts only `len < ac3_size`; its test protects the unread bytes exactly
  for lengths below `ac3_size - 6` (`PcmRing.SafeLengths`).
- The AC-3 framer is not reset when a new file is opened: the new file is framed behind
  what the old one left undecided. Whatever the new file, its frames are its own exactly
  when the bytes left over are short of a header and none of them can start one
  (`Ac3Reset.SeparateExact`); `Ac3Reset.NextFileSpoiled` is a pair of files where it goes
  wrong.
- The guard of `a52_decode_data`, fourteen bytes of room for each byte of the chunk,
  does not prevent the `abort()` of the ring. An unrefused chunk aborts exactly when the
  frames it completes decode to more than the free space less seven
  (`Ac3Player.Framer.DecodeData`). For one chunk the guard is enough at every free space
  exactly when that is at most fourteen times the chunk (`Ac3Space.GuardProtects`), and
  for every chunk only when nothing ever sounds (`Ac3Space.GuardExact`): a read of one
  byte that completes a frame passes it and aborts (`Ac3Space.LastByteAborts`). Full reads
  are safe when all frames have at least 489 bytes (`Ac3Space.FullReadIsSafe`).
- A directory's own files are lost at its cap or at an entry that cannot be looked at;
  the whole tree is collected in post-order exactly when no directory loses one
  (`PlaylistCollect.CollectExact`).
- The search for the next image gives up when it is back where it started, so an offset
  of at least the number of images is right exactly when it is a multiple of it
  (`Slideshow.LandsExact`). Because a request is answered by a correction from the
  loaded image, prefetching can be wrong where not prefetching is right
  (`Slideshow.PrefetchExact`, `Slideshow.PrefetchCanBeWrong`).
- The jump to the last image always answers -1 and stays where it is
  (`Slideshow.Viewer.NextImage`).
- `media_offset_64` inverts `INT64_TO_BUF` for every offset with a 32-bit `long`; with a
  64-bit `long` exactly for offsets whose low word is below 2^31
  (`Wire.OffsetRoundTrip`).

## Model

| member | source | states |
|---|---|---|
| IcyMeter.CutAnywhere | src/http_stream.c:1186-1287 | cutting a stream into two pieces anywhere changes neither its audio nor the point of the format where it ends |
| IcyMeter.PacketExact | src/http_stream.c:1200-1286 | the audio handed on from one packet is that of the format if and only if the packet holds one relevant block, and then the counter stands where the format stands; the abort is its guard |
| IcyMeter.FeedAppend | src/http_stream.c:1149-1293 | a run with one packet more is the run, then that packet from where the run left the counters |
| IcyMeter.LateBlock | src/http_stream.c:1200-1250 | a packet that reaches past the next audio stretch while metadata is being skipped yields more bytes than there is audio |
| IcyMeter.FeedExact | src/http_stream.c:1149-1293 | for intervals of at least a packet less one byte, any run of packets that meets no abort yields exactly the audio of the bytes received, and leaves the counter where the format stands |
| IcyMeter.ShortIntervalFails | src/http_stream.c:1200-1218 | for every shorter interval, two packets on which the filter is wrong |
| IcyMeter.StripExact | src/http_stream.c:1118-1293 | the filter is right on every run if and only if the interval is at least 1447 |
| IcyMeter.SecondPieceAborts | src/http_stream.c:1241-1260 | when a block is split, the packet after its length byte meets the insanity guard if and only if the block has 4000 bytes or more |
| IcyAbort.SmallBlocksPass | src/http_stream.c:1241-1279 | blocks of at most 80 bytes never meet the guard, however the stream is cut into packets with data |
| IcyAbort.TrickleAborts | src/http_stream.c:1256-1272 | a block of 96 bytes that comes byte by byte meets the guard |
| IcyAbort.GuardExact | src/http_stream.c:1200-1279 | from inside the audio no cutting of a stream with blocks of at most a given size meets the guard if and only if that size is less than 96 |
| IcyAbort.EndInsideBlock | src/http_stream.c:1256-1272 | when nothing more is received inside a metadata block, the guard is met within k turns if and only if what is left of the block, counted k times, exceeds it |
| Rings.PasteSplit | src/http_stream.c:1050-1064 | copying up to the end and on from the start appends the data to the unread bytes and loses none |
| Rings.TakenAtTail | src/mclient_mvpmc.c:324-449 | moving the tail on takes the oldest unread bytes, going round the end |
| Rings.Sink.Write | src/audio.c:891-892 | a device takes as many bytes as it has room for, or none when the write fails, and records what it took |
| StreamRing.RingBuf.constructor | src/mclient.c:134-143 | the ring starts empty, in preload |
| StreamRing.RingBuf.Occupancy | src/http_stream.c:1165-1169 | the number computed is the number of unread bytes; equal indices always mean empty |
| StreamRing.RingBuf.Put | src/http_stream.c:1032-1066 | the split copy appends to the queue: no unread byte is overwritten, and head is the number of bytes written modulo the size |
| StreamRing.RingBuf.Drain | src/mclient_mvpmc.c:270-451 | what the device took and what is left are what was there, in order; the ring stays a queue if and only if no write fails |
| StreamRing.PlayedAnswers | src/mclient_mvpmc.c:324-449 | how much is taken, by the two answers: the second write counts only when the first took all up to the end; it fails exactly when one that is made fails |
| IntakeCount.TurnFacts | src/http_stream.c:1165-1293 | one turn in terms of socket and device: playing starts above half a ring or after more than twenty idle turns, a device with room then empties the ring, and idle turns are counted |
| IntakeCount.QuietRunEnds | src/http_stream.c:1149-1294 | when nothing is received any more the rest is played and the stream ends within 23 turns, unless it stopped inside a metadata block and meets the guard there |
| IntakeCount.NothingMore | src/http_stream.c:1149-1294 | a turn that receives nothing does not fill the ring |
| IntakeCount.SaneStream | src/http_stream.c:1149-1293 | packets with data in them and blocks below 96 bytes are taken in without the abort, however they are cut |
| HttpStream.Reader.constructor | src/http_stream.c:1118-1138 | a fresh reader is at the start of its stream with an empty ring, in preload |
| HttpStream.Reader.StripBlock | src/http_stream.c:1200-1250 | the branches around the length byte do to counters and ring what the packet function says |
| HttpStream.Reader.SkipBlock | src/http_stream.c:1256-1279 | the branches inside a metadata block do the same |
| HttpStream.Reader.Receive | src/http_stream.c:1195-1287 | one packet appends exactly its audio to the ring, or stops at the abort with the ring unchanged |
| HttpStream.Reader.StepInStep | src/http_stream.c:1195-1287 | after any packets counter and ring are where the format stands after all bytes received |
| HttpStream.Reader.TakePacket | src/http_stream.c:1187-1287 | a packet is counted in whatever becomes of it; the abort and an index below the buffer happen exactly when the meter says so, with the ring unchanged |
| HttpStream.Reader.StartPlaying | src/http_stream.c:1170-1175 | the preload ends when the ring is more than half full or after more than twenty idle turns, and nothing else changes |
| HttpStream.Reader.Poll | src/http_stream.c:1181-1290 | a packet is taken exactly when the ring holds less than the back-pressure limit; the abort happens exactly when the packets taken so far meet the guard |
| HttpStream.Reader.Play | src/http_stream.c:1291 | the device gets the oldest unread bytes, as many as its writes take, and the run stops exactly when a write fails |
| HttpStream.Reader.Turn | src/http_stream.c:1149-1293 | the turn does to counters, ring and status what the turn that only counts does; nothing is played before the ring is more than half full or more than twenty turns were idle, and then a device with room gets everything; the abort happens exactly when the packets taken meet the guard |
| HttpStream.Reader.ReadStream | src/http_stream.c:1118-1298 | how the run ends and which packets it takes are those of the run that only counts; whatever packets, device and timing do, what the device got followed by the ring is exactly the audio of the packets taken; a device with room gets all but half a ring and a packet, and nothing is played too early; the abort happens exactly when the packets meet the guard, and never for packets with data and blocks below 96 bytes; the stream does not end while data comes, and when it ends by itself at most one byte was not played |
| HttpStream.Reader.RunEvents | src/http_stream.c:1149-1294 | the same from any point of a stream on; after 23 turns that receive nothing the stream has ended with at most one byte not played; it never goes on after the user stops it |
| Ac3Scan.ScanResumes | src/audio.c:1058-1120 | the greedy scan can be interrupted anywhere and go on from its undecided bytes |
| Ac3Scan.FindsFrame | src/audio.c:1068-1085 | the first frame is found wherever it starts, one byte after the other, and the scan goes on behind it |
| Ac3Scan.ScanCovers | src/audio.c:1068-1085 | frames and undecided bytes are disjoint stretches of the stream, in order |
| Ac3Reset.SeparateExact | src/audio.c:1023-1125 | every next file is framed on its own if and only if no header can start in the bytes left over |
| Ac3Reset.NextFileSpoiled | src/audio.c:1023-1125 | a file that ends with the first byte of the sync word takes the first frame of the next one away |
| PcmRing.AcceptsExact | src/audio.c:814-824 | for the lengths in use data is accepted if and only if its length plus seven is at most the free space |
| PcmRing.SafeLengths | src/audio.c:811-824 | the test protects the unread bytes at every position if and only if the length is below the size less six |
| PcmRing.Ring.constructor | src/audio.c:103-107 | the ring starts empty with head and tail apart |
| PcmRing.Ring.Empty | src/audio.c:794-800 | the unread bytes are forgotten and the ring is empty |
| PcmRing.Ring.FreeSpace | src/audio.c:858-872 | free space is the size less the bytes added and not yet written |
| PcmRing.Ring.Add | src/audio.c:802-856 | data accepted is appended to the queue; the abort happens exactly when the test refuses, and changes nothing |
| PcmRing.Ring.Flush | src/audio.c:874-920 | what the device took and what is left in the ring are what was there, in order; the count answered is the number of bytes the device took |
| PcmRing.FlushAnswers | src/audio.c:890-920 | how much is taken, by the two answers: a first write that is refused, fails or is short is all there is, else the second adds what it takes |
| Ac3Space.GuardProtects | src/audio.c:1052-1056 | passing the guard rules the abort out at every free space if and only if the chunk completes nothing or no more than fourteen times its length |
| Ac3Space.GuardExact | src/audio.c:1052-1056 | the guard rules the abort out for every chunk if and only if nothing ever sounds |
| Ac3Space.LastByteAborts | src/audio.c:1045-1112 | a short read with the last byte of a frame with sound passes the guard and aborts |
| Ac3Space.FullReadIsSafe | src/audio.c:1045-1112 | on a full read the guard rules the abort out when all frames have at least 489 bytes |
| Ac3Space.RoomyRun | src/audio.c:308-345 | with a device that has room and turns enough the file finishes if and only if each read fits the empty ring, and else the run aborts |
| Ac3Space.LongFramesFinish | src/audio.c:308-345 | then every file of frames of at least 426 bytes is played to its end |
| Ac3Space.FinishedIsPlayed | src/audio.c:308-345 | a run that finishes with a device that has room leaves nothing in the ring |
| Ac3Player.Framer.constructor | src/audio.c:1025-1027 | the framer starts with nothing fed |
| Ac3Player.Framer.DropByte | src/audio.c:1079-1082 | where no frame starts the header moves down by one byte |
| Ac3Player.Framer.Decide | src/audio.c:1068-1117 | a full header or frame buffer makes one step of the greedy scan; it aborts exactly when the sound of the step does not fit |
| Ac3Player.Framer.DecodeFrame | src/audio.c:1096-1112 | a frame's blocks are added to the ring behind those of earlier frames; it aborts exactly when they do not fit |
| Ac3Player.Framer.AbsorbAll | src/audio.c:1058-1120 | a chunk of any size is taken whole, and frames and buffer are those of the scan of all bytes fed, unless the sound it completes does not fit; exactly then it aborts |
| Ac3Player.Framer.DecodeData | src/audio.c:1023-1125 | a chunk is refused exactly below the guard, with the framer untouched; else it aborts exactly when the sound it completes plus seven exceeds the room after the first flush, and is taken whole otherwise; a device that takes all at the second flush leaves nothing in the ring |
| Ac3Player.Player.constructor | src/audio.c:311-313 | the player starts with nothing read |
| Ac3Player.Player.Open | src/audio.c:315-321 | opening a file forgets the refused chunk but not the framer's undecided bytes |
| Ac3Player.Player.Offer | src/audio.c:325-331 | a chunk is fed once or kept unchanged for the next turn, or aborts exactly as the framer does |
| Ac3Player.Player.Turn | src/audio.c:308-345 | the turn reads, retries, finishes and aborts exactly as the turn that only counts; bytes fed and the chunk waiting are all bytes read, in order; the end is reported exactly after an empty read, when everything read was fed |
| Ac3Player.Player.PlayFile | src/audio.c:308-345 | the outcome, the abort included, is that of the run that only counts; on every history a finished file gave the decoder exactly the frames of a greedy scan, and the device's record and the ring hold exactly their PCM, with a device that has room the record alone; with such a device it finishes exactly when each read fits the empty ring; after another file its frames are its own when the bytes left over are harmless |
| RecGroups.PackGroups | src/config.c:287-304 | the item holds the labels with the flag as C strings in slot order; the 4096-byte cut-off is never met |
| RecGroups.UnpackGroups | src/config.c:428-453 | the labels of an item go into the free slots in order |
| RecGroups.GroupsRoundTrip | src/config.c:287-320 | hide item then show item into an empty table: the hidden labels in slot order, then the shown ones, with their flags |
| RecGroups.CompactedKeepsLabels | src/config.c:428-453 | the table got back has the same labels under each flag, in the same order |
| ConfigItems.SaveOrder | src/config.c:479-566 | the saving order lists every known tag exactly once |
| ConfigItems.BitsDiffer | src/config.h:38-79 | two settings share a bit only as the two halves of the group table |
| ConfigItems.ProgressThenProgram | src/config.c:494-497 | tag 9 is the progress setting with bit 8 and is saved ninth, tag 10 the program setting with bit 9, saved next |
| ConfigItems.LoadRestores | src/config.c:479-566 | loading the items of any list of distinct settings into an empty structure restores what that list saved |
| ConfigItems.SettingsRoundTrip | src/config.c:222-462 | exactly the settings that were set and not empty come back, each with its value, and no other bit is set |
| ConfigItems.RoundTripOf | src/config.c:222-462 | setting by setting: what was set and not empty comes back with its value, and nothing else is set or touched |
| ConfigItems.RefusedExactly | src/config.c:357-384 | an item is refused for an unknown tag, a field of another size or a text as long as its field, and for nothing else; refused, it changes nothing |
| ConfigItems.BadItemStops | src/config.c:592-610 | a bad item stops the load; what came before it stays, what comes after is not read |
| ConfigItems.ItemKeepsSettings | src/config.c:357-462 | no item leaves a field with more than it can hold |
| ConfigItems.KeepPolicy | src/config.c:364-384 | without override a set setting stays, an unset one gets the first value listed, and no bit is cleared |
| ConfigItems.OverridePolicy | src/config.c:364-384 | with override each setting gets the last value listed, and no bit is cleared |
| ConfigFile.LoadBody | src/config.c:592-610 | walking the bytes of a list of items applies the items one after the other |
| ConfigFile.BytesKeepSettings | src/config.c:592-610 | loading any bytes, well formed or not, keeps every setting within its field |
| ConfigFile.ItemPlaces | src/config.h:216-220 | an item is its tag, the length of its payload, each with the high byte first, and the payload |
| ConfigFile.HeaderPlaces | src/config.h:222-230 | the fields of the header are at fixed places, with their high bytes first |
| ConfigFile.FileStarts | src/config.c:464-590 | every file starts with the letters CONF and has version 1 in its third word |
| ConfigFile.FileShape | src/config.c:172-215 | fewer than 1024 bytes of items stand behind the header as they are, more as what the compressor makes of them, with the length and the flags that say so |
| ConfigFile.BodyFits | src/config.c:322-345 | the saved items never exceed a fixed size far below the buffer |
| ConfigFile.HeaderRoundTrip | src/config.h:222-230 | the header's fields are read back from its bytes |
| ConfigFile.FileRoundTrip | src/config.c:117-170 | a file that was written passes the magic, version, length, platform and checksum checks, compressed or not, and holds the same items |
| ConfigFile.OpensExactly | src/config.c:700-786 | the checks let a file pass if and only if it is a header of this version and platform with the right length, followed by a body, plain or compressed, with the right checksum |
| ConfigFile.ConfigRoundTrip | src/config.c:464-786 | saving and then loading into an empty structure recovers the settings, in either override mode |
| ConfigFile.Config.AddItem | src/config.c:222-355 | an item is appended for a set and not empty setting and for nothing else |
| ConfigFile.Config.GetItem | src/config.c:357-462 | one item is applied to the settings under the override mode, or refused for its tag or length |
| ConfigFile.Config.ParseConfig | src/config.c:592-610 | items are applied until one is bad, and what came before it stays |
| ConfigFile.Config.Save | src/config.c:464-590 | the file written is the file of the items of all settings in the saving order |
| ConfigFile.Config.Load | src/config.c:700-786 | the checks are made one after the other; a file that passes them all has its items applied, and any other file changes nothing |
| Display.TakesLine | src/display.c:1501-1532 | a pending client that takes a free line leaves exactly one active client and lowers the rank by one |
| Display.FreesLine | src/display.c:1571-1590 | letting go of the line lowers the rank even when a message queues the song texts again |
| Display.ServeLowers | src/display.c:1498-1593 | serving a client that can act lowers the rank and keeps the order, serving another changes nothing |
| Display.TickLowers | src/display.c:1463-2168 | every tick leaves the line idle or lowers the rank |
| Display.RankBounds | src/display.c:1498-2123 | the rank is bounded by a number computed from the lengths of the texts |
| Display.RankZero | src/display.c:1498-2123 | the rank is zero if and only if the line is idle |
| Display.IdleStays | src/display.c:1498-2123 | a tick on an idle line changes no client |
| Display.TurnGoesOn | src/display.c:1533-1566 | ticks never take the line away: the owner goes on by exactly one step and nobody else moves until its turn is over |
| Display.NobodySkipped | src/display.c:1498-2123 | a pending client stays pending until it gets the line, and then it gets its whole turn |
| Display.PendingIsServed | src/display.c:1463-2168 | without arrivals every pending client gets the line and keeps it for its whole turn, within the bound computed from the lengths of the texts |
| Display.MessageBringsSong | src/display.c:1571-1590 | when a message is pending or shown and there is a title, then title, artist and album each get the line for a whole turn after the message's, though they were idle, all within the bound |
| Display.IdleWithoutTitle | src/display.c:1571-1590 | without a title, without a message, or outside the song, an idle client stays idle |
| Display.TurnShows | src/display.c:1501-1593 | a text longer than sixteen is scrolled from start to end, one character a tick, and then held for ten ticks; a shorter one is only held |
| Display.Panel.constructor | src/display.c:77-112 | the panel starts idle |
| Display.Panel.Activate | src/display.c:1501-1532 | activation makes the client the only active one, shows the start of its text and, but for a message, speeds up the ticks |
| Display.Panel.Scroll | src/display.c:1535-1554 | each scroll step shows the text one character further on, never past its end |
| Display.Panel.Wait | src/display.c:1556-1591 | after scrolling the client holds the line for ten ticks and then frees it, back at the normal interval, and a message queues title, artist and album |
| Display.Panel.Serve | src/display.c:1501-1593 | a client that can act gets, keeps or frees the line, which lowers the rank; serving another changes nothing |
| Display.Panel.FreeOrphan | src/display.c:2125-2165 | a line whose owner was pre-empted is freed at the end of the tick, and a free line shows the start of the last text once more |
| Display.Panel.Tick | src/display.c:1463-2168 | after a tick the line is busy exactly when one client is active, and it is idle or strictly nearer to it |
| Display.Panel.Arrive | src/display.c:599-692 | new data pre-empts everyone: exactly the clients named are pending, with their last text |
| Display.Panel.RunQuiet | src/display.c:1463-2168 | without arrivals the line is idle within the bound, by then every client that was pending had its whole turn, and so had the song texts after a message |
| Display.Panel.Run | src/display.c:399-692 | any interleaving of ticks and arrivals is processed in its order; at most one client is active, and then the line is busy |
| StableOrder.StableSortIsUnique | src/fb.c:582-620 | two sorted lists with the same entries in the same order under every key are equal |
| StableOrder.SwapRemovesOne | src/fb.c:609-615 | swapping two neighbours that are out of order removes exactly one inversion |
| StableOrder.SwapKeepsKeys | src/fb.c:609-615 | such a swap keeps the order of entries with equal keys |
| StableOrder.SortedIsStableSort | src/fb.c:582-620 | every stable sorted rearrangement is the insertion sort of the list |
| PlaylistOrder.GreaterIsTotal | src/fb.c:609 | the comparison is strict and tells different keys apart |
| PlaylistOrder.GreaterExactly | src/fb.c:609 | one text is greater than another exactly when it has the greater character at their first difference, or goes on where the other ends |
| PlaylistOrder.OutOfOrderCompares | src/fb.c:588-609 | comparing by the key that prefixes a zero to single-digit names is a strict weak order |
| PlaylistOrder.TracksInOrder | src/fb.c:588-609 | tracks come in the order of their numbers, written with one digit or two: 2 before 10, whatever the directories and the rest of the names |
| PlaylistOrder.NamesInOrder | src/fb.c:588-609 | the first difference of two names decides when both start with a single digit or neither does; else the one that does is read with a zero before it |
| PlaylistOrder.TracksAscend | src/fb.c:582-620 | in a sorted list the track numbers ascend |
| PlaylistOrder.BaseNameOfPath | src/fb.c:595-598 | the key of a path looks at the file name alone |
| PlaylistOrder.Pass | src/fb.c:585-620 | a pass that swaps lowers the number of inversions, one that does not finds the list sorted |
| PlaylistOrder.SortContents | src/fb.c:582-620 | the in-place sort terminates with the stable sort of the list, a permutation of it |
| PlaylistCollect.CollectIsPostOrder | src/fb.c:528-641 | on trees without failures and with fewer own files than the cap, the files collected are the post-order concatenation |
| PlaylistCollect.CollectExact | src/fb.c:528-641 | the code collects the post-order of a tree if and only if no directory loses a file at its cap or at an entry that cannot be looked at |
| PlaylistCollect.PostOrderHolds | src/fb.c:549-578 | the post-order holds exactly the audio files reached through entries whose names start with neither a dot nor a slash |
| PlaylistCollect.AudioNames | src/fb.c:107-120 | the audio files are those that end with one of the six extensions, in any case, and no others |
| PlaylistCollect.Playlist.Visit | src/fb.c:553-578 | one directory entry adds the files below it or itself, or stops the directory when it cannot be looked at |
| PlaylistCollect.Playlist.ReadEntries | src/fb.c:549-578 | the loop collects the files below in the playlist and the own files beside it, up to the cap |
| PlaylistCollect.Playlist.Append | src/fb.c:622-639 | files are appended in order until the playlist is full |
| PlaylistCollect.Playlist.RecurseFindAudio | src/fb.c:528-641 | the playlist becomes the first 2048 entries of what it was followed by the files of the tree |
| Slideshow.LandsExact | src/fb.c:774-782 | the search ends on the image that many images away, going round, if and only if the offset is less than the number of images in size or a multiple of it |
| Slideshow.PassedIsAround | src/fb.c:774-782 | the entry where the search has passed that many images is that many images on |
| Slideshow.PrefetchExact | src/fb.c:740-755 | a request answered from the loaded image shows the right one if and only if the correction is within reach |
| Slideshow.PrefetchCanBeWrong | src/fb.c:740-755 | with fifteen images, ten back after ten on is right without prefetching and wrong with it |
| Slideshow.Viewer.Select | src/fb.c:312-324 | selecting an image shows it and loads the next one |
| Slideshow.Viewer.Search | src/fb.c:771-782 | the stepping loop ends where the description of the search says, in both directions |
| Slideshow.Viewer.Advance | src/fb.c:757-790 | another image becomes the current one and is loaded; the jump to the last image fails |
| Slideshow.Viewer.NextImage | src/fb.c:722-793 | a request shows the image its correction leads to and loads the one a further step on; the same image is loaded and current at all times |
| Slideshow.Viewer.Requests | src/fb.c:722-793 | after any requests within reach the screen is where their sum leads from the first image |
| Wire.PutInt64 | src/emulate.h:85-94 | the eight bytes are the low word and then the high word, and no other byte changes |
| Wire.PutProgress | src/emulate.h:96-103 | the six bytes are the low word and half of the high word, and no other byte changes |
| Wire.WordOfBytes | src/emulate.h:111-113 | the four bytes of a word are read back modulo 2^32 |
| Wire.BytesOnWire | src/emulate.h:85-103 | which byte is where: the low word comes first, each word with its high byte first |
| Wire.OffsetRoundTrip | src/emulate.c:3204-3214 | reading inverts writing for every 64-bit offset on the target, and with a 64-bit long if and only if the low word is below 2^31 |
| Wire.ProgressExact | src/emulate.h:96-103 | two offsets have the same progress bytes if and only if they agree modulo 2^48 |
| TrickPlay.StepHasKeyDirection | src/emulate.c:2027-2044 | in a run that keeps the protocol every step request has the direction of the key that started trick play, and it was not left in between |
| TrickPlay.Emulator.constructor | src/emulate.c:271-274 | the emulation starts running, outside trick play |
| TrickPlay.Emulator.Become | src/emulate.c:271 | a state outside trick play leaves it |
| TrickPlay.Emulator.SendStep | src/emulate.c:2027-2044 | a step request carries the direction as stored |
| TrickPlay.Emulator.StartStepping | src/emulate.c:1019-1044 | the key enters trick play and fixes the direction |
| TrickPlay.Emulator.Resume | src/emulate.c:1484-1488 | the answer to the play key sends exactly one more step |
| TrickPlay.Emulator.RemoteKey | src/emulate.c:946-1120 | a jump key acts only on a running, unscaled film of known length, and only fast forward and rewind enter trick play, each with its own direction; the play key asks for its end while stepping; a stop key is pending or empties the buffer; no key changes the direction inside trick play |
| TrickPlay.Emulator.DigitKey | src/emulate.c:1072-1090 | a digit writes its key code into the direction field only while running, and asks for a percentage only with the extension |
| TrickPlay.Emulator.HandleRdc | src/emulate.c:1430-1650 | which command leads to which state; no command changes the direction, and all keep the protocol |
| TrickPlay.Emulator.RdcPlayMessage | src/emulate.c:1451-1580 | after the play key the play command sends exactly one step and seeks; a new stream over a running one asks it to stop; a jump leaves trick play |
| TrickPlay.Emulator.RdcStopMessage | src/emulate.c:1590-1650 | a stop command leaves trick play exactly for a film that is not stopping, ending or live, and a second one is remembered |
| TrickPlay.Emulator.HandleReply | src/emulate.c:2105-2535 | which reply leads to which state; no reply changes the direction, and all keep the protocol |
| TrickPlay.Emulator.DataReply | src/emulate.c:2249-2382 | a step reply that was written out sends exactly one next step, and no other data does; the end of the data leaves trick play, and for a film read behind its length it is asked for once more |
| TrickPlay.Emulator.SeekReply | src/emulate.c:2383-2420 | a seek reply while stepping sends exactly one step; after the last step it leaves trick play |
| TrickPlay.Emulator.StopReply | src/emulate.c:2422-2521 | the stop reply leaves trick play and clears the stopping state; only a film that made way for a live one stays |
| TrickPlay.Emulator.QueueData | src/emulate.c:2539-2637 | in the stepping state a block that was written out sends exactly one step, a block that was not sends none |
| TrickPlay.Emulator.Reset | src/emulate.c:3343-3350 | a timeout or a reset by the user leaves trick play |
| TrickPlay.Emulator.Handle | src/emulate.c:938-1150 | one event sends at most one step request, only for data, a seek reply or a play command, and only the fast-forward and rewind keys start trick play |
| TrickPlay.Emulator.KeepStepping | src/emulate.c:2249-2382 | while nothing stops, each step reply that is written out sends the next request, in the direction of the key |
| TrickPlay.Emulator.Shuttle | src/emulate.c:1019-1044 | from the key on: the seek reply sends the first step request and each of k step replies one more, all in the direction of the key |
| TrickPlay.Emulator.ShuttleAndPlay | src/emulate.c:985-1044 | the play key ends it: its answer sends one step more, and the reply to that lets the stream run again |
| TrickPlay.Emulator.Run | src/emulate.c:938-1150 | in every interleaving of handlers each step request has the direction of the start before it, the starts are among the jump keys pressed, in their order, there are no more requests than messages that may ask for one, and, while stepping, exactly as many as step replies written out; the direction is 0 or 1 in all five stepping states |

## Left out

- Sockets, `select`, file descriptors, pipes, widgets, the on-screen display and all hardware calls: they are parameters or not modelled.
- HttpStream.Reader.ReadStream: runs in which the audio device cannot be opened are not covered (the source empties the ring then); play modes other than play and preload do not occur in this loop.
- HttpStream.Reader.Turn: the metadata text, the title shown and the diagnostic copy of skipped metadata are not modelled; nor is a negative metadata interval.
- IcyMeter.StripExact: runs that meet the insanity guard stop there and are not compared with the format; when they do is the subject of `IcyAbort`.
- Ac3Player.Framer.DecodeData: a `read` that fails is not modelled, since the source then decodes a chunk of length -1.
- Ac3Player.Player.PlayFile: `empty_ac3` between turns is modelled on the ring alone.
- ConfigFile.Config.ParseConfig: an item that runs over the end of the data is refused, while the source reads on behind it; a file shorter than its header is refused too.
- ConfigFile.Config.Save: the write is complete in one call; the retry after a short write is not modelled, nor are settings without an item tag.
- RecGroups.UnpackGroups: a label field counts as free when it is empty, and is then taken to hold only zeros.
- ConfigFile.Config.Load: copying the loaded settings into the program's globals is not modelled.
- Display.Panel.Arrive: texts fit their fields; the matching of tags inside a line of text is a parameter. The dimmer characters and the 40x2 display are not modelled.
- PlaylistCollect.Playlist.RecurseFindAudio: paths fit their buffers; the shuffle is left out.
- Slideshow.Viewer.NextImage: offsets are unbounded integers, so the overflow of a request after a jump is not modelled; labels are unique ignoring case, so the current file is one menu entry.
- TrickPlay.Emulator.Run: each handler is one step, so what another thread does while a handler waits is not covered; the guards that drop a key altogether, `numRead` and all widgets are left out.
- Wire.ProgressExact: the last two bytes of the progress field, which the macro does not write, are not part of the statement.
- `http_main`, the WAV and Ogg players, the demuxers, the VNC decoder, `src/gui.c`, `src/main.c` and `src/colorlist.c` would add only easy members.
