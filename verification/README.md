# Models of the MEGA65 host tools and flasher

A Dafny model of nine programs and program parts of the MEGA65 tool repository, with proofs of what they are relied on for.
`dafny verify dfyconfig.toml` checks everything.

- **RLE packer** (`RleFormat`, `RlePacker`). A table of cheapest encodings, relaxed in place by raw, run and pair-run
  tokens; the way back through it; the file; and the decoder that checks it. Proved: the file is the shortest of all files
  that the decoder reads back as the input, and the check never fails. The loops over runs test the end of the input first;
  the source reads a byte before it does, which makes no difference to what is relaxed.
- **JTAG driver** (`Tap`, `Mpsse`, `JtagSession`, `JtagTracking`, `JtagScan`, `JtagFile`, `JtagDelivery`,
  `JtagDriver`). The driver appends command bytes to a buffer, patches them through a pointer, and remembers where the
  controller is by a letter.
  `Tap` is the 16-state controller of IEEE Std 1149.1-2001 clause 6.1; `Mpsse` gives the bytes a meaning as clocks of TMS and
  TDI; `JtagSession` says what each call asks for; `JtagDriver` is the driver, whose every method is proved to emit bytes that
  mean what was asked. The other modules prove what that amounts to: which bits end up in which register, and where the
  controller is.
- **Video decoder** (`VideoTokens`, `VideoCanvas`, `VideoDecoder`). A window of 20 characters, shifted and blanked in place,
  is proved to draw what a cursor decoder draws; the five recent colours are the most recently used ones, and rows encoded
  with them come back.
- **Flash updater** (`Fat32`, `Fat32Reader`, `FlashChip`, `FlashUpdater`). A FAT32 reader (Microsoft FAT32 File System
  Specification 1.03) whose one buffer serves table and data, and a verify, erase and program loop over a chip that may
  change any byte of a sector it is told to erase or program.
- **Hot patch** (`HotPatch`). Changed variables carried over to a new memory context by their nearest labels.
- **Emulator slice** (`HyppoMemory`, `HyppoDma`, `HyppoCpu`, `HyppoCalls`). Memory and banking, the byte-serial DMA copy, and
  the stack, calls and returns.
- **Logo converter** (`LogoTiler`). Colours interned in a palette, pixels tiled by 8 times 8.
- **Intel HEX writer** (`IntelHex`, `McsWriter`). Records as text, and a reader written from the Intel Hexadecimal Object File
  Format Specification, Revision A, 1988.

Classes with fields and arrays stand for the programs' global state; their methods are proved against functions on values, and
the lemmas are about those functions.

## Where the code does something else than expected

- The driver's letter does not always name the controller's state. Data written by name in Exit1 or Update, the reset marker
  from some states and a delay from Update leave the controller elsewhere (`JtagTracking.UntrackedRun` is such a run, from the
  forced reset). `JtagTracking.RunTracks` gives the exact condition, call by call.
- In a chain of one device, a file whose last chunk is a whole number of frames is followed by one more bit, shifted on the
  way from Shift-DR to Idle; a last frame of a single byte is announced as 65536 bytes, and what has been sent cannot be
  read. In longer chains the file is in place only if as many bits follow it as there are devices before the configured one.
  `JtagDelivery.FileDelivered` is an equivalence: `JtagDelivery.EndsInPlace` is a test on the chain and on the size of the
  file that can be made before the call. Between other devices the padding puts the file on a word boundary only in chains
  that `JtagDelivery.FileOnWord` characterises; in all that the source lists both hold.
- Logos whose width is not a multiple of 8 and whose height is more than 8 have pixels that share an address
  (`LogoTiler.SizesThatAgree`).
- Old labels of one name, ignoring case, make variables meet at one address, unless one of them is never the nearest
  (`HotPatch.MeetExactly`).
- The raster token does not fill the line it names but the line before, and a first raster token in a packet only
  synchronises.
- Directory reading does not stop at a first byte of 0, which marks the end of a directory; it goes on to the end of the chain.
- A run of the emulator that ends with its return leaves the run loop by the failing step, so that `cpu_run` and
  `cpu_call_routine` return false; the end is to be read from the termination flags.
- Labels of the hot patcher have 32 bits, although they are declared with the name of a 16-bit type.

## Model

| member | source | states |
|---|---|---|
| RleFormat.EndReads | src/tools/pngprepare/rlepack.c:200-202 | $00 ends a file |
| RleFormat.RawReads | src/tools/pngprepare/rlepack.c:188-193 | a count below $80 is followed by as many bytes that stand for themselves |
| RleFormat.RunReads | src/tools/pngprepare/rlepack.c:183-187 | a count above $80 stands for as many times the byte that follows as it exceeds $80 |
| RleFormat.PairsRead | src/tools/pngprepare/rlepack.c:175-182 | $80 is followed by a count and by two bytes that stand for that many pairs |
| RleFormat.NotReadable | src/tools/pngprepare/rlepack.c:172-202 | a file that ends too early, or goes on after its terminator, is not read |
| RleFormat.UnpackEmitted | src/tools/pngprepare/rlepack.c:144-158 | what is written for any list of raw, run and pair-run tokens, closed by $00, reads back as the bytes the tokens stand for |
| RleFormat.ReadableIsTokens | src/tools/pngprepare/rlepack.c:174-199 | every file the decoder can read to its terminator, whoever wrote it, has a list of valid tokens that stands for the same bytes and costs at least one byte less than the file is long |
| RlePacker.Packer.Relax | src/tools/pngprepare/rlepack.c:65-118 | after the nested loops every entry of the table has been relaxed by every token that ends there, and records a token that starts at its parent |
| RlePacker.TableIsOptimal | src/tools/pngprepare/rlepack.c:77-118 | the cost recorded for an offset is at most the byte cost of any tokens that decode to the input up to there |
| RlePacker.CostBound | src/tools/pngprepare/rlepack.c:66-91 | a cost never exceeds n plus one byte for each 127 begun, so the sentinel never survives |
| RlePacker.Packer.Backtrack | src/tools/pngprepare/rlepack.c:123-134 | following parents from the end gives a strictly decreasing chain to offset 0; the circular-path exit is never taken |
| RlePacker.Packer.Write | src/tools/pngprepare/rlepack.c:144-158 | writing the queue from its far end gives the tokens of the chain from the start of the input, and $00 |
| RlePacker.ChainEncodes | src/tools/pngprepare/rlepack.c:120-134 | the chain of recorded tokens expands to the input, and costs what the table says |
| RlePacker.ChainStep | src/tools/pngprepare/rlepack.c:120-134 | the chain to an offset is the chain to its parent, and then the token recorded there |
| RlePacker.DecodeToken | src/tools/pngprepare/rlepack.c:176-195 | decoding one written token moves past exactly its bytes and appends exactly what it stands for |
| RlePacker.Decode | src/tools/pngprepare/rlepack.c:172-196 | decoding stops with the buffer equal to the input and only the terminator left |
| RlePacker.Check | src/tools/pngprepare/rlepack.c:197-237 | the verification of a packed file always succeeds: none of its three error exits is reachable |
| RlePacker.ShortestFile | src/tools/pngprepare/rlepack.c:65-158 | no file that the decoder reads back as the input is shorter than the table cost plus the terminator |
| RlePacker.Pack | src/tools/pngprepare/rlepack.c:55-240 | only an empty input is refused; otherwise the file reads back as the input, or as its first 131072 bytes; no readable file for those bytes is shorter, and its length is bounded by n + ceil(n/127) + 1 |
| Tap.Columns | src/tools/fpgajtag/fpgajtag.c:170-192 | the controller goes down a column with TMS low and leaves it over Exit and Update with TMS high (IEEE Std 1149.1-2001 clause 6.1) |
| Tap.FiveOnesReset | src/tools/fpgajtag/fpgajtag.c:170-192 | five clocks with TMS high reach Test-Logic-Reset from each of the 16 states (IEEE Std 1149.1-2001 clause 6.1) |
| Mpsse.EncodesAs | src/tools/fpgajtag/fpga.h:36-47 | the bytes of the commands: operation, length less one with the low byte first, data |
| Mpsse.ParseEncoded | src/tools/fpgajtag/util.c:230-262 | a buffer of well-formed commands parses back to those commands with nothing left over, whatever their payloads look like |
| Mpsse.EmptyPayloadUnreadable | src/tools/fpgajtag/fpga.h:46-46 | a data command with nothing in it announces 65536 bytes: with fewer to follow, the stream does not parse |
| Mpsse.HeaderTells | src/tools/fpgajtag/util.c:227-281 | the first bytes of a well-formed command tell the walk how long it is, that it is known, and whether and how much it reads back: bits negative, one for TMS commands, bytes from the length field |
| Mpsse.AnswerIsClocked | src/tools/fpgajtag/util.c:263-273 | the size recorded for a reading command is what it clocks: bytes, or bits with a minus, and one bit for a command that drives TMS |
| Mpsse.ReadSizesOf | src/tools/fpgajtag/util.c:217-282 | the walk over the buffer consumes exactly the commands, never reaches the default case, and records one size for each reading command, in order |
| JtagSession.MarkerClocks | src/tools/fpgajtag/fpgajtag.c:207-213 | the marker is one clock more than it is told, after the move to Reset |
| JtagSession.DelayClocks | src/tools/fpgajtag/fpgajtag.c:193-206 | a delay is seven clocks for each unit of time and, if there are extra clocks, two more than are asked for |
| JtagTracking.ResetTracks | src/tools/fpgajtag/fpgajtag.c:150-192 | after the forced reset the letter and the chip agree, wherever the chip was |
| JtagTracking.MoveTracks | src/tools/fpgajtag/fpgajtag.c:170-192 | a requested move keeps letter and chip in agreement, whether the table knows it or not |
| JtagTracking.BitsTracks | src/tools/fpgajtag/fpgajtag.c:229-246 | a bit write keeps track exactly if it does not clock data by name in Exit1 or Update, except where the move to Idle makes up for it |
| JtagTracking.BytesTracks | src/tools/fpgajtag/fpgajtag.c:266-301 | a byte write keeps track exactly under the condition on letter, frame and size that SafeBytes spells out, whatever number of ones goes before the end of its last frame |
| JtagTracking.MarkerTracks | src/tools/fpgajtag/fpgajtag.c:207-213 | the reset marker keeps track exactly from Idle, Pause, Reset and the unknown letter |
| JtagTracking.WaitTracks | src/tools/fpgajtag/fpgajtag.c:193-206 | a delay keeps track exactly unless it clocks by name in Update |
| JtagTracking.RunTracks | src/tools/fpgajtag/fpgajtag.c:144-301 | over any run of moves, bit writes, byte writes, markers and delays the chip is in a state named by the letter after every call, if and only if every call is safe where it is made |
| JtagTracking.TracksFromReset | src/tools/fpgajtag/fpgajtag.c:150-301 | from the forced reset every safe run keeps track, from any of the 16 states |
| JtagTracking.UntrackedRun | src/tools/fpgajtag/fpgajtag.c:144-246 | a run from the forced reset that loses track: into Shift-DR, out to Exit1, and one bit more, which moves the chip on to Update-DR |
| JtagTracking.FramesWhole | src/tools/fpgajtag/fpgajtag.c:266-301 | a run of frames is sent in whole commands exactly if none of them is a single byte that is held back |
| JtagScan.ExitClocks | src/tools/fpgajtag/fpgajtag.c:170-192 | leaving Shift-IR or Shift-DR shifts exactly one more bit, on the first clock |
| JtagScan.WriteBitLeavesIR | src/tools/fpgajtag/fpgajtag.c:229-246 | the last bit of a write rides on the clock that leaves Shift-IR |
| JtagScan.IrregShifts | src/tools/fpgajtag/fpgajtag.c:458-486 | an instruction scan shifts ones into every other device and the low bits of the command into the chosen one; the reading form stops in Pause before the bits of the nearer devices |
| JtagScan.BypassShifts | src/tools/fpgajtag/fpgajtag.c:458-486 | the index past the last device shifts ones into the whole chain |
| JtagScan.CirregShifts | src/tools/fpgajtag/fpgajtag.c:487-500 | with or without reading, the whole chain receives the instruction and the controller ends in Run-Test/Idle |
| JtagScan.InstructionReaches | src/tools/fpgajtag/fpgajtag.c:458-486 | device by device the instruction registers hold ones, and that of the chosen device the low bits of the command |
| JtagFile.SwapReverses | src/tools/fpgajtag/fpgajtag.c:284-286 | the bit reversal of a byte, shifted low bit first, is the byte high bit first |
| JtagFile.FramesInDR | src/tools/fpgajtag/fpgajtag.c:266-301 | a run of frames shifts its bytes into the data register, nothing lost or repeated at frame boundaries; only a partial last frame leaves Shift-DR, with its last byte or with ones on the way out |
| JtagFile.ChunksInDR | src/tools/fpgajtag/fpgajtag.c:550-559 | a file sent in chunks shifts its bytes in order and leaves the instruction alone; how it ends depends only on its last chunk |
| JtagFile.ChunksWhole | src/tools/fpgajtag/fpgajtag.c:550-559 | it is sent in whole commands exactly if neither its first chunk nor, where the last byte is held back, its last one leaves a single byte for its last frame |
| JtagDelivery.HeaderShifted | src/tools/fpgajtag/fpgajtag.c:543-549 | before the file go ones for the devices beyond, the words, and the zeros that the place in the chain asks for |
| JtagDelivery.FileShifted | src/tools/fpgajtag/fpgajtag.c:527-564 | in a chain of any devices, with any settings and first frame size, a file ends in Idle with header, file and surplus bits in the data registers, and with the instruction that was shifted in before it |
| JtagDelivery.SurplusIs | src/tools/fpgajtag/fpgajtag.c:560-562 | the bits shifted after a file, setting by setting |
| JtagDelivery.FileWhole | src/tools/fpgajtag/fpgajtag.c:527-564 | the whole call sends whole commands exactly if no frame of the file is empty |
| JtagDelivery.FileDelivered | src/tools/fpgajtag/fpgajtag.c:527-564 | as the main program sends it, the configured device is given instruction 5 and all others ones, and the file arrives in the device behind its header, every byte high bit first and nothing after it, if and only if its first chunk is whole and its last chunk ends in place |
| JtagDelivery.DeliveredParts | src/tools/fpgajtag/fpgajtag.c:543-559 | where everything lies in the device: captured zeros, ones, words, zeros, words, the file |
| JtagDelivery.DeliveredBit | src/tools/fpgajtag/fpgajtag.c:284-286 | each bit of the file in its place in the device, the high bit of a byte first |
| JtagDelivery.FileOnWord | src/tools/fpgajtag/fpgajtag.c:543-549 | in chains of up to eight devices the padding puts the file on a 32-bit word boundary of the device, if and only if the device is at an end of the chain or has as many devices beyond it as before it and the core |
| JtagDelivery.ListedChains | src/tools/fpgajtag/fpgajtag.c:534-543 | in every chain the comment lists the file ends in place and begins on a word boundary |
| JtagDelivery.ShiftDRToIdle | src/tools/fpgajtag/fpgajtag.c:562-562 | where the last frame is full the way back to Idle shifts one more bit |
| JtagDriver.Driver.WriteData | src/tools/fpgajtag/util.c:188-200 | bytes are appended to the buffer |
| JtagDriver.Driver.FlushWrite | src/tools/fpgajtag/util.c:217-282 | the buffer is handed over whole and emptied; the sizes to be read are those of its reading commands; while every command is whole the program does not exit |
| JtagDriver.Driver.PackLevels | src/tools/fpgajtag/fpgajtag.c:156-166 | the loop over a transition packs its TMS levels into a byte, first level lowest |
| JtagDriver.Driver.EnterTmsState | src/tools/fpgajtag/fpgajtag.c:170-192 | the search through the table sends the one matching transition or nothing, and the session moves as specified |
| JtagDriver.Driver.EnterPatched | src/tools/fpgajtag/fpgajtag.c:239-244 | patching the command through the old buffer pointer makes it read and carry a data bit; where no command was sent only bytes past the end are touched |
| JtagDriver.Driver.WriteBit | src/tools/fpgajtag/fpgajtag.c:229-246 | the bytes of a bit write mean the bits and the move of its specification |
| JtagDriver.Driver.WriteBytes | src/tools/fpgajtag/fpgajtag.c:266-301 | the bytes of a framed write, with reversal in place and flushes in between, mean the frames of its specification |
| JtagDriver.Driver.WriteFill | src/tools/fpgajtag/fpgajtag.c:253-264 | a fill means so many ones and the move |
| JtagDriver.Driver.MarkerForReset | src/tools/fpgajtag/fpgajtag.c:207-213 | the marker means clocks with TMS high, and is flushed |
| JtagDriver.Driver.TmswDelay | src/tools/fpgajtag/fpgajtag.c:193-206 | the delay means its idle clocks |
| JtagDriver.Driver.WriteIrreg | src/tools/fpgajtag/fpgajtag.c:458-486 | the bytes of an instruction scan mean its specification |
| JtagDriver.Driver.WriteCirreg | src/tools/fpgajtag/fpgajtag.c:487-500 | the bytes of a configuration-device scan mean its specification |
| JtagDriver.Driver.SendDataFile | src/tools/fpgajtag/fpgajtag.c:527-564 | the bytes of a file, in a chain of several devices too, mean its specification, with the first frame size worked out from what is in the buffer |
| JtagDriver.Driver.SendBitFile | src/tools/fpgajtag/fpgajtag.c:960-970 | as the main program calls it, the configured device is given instruction 5 and the others ones; the file is delivered if and only if its last chunk ends in place; a device on its own is given 32 zeros and the file; where a single held back byte is left for the last frame, the bytes sent do not parse |
| JtagDriver.Driver.StreamMeans | src/tools/fpgajtag/fpgajtag.c:150-564 | the bytes sent so far parse back to commands, and those commands put the session on the wires |
| JtagDriver.Driver.StreamBreaks | src/tools/fpgajtag/fpgajtag.c:266-301 | once a data command without data has been sent, the bytes sent so far do not parse, as long as fewer than 65536 follow it |
| JtagDriver.BrokenUnreadable | src/tools/fpgajtag/fpgajtag.c:266-301 | commands of which one is an empty data command less than 65536 bytes from the end do not parse |
| VideoTokens.CodesAre | src/tools/vncserver.c:769-907 | the codes bit by bit, and the numbers in them |
| VideoTokens.NumberBit | src/tools/vncserver.c:774-774 | the first bit of a number counts most |
| VideoTokens.ReadCode | src/tools/vncserver.c:769-907 | the code of every token reads back as that token, whatever follows |
| VideoTokens.ReadIsCode | src/tools/vncserver.c:769-907 | where a token is read its code stands; where none is read there are eight ones, and one bit is skipped |
| VideoTokens.TokensOfCode | src/tools/vncserver.c:739-916 | any tokens, followed by 19 more bits, decode to themselves and then to what those bits decode to |
| VideoCanvas.SpreadInjective | src/tools/vncserver.c:778-778 | different 12-bit colours stay different when spread over three bytes |
| VideoCanvas.SpreadPlaces | src/tools/vncserver.c:778-778 | red, green and blue nibbles go to the high halves of three bytes |
| VideoCanvas.RunDraws | src/tools/vncserver.c:819-837 | a run draws as many pixels of the front colour as asked for up to the right edge, one next to the other; off the screen it only moves on, and before the first line of a frame it does nothing |
| VideoCanvas.RasterDraws | src/tools/vncserver.c:786-818 | a raster token fills the line before, starts its own at the left with the first palette, and is drawn on only if it repeats or follows the last one |
| VideoCanvas.NewFrameDraws | src/tools/vncserver.c:838-854 | a new frame fills the line before, shows the picture, and leaves no line to draw on |
| VideoCanvas.NothingDrawn | src/tools/vncserver.c:819-906 | after a new frame nothing is drawn up to the next raster token or explicit colour |
| VideoCanvas.PixelDraws | src/tools/vncserver.c:769-906 | a single pixel in the front colour, a recent colour or a new one, and what becomes of the recent colours |
| VideoCanvas.MruOrders | src/tools/vncserver.c:769-906 | the list kept by moving colours to the front holds each colour used once, in order of last use |
| VideoCanvas.CacheIsRecent | src/tools/vncserver.c:769-906 | the five colours are distinct, and no other colour has been used later than any of them |
| VideoCanvas.UsedCaches | src/tools/vncserver.c:858-906 | one more colour token keeps the five colours the five most recently used |
| VideoCanvas.RowDrawn | src/tools/vncserver.c:769-906 | for any row, the tokens chosen by hit in the five colours or else explicitly, with runs for repeated pixels, draw that row, pixel for pixel |
| VideoCanvas.RowAfterRaster | src/tools/vncserver.c:786-818 | a row after its raster token is drawn on that line if the line repeats or follows the last one |
| VideoCanvas.LinesRoundTrip | src/tools/vncserver.c:786-906 | any rows sent on successive lines come back pixel for pixel, after one raster token to synchronise on |
| VideoCanvas.PixelsShown | src/tools/vncserver.c:769-906 | what such rows draw is each of their pixels at its place and in its colour, and no other pixel |
| VideoDecoder.Decoder.ShiftIn | src/tools/vncserver.c:757-760 | the window moves along by one character in place |
| VideoDecoder.Decoder.Blank | src/tools/vncserver.c:781-783 | blanking a used token leaves blanks followed by the unused bits |
| VideoDecoder.Decoder.RunOf | src/tools/vncserver.c:819-837 | a run draws its pixels up to the right edge, and none before the first line of a frame |
| VideoDecoder.Decoder.StartRaster | src/tools/vncserver.c:786-818 | a raster token fills the line before, decides whether its own line is drawn, and resets the colours |
| VideoDecoder.Decoder.DecodeBit | src/tools/vncserver.c:755-907 | the window is always blanks followed by the latest unused bits; a bit that fills it uses exactly the token a cursor would read there |
| VideoDecoder.Decoder.DecodePacket | src/tools/vncserver.c:722-916 | the shift-and-blank window draws exactly what a cursor decoder draws that stops 20 bits before the end |
| Fat32.ChainUnique | src/utilities/qspijoy.c:352-360 | a chain is determined by its first cluster |
| Fat32.ChainAcyclic | src/utilities/qspijoy.c:352-360 | a chain that reaches an end mark meets no cluster twice |
| Fat32.FatEntryIs | src/utilities/qspijoy.c:352-360 | the entry of a cluster: four bytes, low one first, 128 entries to a sector |
| Fat32.ChainLinks | src/utilities/qspijoy.c:352-360 | each cluster's entry is the next cluster, and the last one's an end mark |
| Fat32.DataAt | src/utilities/qspijoy.c:470-478 | sector i of cluster k of a chain, on the card |
| Fat32.EntryAt | src/utilities/qspijoy.c:391-427 | sixteen directory entries to a sector, 32 bytes each |
| Fat32.ReadIs | src/utilities/qspijoy.c:413-423 | the cluster and the name in an entry, byte by byte |
| Fat32.ListedIs | src/utilities/qspijoy.c:425-426 | entries are listed whose first byte is neither 0 nor $E5 |
| Fat32.TerminatedIs | src/utilities/qspijoy.c:449-449 | names are compared up to a zero byte |
| Fat32.NamedIn | src/utilities/qspijoy.c:371-382 | the directory is the chain that starts at cluster 2 |
| Fat32.ContentsAre | src/utilities/qspijoy.c:452-454 | a file holds the data of the chain that starts at its cluster |
| Fat32Reader.CursorMoves | src/utilities/qspijoy.c:470-478 | a cursor with clusters left stands on a sector of its chain, and moves on to the next one |
| Fat32Reader.Reader.NextCluster | src/utilities/qspijoy.c:352-360 | the next cluster is the entry of the allocation table, read through the shared buffer |
| Fat32Reader.Reader.Read512 | src/utilities/qspijoy.c:461-484 | reading returns the data sectors of the chain in order and then 0, with the data sector and not the table sector in the buffer |
| Fat32Reader.Reader.ReadDir | src/utilities/qspijoy.c:384-432 | directory reading returns exactly the entries whose first byte is neither 0 nor $E5, in order |
| Fat32Reader.Reader.Open | src/utilities/qspijoy.c:442-459 | opening finds the first entry with the name and stands at the beginning of its chain, or reports that there is none |
| FlashChip.SlotsApart | src/utilities/qspijoy.c:1073-1074 | slot 0 starts at 0, and slots lie one behind the other without overlapping |
| FlashChip.SectorsAre | src/utilities/qspijoy.c:1075-1078 | 4 KiB sectors below the boundary, 64 or 256 KiB ones above |
| FlashChip.SectorsTile | src/utilities/qspijoy.c:1073-1078 | sectors in the sizes the updater chooses tile a slot |
| FlashChip.EraseAligns | src/utilities/qspijoy.c:1608-1626 | the granularity test of the erase agrees with the choice of size, and an aligned address erases its own sector |
| FlashUpdater.Updater.LoadFile | src/utilities/qspijoy.c:1026-1062 | the memory holds the file as far as it fits and what was there before |
| FlashUpdater.LoadedAt | src/utilities/qspijoy.c:1026-1062 | byte by byte, the file's sectors as far as they fit, and what was there before |
| FlashUpdater.Updater.RegionDiffers | src/utilities/qspijoy.c:894-938 | a region differs if any of its 512-byte parts does |
| FlashUpdater.Updater.EraseSector | src/utilities/qspijoy.c:1577-1630 | the chip erases in the granularity that goes with the global address, at the address given |
| FlashUpdater.Updater.ReflashSector | src/utilities/qspijoy.c:1085-1131 | a sector that matches is left alone; otherwise it is erased at most ten times, and left only when it verifies; a reliable chip needs one try |
| FlashUpdater.SparingNext | src/utilities/qspijoy.c:1085-1131 | the erase log stays sparing from sector to sector |
| FlashUpdater.SparingMeans | src/utilities/qspijoy.c:1085-1131 | each erase is of a whole aligned sector of the slot in its size, which did not hold what it should, at most so many times |
| FlashUpdater.Updater.FlashSlot | src/utilities/qspijoy.c:1073-1148 | whatever the chip does inside the sectors it is told to erase or program: success means the whole slot equals the image, nothing outside the slot changes, matching sectors are never erased, none is erased more than ten times, and every erase has the size of its sector |
| FlashUpdater.Updater.EraseSlot | src/utilities/qspijoy.c:1182-1205 | erase mode erases every sector of the slot once, in order |
| FlashUpdater.EverySectorIs | src/utilities/qspijoy.c:1182-1205 | the sectors erased follow each other from the start of the slot to its end, each in its size |
| FlashUpdater.Updater.ReflashSlot | src/utilities/qspijoy.c:941-1205 | the whole update of the slotSize bytes from slot * slotSize on: after success they hold the named file as far as it fits, nothing else changes; refusals and a missing file leave the flash alone; a reliable chip is always updated |
| HotPatch.Context.FindNearestLabel | src/tools/hotpatch/hotpatch.c:240-254 | the last of the labels with the highest address not above the one given |
| HotPatch.Context.FindLabel | src/tools/hotpatch/hotpatch.c:286-293 | the first label with a name, ignoring case |
| HotPatch.SameNameIs | src/tools/hotpatch/hotpatch.c:286-293 | names are the same if they are letter by letter, but for the case of A to Z |
| HotPatch.TranslateByte | src/tools/hotpatch/hotpatch.c:310-340 | an address goes as far past the label of the same name as it was past its own, unless another label is nearer there |
| HotPatch.TranslatedMoves | src/tools/hotpatch/hotpatch.c:310-340 | the translation of an address is the one move there is: from its nearest old label to the first new one of that name, at the same distance, if that is the nearest there |
| HotPatch.Injective | src/tools/hotpatch/hotpatch.c:310-340 | no two addresses translate to the same one, if no two old labels that are nearest to anything share a name |
| HotPatch.MeetExactly | src/tools/hotpatch/hotpatch.c:286-340 | whatever the new labels, no two bytes meet at one address, if and only if no two old labels that are nearest to anything have the same name, ignoring case |
| HotPatch.SameNamesCollide | src/tools/hotpatch/hotpatch.c:286-293 | two labels that differ in case only make two addresses meet |
| HotPatch.OnlySource | src/tools/hotpatch/hotpatch.c:310-347 | where bytes never meet the last byte carried over to an address is the only one |
| HotPatch.Context.LoadMemory | src/tools/hotpatch/hotpatch.c:228-236 | the bytes that no longer hold their initial values are the modified ones |
| HotPatch.UpdateVariables | src/tools/hotpatch/hotpatch.c:295-361 | every address holds the value of the last changed variable byte that translates to it, and is unchanged if there is none |
| HotPatch.Context.SaveMemory | src/tools/hotpatch/hotpatch.c:183-210 | the image holds current values where modified and initial values elsewhere |
| HotPatch.Migrate | src/tools/hotpatch/hotpatch.c:183-361 | where bytes never meet, every changed variable byte that moves to a byte that is not code is in the image there, and every other byte of the image, in particular all code, has its initial value |
| HyppoMemory.MemoryMap | src/tools/hyppotest.c:1479-1499 | where chip RAM, colour RAM, IO space and hypervisor RAM lie, and what is read elsewhere |
| HyppoMemory.DmaRegisters | src/tools/hyppotest.c:2229-2250 | the registers that start a job or change another, and the bits of the bank register that a write sets |
| HyppoMemory.ListInIs | src/tools/hyppotest.c:2236-2236 | the address of a job list in its registers |
| HyppoMemory.LineIs | src/tools/hyppotest.c:1400-1401 | a bank line is high where its port bit is set or is not an output |
| HyppoMemory.TranslateIs | src/tools/hyppotest.c:1402-1470 | where every 16-bit address leads, by address range, bank lines and mapped zones |
| HyppoMemory.ReadWritten | src/tools/hyppotest.c:2197-2250 | a write is seen where it was made and nowhere else, except for the speed switch at address 0 and the DMA registers that follow another |
| HyppoMemory.Ram.AddressTo28 | src/tools/hyppotest.c:1388-1477 | the step-by-step banking gives the mapped zone first, then the C64 banks |
| HyppoMemory.Ram.Write | src/tools/hyppotest.c:2197-2285 | a write changes one byte and the DMA registers that follow it; it reports an error where there is no memory, and the list of the job that it starts |
| HyppoDma.JobIs | src/tools/hyppotest.c:1719-1766 | the fields of a job, from the bytes of its list; a count of 0 is 65536 |
| HyppoDma.RunJob | src/tools/hyppotest.c:1719-1854 | a job read from its list and carried out: a copy inside chip RAM leaves each destination byte with the old source byte it stands for, in either direction, and all else as it was |
| HyppoDma.CopyAt | src/tools/hyppotest.c:1823-1854 | byte by byte, upward or downward, which source byte each destination byte holds |
| HyppoDma.Copy | src/tools/hyppotest.c:1823-1854 | the loop copies byte by byte, reading each byte after all earlier ones have been written; it is left where it starts another job |
| HyppoDma.CopiedInChip | src/tools/hyppotest.c:1823-1854 | inside chip RAM the job is a serial copy of plain bytes |
| HyppoDma.CopyResult | src/tools/hyppotest.c:1823-1854 | byte i of the destination is byte i modulo the distance of the old source, in either direction |
| HyppoDma.PlainCopy | src/tools/hyppotest.c:1823-1854 | a copy whose destination is not ahead of its source, or is out of its reach, is a plain block copy |
| HyppoDma.CopyElsewhere | src/tools/hyppotest.c:1823-1854 | nothing else changes |
| HyppoDma.JobResult | src/tools/hyppotest.c:1823-1854 | a copy inside chip RAM, step by step over all of memory, is the old source repeated at the distance, and changes nothing else |
| HyppoCpu.StackInPage | src/tools/hyppotest.c:2428-2467 | with the E flag the stack pointer moves by one in its page and notes when it wraps |
| HyppoCpu.StackThrough | src/tools/hyppotest.c:2428-2467 | without it it moves through all of memory |
| HyppoCpu.LoadsAndStores | src/tools/hyppotest.c:2469-3168 | the byte a load takes, the address a store writes and a call goes to, and what a store notes |
| HyppoCpu.PushesAndPulls | src/tools/hyppotest.c:2469-3168 | what is pushed and pulled and where, and that a break ends a run with an error |
| HyppoCpu.StepEnds | src/tools/hyppotest.c:4008-4073 | which tests end a step, in their order |
| HyppoCpu.EnteredIs | src/tools/hyppotest.c:4105-4130 | the page, base page and mode a routine is entered with |
| HyppoCpu.CallFails | src/tools/hyppotest.c:4131-4148 | a call of a routine that begins with a break fails, and so does one that fills the log |
| HyppoCpu.Machine.StackPush | src/tools/hyppotest.c:2451-2467 | a push writes at the stack pointer and moves it down, in its page if the E flag is set, noting an overflow |
| HyppoCpu.Machine.StackPop | src/tools/hyppotest.c:2428-2448 | a pop moves the stack pointer up, noting an underflow, and reads there |
| HyppoCpu.Machine.ExecuteInstruction | src/tools/hyppotest.c:2469-3168 | BRK, JSR, RTS, PHA, PLA, LDA immediate and STA absolute do what is specified for them, a store that starts a DMA job included |
| HyppoCpu.Machine.CpuStep | src/tools/hyppotest.c:4008-4073 | a step ends the run at a breakpoint, at its end, or at a stack error, tested in that order |
| HyppoCpu.Machine.CallRoutine | src/tools/hyppotest.c:4105-4148 | a routine is run in the state its address asks for; a full log and a BRK are errors |
| HyppoCalls.OrdinaryStack | src/tools/hyppotest.c:1388-1477 | the ordinary stack page is chip RAM however the banks are set |
| HyppoCalls.HypervisorStack | src/tools/hyppotest.c:1388-1477 | the hypervisor's stack page, mapped, is hypervisor RAM |
| HyppoCalls.PushAdds | src/tools/hyppotest.c:2451-2467 | a push adds a byte above those already on the stack, without overflow while there is room |
| HyppoCalls.PopTakes | src/tools/hyppotest.c:2428-2448 | a pop takes the last byte pushed |
| HyppoCalls.ReturnKeeps | src/tools/hyppotest.c:3119-3131 | a return takes off the address of the call that is open and comes back behind it |
| HyppoCalls.StepKeeps | src/tools/hyppotest.c:4008-4060 | every well-nested instruction that starts no DMA job keeps the stack, the stack pointer and the count of open calls in step |
| HyppoCalls.CallReturns | src/tools/hyppotest.c:2694-3131 | a call with a well-nested body that starts no DMA job resumes after the call with the stack pointer, the stack and the count as before |
| HyppoCalls.FramesFit | src/tools/hyppotest.c:2451-2467 | 127 nested calls fit the page |
| HyppoCalls.RunEnds | src/tools/hyppotest.c:4008-4103 | a run started with the count at 1, in which no instruction is met so often that it counts as an endless loop, is done exactly at the return that closes it, stack underflow or not |
| HyppoCalls.EnteredRuns | src/tools/hyppotest.c:4105-4130 | a called routine starts such a run |
| LogoTiler.NibblesSwapped | src/tools/pngprepare/pngprepare.c:318-321 | the two nibbles of a palette byte change places |
| LogoTiler.Neighbours | src/tools/pngprepare/pngprepare.c:285-293 | one pixel right is a byte on, or the next tile; one down is eight bytes on, or the next band |
| LogoTiler.C64Is | src/tools/pngprepare/pngprepare.c:244-260 | the sixteen colours the palette starts with |
| LogoTiler.ShownIs | src/tools/pngprepare/pngprepare.c:315-337 | reds, greens and blues of the palette in the file |
| LogoTiler.PixelOfAddress | src/tools/pngprepare/pngprepare.c:294-301 | the address determines the pixel, at widths that are multiples of 8 |
| LogoTiler.SizesThatAgree | src/tools/pngprepare/pngprepare.c:285-293 | pixels that share an address have the same colour in every image of a size, if and only if its width is a multiple of 8 or its height at most 8 |
| LogoTiler.AddressOfPixel | src/tools/pngprepare/pngprepare.c:294-301 | every address behind the palette is the address of a pixel of the image |
| LogoTiler.AddressInside | src/tools/pngprepare/pngprepare.c:294-301 | every pixel's address lies behind the palette and inside the file |
| LogoTiler.InternedCounts | src/tools/pngprepare/pngprepare.c:184-207 | interning gives each different colour one index |
| LogoTiler.Converter.PaletteLookup | src/tools/pngprepare/pngprepare.c:184-207 | a known colour keeps its index; a new one gets the next, until the palette is full |
| LogoTiler.Converter.PutRow | src/tools/pngprepare/pngprepare.c:265-315 | a row of pixels is put in place without disturbing the rows before it |
| LogoTiler.Converter.Convert | src/tools/pngprepare/pngprepare.c:233-339 | the palette in the file is the sixteen C64 colours and then the colours of the image in the order they are met; for images of any size with at most 240 different colours, every pixel is recovered by looking its byte up there with nibbles swapped back, if and only if pixels that share an address have the same colour; only more than 2544 colours end the program |
| IntelHex.RecordIsGood | src/tools/bit2mcs.c:46-72 | the bytes of every record sum to 0 modulo 256, and its length is right |
| IntelHex.LineRead | src/tools/bit2mcs.c:46-72 | the text of a record reads back as that record |
| McsWriter.KnownLines | src/tools/bit2mcs.c:46-72 | two records as they are printed |
| McsWriter.AfterFull | src/tools/bit2mcs.c:53-72 | a full line has sixteen bytes, and the low half of their address |
| McsWriter.WriteBase | src/tools/bit2mcs.c:47-52 | the address record as printed |
| McsWriter.WriteData | src/tools/bit2mcs.c:66-72 | the data record as printed |
| McsWriter.EmitRead | src/tools/bit2mcs.c:45-77 | from any 16-byte offset on, the reader recovers the rest of the data across every 64 KiB boundary |
| McsWriter.Convert | src/tools/bit2mcs.c:35-81 | a reader of record types 00, 01 and 04 recovers what follows the first 120 bytes of the file at addresses 0 upward, for anything up to 4 GiB |

## Left out

- JtagDriver.Driver.SendDataFile: requires at most seven devices beyond the configured one, as many bits as one command can hold, a letter from which the table knows a way to Idle, and a controller that is where the letter says.
- JtagDelivery.Delivered: the other devices are bypass registers of one bit; what the configured device makes of the bits is not modelled.
- JtagDelivery.FileOnWord: chains of more than eight devices, in which the last byte of a pad can be held back, are left out.
- JtagScan.IrregShifts: fills of up to 39 bits, the most the static buffer of ones holds.
- JtagDriver.Driver.FlushWrite: the sync bytes, clock-only commands and GPIO commands that the walk over the buffer also knows are not among the modelled commands, except the send-immediate command.
- JtagDriver.Driver.EnterTmsState: the warnings about unexpected letters, which change nothing, are not modelled.
- The JTAG driver's USB side, the answers of the chip and their bit squeezing, access to debug modules, and boundary scan.
- VideoDecoder.Decoder.StartRaster: the copy along a line that fills the line before is recorded as one event, without what it does to the frame buffer.
- VideoDecoder.Decoder.DecodePacket: the frame buffer is the list of what has been drawn; capture, network and screen updates are not modelled.
- Fat32Reader.Reader.ReadSector: reading errors and timeouts of the SD card are not modelled; neither is the setup from the boot sector.
- Fat32Reader.Reader.Read512: chains lie inside the volume and reach an end mark; sector numbers do not exceed 32 bits.
- FlashUpdater.Updater.ReflashSlot: whether a file is made for the machine, and whether an erase is confirmed, are parameters; SPI transfers, status polling, the dummy reads before a sector, progress and speed printing are not modelled, and the endless loop after ten failures is an outcome of its own.
- FlashChip.GoodGeometry: the boundary of the small sectors is a multiple of the large sector size, as on the chips the updater knows.
- FlashChip.SectorSize: the product of the number of small sectors and 4096 is unbounded, although it can overflow the unsigned int of the program.
- FlashUpdater.Updater.LoadFile: the image is as large as a slot.
- HotPatch.UpdateVariables: requires that no variable is translated to an address beyond 64 KiB, where the program would write outside its arrays; counting and printing are not modelled.
- Loading of list and map files, and the stack and registers of the patched program.
- HyppoMemory.Ram.Write: a DMA job that a write starts is reported with the address of its list, and not carried out within the write; the notes printed where a write enters or leaves the hypervisor are not modelled.
- HyppoCalls.StepKeeps: runs in which a store starts a DMA job, which could overwrite the stack, are outside these results.
- HyppoDma.Copy: a copy that writes to the registers that start another job is left there; option lists, chained jobs, fills, line and spiral modes, transparency and symbol bookkeeping are not modelled; neither are the modulo fields, which the program reads but does not use.
- HyppoCpu.Machine.ExecuteInstruction: seven opcodes; all others, interrupts and the entry to the hypervisor are not modelled, and a run is one of these opcodes only.
- HyppoCpu.Machine.CpuRun: the instruction log is a limit on steps; the count of visits to an address that stops endless loops is not modelled.
- HyppoCalls.RunEnds: runs that the program takes for endless loops are outside it.
- LogoTiler.Converter.Convert: the file is long enough for every pixel from the start, instead of growing; reading the PNG file is not modelled.
- The other modes of the logo converter, and all files, sockets, screens and serial lines of all programs.
