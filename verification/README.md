# SWUpdate: a verified model of its stateful core

This project models the parts of SWUpdate that decide what ends up on the
device, and proves what they promise. Libraries and the kernel appear as
devices with contracts: they may fail, answer short, be interrupted or go at
their own pace within these contracts, and every statement holds for all of it.

- **Flash writer** (`Flash*.dfy`). `flash_write` is called with arbitrary
  fragments, buffers one erase block, programs pages, skips bad blocks, and on
  an I/O error marks the block bad and writes the whole block again elsewhere.
  The device is a sequence of blocks with an oracle for the outcome of every
  operation; its write operation requires pages that are blank and not
  programmed since the last erase. `Flash.WriteImage` proves that whatever
  pattern of bad blocks and faults the device shows, an image reported as
  written can be read back, padded to a page, by skipping the blocks marked
  bad. It survives every I/O error of a write or an erase: it fails with the
  first other error, or when the blocks that are still good are too few.
- **Delta update** (`Multipart*.dfy`, `Delta*.dfy`, `Ranges.dfy`). The incremental parser of
  multipart bodies feeds a handler that puts an image together from chunks of
  the source and chunks from the network. The parser refines a pure reading of
  the input, is independent of how the input is cut into fragments, follows the
  grammar of a body, written out as a reader by recursive descent, and finds
  exactly the delimiters. The handler writes all
  chunks of the target once and in order if it succeeds and no copy from the
  source fails half way. With a source that can be read and a server
  that sends the byte ranges asked for, as a single range or in parts and cut
  into packets anywhere, it does succeed (`DeltaProps.InstallFromServer`), unless
  a range asked for ends with a chunk that has no bytes (`DeltaGap.DeliveryIff`).
  The byte ranges of a request are exactly the missing bytes, merged.
- **Hamming code** (`BitArith.dfy`, `Hamming*.dfy`, `EccSector.dfy`). The bit and
  row parities amount to the exclusive or of the positions of the set bits. So
  one wrong bit is located, two are noticed, and the three bytes kept per sector
  determine the code exactly for sectors of up to 512 bytes.
- **Copy pipeline and archive** (`Streams.dfy`, `Pipeline*.dfy`, `Copyfile.dfy`,
  `Cbc.dfy`, `Pkcs11.dfy`, `Hex.dfy`, `Cpio*.dfy`, `ExtractFiles.dfy`,
  `SaveStream.dfy`). Input, decryption and decompression as pull steps with
  pending output; what the callback gets is the decrypted, decompressed image.
  The framing of the archive gives back the names and data put in, a saved
  stream is the stream that came in, and a well formed one is saved exactly if
  its description passes.
- **Versions** (`Strings.dfy`, `Semver*.dfy`, `StringSplit.dfy`, `Versions.dfy`,
  `VersionText.dfy`, `VersionKinds.dfy`). The comparison of semantic versions is a total preorder, how far it is the one
  of Semantic Versioning 2.0.0, which versions survive rendering and parsing,
  and that packed numbers order old-style versions by their fields.
- **Boot environment and line reader** (`Dict.dfy`, `Grub*.dfy`, `ReadLines.dfy`).
  The environment file refines a finite map; process output is turned into lines
  without loss.

Code that updates state in place is modelled by classes and loops, proved
against functions on values. Bytes are naturals below 256. Integers are
unbounded; where the width matters (checksums, `tmpsize`, the packed version,
`strtol` assigned to an `int`, the erase range) the wrap-around is written out.

## What the code does not quite do

Each of these is a proved statement, with the exact condition.

- When `multipart_data_end` copies chunks from the source and such a copy fails
  after having written something, the failure is not reported and the bytes
  stay in the output: installation succeeds with a wrong image
  (`DeltaLeak.UnnoticedFailure`). Every installation that is served gives the
  right image exactly with sources on which no copy fails after having written
  something (`DeltaLeak.HarmlessIff`); for every other source there are an image
  and answers of a server with which installation succeeds and the image is
  wrong (`DeltaLeak.InstallSpoiled`).
- A chunk to download that has no bytes stops the copying from the source at the
  end of the range before it. If a chunk from the source follows, the bytes of
  the next range are taken for that chunk, and the update fails though the
  server sent just what was asked for (`DeltaGap.GapFails`). The answer to a
  request brings the handler to the next request exactly if every range asked
  for ends with a chunk that has bytes (`DeltaGap.DeliveryIff`). If the limit
  allows to ask for everything at once and these bytes are the only answer,
  installation succeeds exactly if every such chunk is followed, over chunks
  without bytes, by a chunk to download that has some (`DeltaGap.InstallAtOnce`).
- After a malformed byte the parser keeps its state, so a caller that goes on
  regardless gets results that depend on how the body was cut
  (`MultipartProps.HeedlessOnMalformed`). Cuts do not matter exactly for the
  bodies that are accepted, or of which every byte behind the first refused one
  is refused as well (`MultipartProps.HeedlessIff`).
- An update of the cipher that succeeds without output ends the stream, since
  zero means the end to the steps downstream (`PipelineProps.SilenceStops`).
  With the token's decryption this happens exactly when the ciphertext is one
  block; then a successful copy delivers nothing
  (`PipelineProps.HeldBackDelivers`).
- A prerelease identifier of a minus sign and digits is read as a number, and
  numbers above the largest `int` wrap around; the comparison is the standard's
  exactly for all other identifiers (`SemverProps.RegularIff`).
- `compare_versions` has cycles across any two of the three kinds of versions; it
  is transitive on all versions of a set of kinds exactly if there is one kind
  at most (`VersionKinds.ConsistentIff`).
- The list of ranges of a request counts a range that starts like another one
  again without adding it (`Ranges.RangeList.Add`), so a chunk without bytes may
  count twice and the limit be reached early (`DeltaRequest.LimitEarly`). A
  request ends exactly where the count, one for each chunk to download that is
  not right behind downloaded bytes, reaches the limit
  (`DeltaRequest.MissingRange`).
- `grubenv_write` puts the block together in a buffer of 1024 bytes and writes to
  the byte behind it exactly if the text is 1024 bytes long (`GrubEnv.MakeBlock`).
- `flash_erase_sector` keeps the end of the range in 32 bits, so the blocks it finds
  cover the range exactly if that ends below 4 GiB (`FlashErase.BlockRange`).
- The three bytes of `ecc_sector` lose part of the code of sectors above 512
  bytes (`EccSector.LosslessIff`).

## Model

| member | source | states |
|---|---|---|
| `Flash.WriteImage` | handlers/flash_handler.c:527-646 | if all calls succeed, reading from the start block while skipping the blocks given up returns the image padded to a page; these are exactly the bad blocks where marks are supported; I/O errors of writes and erases and missing lock or mark operations are survived: it fails only with the first other error the device answered, or with ENOSPC, and where marks are supported ENOSPC means that the blocks still good hold less than the image; without faults it fails exactly when the good blocks hold less than the image; blocks before the start are untouched; an image larger than the device is refused and nothing is touched |
| `Flash.WriteAll` | handlers/flash_handler.c:394-525 | the fragments of an image, handed over one by one, are all received and all programmed, or the good blocks are too few, or the device answered an error that the code does not survive, which is then the result |
| `Flash.FlashWriter.FlashWrite` | handlers/flash_handler.c:447-525 | terminates by blocks and pages left; takes all input; keeps less than a page unless the image is complete, then nothing; ENOSPC only when the blocks kept cannot hold the data; any other failure is the first error the device answered that the code does not survive |
| `Flash.FlashWriter.WriteStep` | handlers/flash_handler.c:447-519 | one turn of the loop keeps flash plus buffer equal to what was received, and moves on to a later page or block, waits with all input taken, or stops with the error the device answered |
| `Flash.FlashWriter.StoreStep` | handlers/flash_handler.c:465-519 | opens a block if needed and programs the pages ready, or gives the block up; fails exactly on an error that the code does not survive |
| `Flash.FlashWriter.OpenBlock` | handlers/flash_handler.c:465-470 | afterwards a good block holds the pages programmed so far, or there is none left |
| `Flash.FlashWriter.WritePages` | handlers/flash_handler.c:479-518 | progress in the block or a later block, with everything received still stored or buffered; an I/O error of the write is survived |
| `Flash.FlashWriter.TryPages` | handlers/flash_handler.c:474-491 | blocks before the current one, and the marks, stay; on success the block holds more pages of the buffer; otherwise it says what the device answered |
| `Flash.FlashWriter.ProgramPages` | handlers/flash_handler.c:479-491 | the next pages of the buffer are in the block |
| `Flash.ProgramBlock` | handlers/flash_handler.c:479-491 | pages are programmed only where blank and not programmed since the erase; empty pages are skipped without an operation on the device and read the same |
| `Flash.PagesEmpty` | handlers/flash_handler.c:479-485 | true exactly if data and OOB bytes are all empty |
| `Flash.BufferCheckPattern` | handlers/flash_handler.c:65-87 | comparing a buffer with itself shifted by one decides whether it holds one value only |
| `Flash.FlashWriter.Advance` | handlers/flash_handler.c:511-518 | offset and page count move together; a full block is left |
| `Flash.FlashWriter.FinishBlock` | handlers/flash_handler.c:514-518 | the buffer of a full block is now part of what is stored |
| `Flash.FlashWriter.RetireBlock` | handlers/flash_handler.c:492-509 | the failed block is given up and the buffer is to be written again from its first page; fails exactly if erasing fails with something else than an I/O error, or marking fails |
| `Flash.FlashWriter.EraseOrMark` | handlers/flash_handler.c:496-504 | only the current block changes; the block is erased exactly if the device erases it; on success it is marked bad if marks are supported; an I/O error of the erase is survived |
| `Flash.FlashWriter.GiveUp` | handlers/flash_handler.c:365-375 | skipping a block keeps what is stored and buffered |
| `Flash.FlashWriter.PrepareNewEraseBlock` | handlers/flash_handler.c:365-375 | the block found is good and blank; ENOSPC only at the end of the device |
| `Flash.FlashWriter.TryBlock` | handlers/flash_handler.c:365-375 | one candidate block is opened, given up, or an error |
| `Flash.FlashWriter.ProcessNewEraseBlock` | handlers/flash_handler.c:270-357 | bad-block check, unlocking, emptiness check and erase leave a blank block of which the driver said that it is not locked, or which it unlocked, if it can, or say that it is bad, or fail with the error the device answered; a NOR block that is blank is left alone |
| `Flash.FlashWriter.CheckBadBlock` | handlers/flash_handler.c:274-289 | the block is skipped exactly if the driver is asked and says that it is bad; a driver without marks is asked once |
| `Flash.FlashWriter.EraseUnlessEmpty` | handlers/flash_handler.c:326-356 | the block is blank afterwards, or marked bad, or the error is reported; a NOR block that is blank is left alone |
| `Flash.FlashWriter.UnlockIfNeeded` | handlers/flash_handler.c:291-324 | unlocking changes no block; fails exactly on an error other than a missing operation; the two flags afterwards: operations the driver lacks are not asked for again |
| `Flash.FlashWriter.AskLocked` | handlers/flash_handler.c:291-309 | the driver's answer, if it is asked; a driver that cannot say is taken to need unlocking and not asked again |
| `Flash.FlashWriter.EraseOrRetire` | handlers/flash_handler.c:344-356 | the block is blank exactly if the device erases it, and marked bad after an I/O error; any other error is reported |
| `Flash.FlashWriter.MarkBadBlock` | handlers/flash_handler.c:160-176 | only the mark of the current block changes, exactly if the driver marks it; its pages stay; a driver without marks is no error |
| `Flash.AlreadyEmpty` | handlers/flash_handler.c:332-342 | a NOR block that could be read is taken for empty exactly if it is blank |
| `Flash.FlashWriter.ReadData` | handlers/flash_handler.c:194-261 | input not taken stays; the bytes to write are whole pages, one on NAND; with nothing to write all input has been taken |
| `Flash.FlashWriter.Load` | handlers/flash_handler.c:209-232 | bytes received plus rest equal those before plus the input; a complete image is padded to a page |
| `Flash.FlashWriter.Intake` | handlers/flash_handler.c:209-232 | what the buffer holds after reading and padding |
| `Flash.FlashWriter.TakeInput` | handlers/flash_handler.c:209-219 | the buffer grows by what was taken; the rest is left only if it is full |
| `Flash.FlashWriter.PadBuffer` | handlers/flash_handler.c:221-232 | rounding up fills the last page with empty bytes |
| `Flash.PagesReady` | handlers/flash_handler.c:234-256 | number of whole pages that can be programmed |
| `Flash.FlashWriter.NextBytes` | handlers/flash_handler.c:258-260 | data and OOB bytes of the next pages, as they lie in the buffer |
| `Flash.FlashWriter.HasPendingData` | handlers/flash_handler.c:377-383 | whether bytes beyond the programmed pages are buffered |
| `Flash.ExceedsDevice` | handlers/flash_handler.c:579-588 | the size check refuses exactly the images that the blocks, bad ones included, cannot hold |
| `Flash.SplitPagesJoin` | handlers/flash_handler.c:474-491 | splitting bytes into data and OOB per page loses nothing |
| `FlashSpec.ReadBack` | handlers/flash_handler.c:394-525 | once nothing is pending a reader that skips the given up blocks gets everything received |
| `FlashSpec.StoredNext` | handlers/flash_handler.c:514-518 | the invariant over a completed block |
| `FlashSpec.StoredSkip` | handlers/flash_handler.c:365-375 | the invariant over a skipped block |
| `FlashSpec.StoredMore` | handlers/flash_handler.c:209-232 | the invariant over new input and padding |
| `FlashSpec.HoldsProgrammed` | handlers/flash_handler.c:486-491 | programming extends the part of the buffer a block holds |
| `FlashSpec.HoldsUnprogrammed` | handlers/flash_handler.c:483-485 | leaving out empty pages does so too |
| `FlashSpec.OutOfBlocks` | handlers/flash_handler.c:454-455 | at the end of the device the blocks kept are too few for what was received |
| `FlashErase.EraseSector` | corelib/mtd-interface.c:31-147 | the byte range becomes a block range in 32-bit arithmetic, size zero meaning the whole device; the blocks visited read blank afterwards, but for those skipped, which are marked bad, and those that stayed locked, of which there are none unless unlocking fails; it succeeds whatever unlocking does, if the blocks can be erased; the end moves by one for each block skipped, so with bad-block marks exactly min(requested, good blocks left) good blocks are visited |
| `FlashErase.EraseBlocks` | corelib/mtd-interface.c:76-139 | the loop over a moving end ends inside the device, with success if the blocks can be erased; which blocks are blank, skipped or stayed locked |
| `FlashErase.EraseOne` | corelib/mtd-interface.c:97-138 | a block is skipped exactly if the driver says it is bad; otherwise it is blank afterwards, or could not be unlocked and is as before, or the call fails, which it does not if blocks can be erased; it stays locked exactly if the driver calls it locked and fails to unlock it; a blank NOR block is left alone |
| `FlashErase.BlockRange` | corelib/mtd-interface.c:49-58 | first and last block, by division of 32-bit numbers, cover the range exactly if it ends below 4 GiB |
| `FlashErase.EndCanMove` | corelib/mtd-interface.c:83-84 | the 32-bit comparison holds exactly below the end of the device, or everywhere on a device of 4 GiB and more |
| `FlashErase.VisitedGood` | corelib/mtd-interface.c:76-95 | when the end is reached as many good blocks were visited as requested, or all |
| `Multipart.Parser.Execute` | corelib/multipart_parser.c:114-321 | with granted callbacks the notifications and the state are those of the pure reading `Run`, which is the one of the grammar (`MultipartGrammar.RunMeans`); with a refused one it stops short, has told nothing that was not due and can still go on |
| `Multipart.Parser.Resume` | corelib/multipart_parser.c:79-97 | a parser that goes on in a state reached before |
| `Multipart.Parser.TakeTurn` | corelib/multipart_parser.c:122-318 | one turn of the loop, including turns that look at the byte again, matches the specification; the state's rank falls on such turns |
| `Multipart.Parser.TakeOther` | corelib/multipart_parser.c:125-311 | the same for the states outside part data |
| `Multipart.Parser.TurnStart` | corelib/multipart_parser.c:126-153 | first boundary |
| `Multipart.Parser.TurnField` | corelib/multipart_parser.c:155-187 | header names |
| `Multipart.Parser.TurnValue` | corelib/multipart_parser.c:189-227 | header values and ends of lines |
| `Multipart.Parser.TurnDataStart` | corelib/multipart_parser.c:229-248 | end of headers and first data byte |
| `Multipart.Parser.TurnInData` | corelib/multipart_parser.c:236-248 | part data, flushed when a delimiter may start |
| `Multipart.Parser.TurnDelimiter` | corelib/multipart_parser.c:250-277 | a delimiter that continues, is complete, or was none: then the withheld bytes are delivered and the byte is looked at again |
| `Multipart.Parser.TurnTail` | corelib/multipart_parser.c:279-311 | behind a delimiter: next part or end of the body |
| `Multipart.Parser.Release` | corelib/multipart_parser.c:258-270 | delivers what the lookbehind buffer holds |
| `MultipartSpec.NextValid` | corelib/multipart_parser.c:114-321 | every accepted byte leads to a state whose index is in range |
| `MultipartSpec.RunAppend` | corelib/multipart_parser.c:114-321 | reading two stretches is reading one after the other |
| `MultipartProps.FragmentsJoin` | corelib/multipart_parser.c:114-321 | any fragmentation gives the same part data between the same notifications as one call |
| `MultipartProps.Feed` | corelib/multipart_parser.c:114-321 | the same for the parser object fed with fragments |
| `MultipartProps.HeedlessIff` | handlers/delta_handler.c:731-746 | a caller that ignores results gets the same for every cut exactly if, once a byte is refused, all that follow are refused in the state reached |
| `MultipartProps.CutMatters` | handlers/delta_handler.c:731-746 | a cut right before a byte that would be accepted leaves fewer bytes unread |
| `MultipartProps.HeedlessOnMalformed` | handlers/delta_handler.c:731-746 | a malformed body whose reading depends on how it is cut |
| `MultipartProps.RunFollowsGrammar` | corelib/multipart_parser.c:114-321 | notifications follow begin, headers complete, data, end, per part, for every input |
| `MultipartProps.PartDataExact` | corelib/multipart_parser.c:229-277 | for a boundary without CR the data of a part is exactly what precedes the first CRLF and boundary |
| `MultipartProps.SearchRun` | corelib/multipart_parser.c:229-277 | what is withheld is the longest tail that could start a delimiter; all before it was delivered |
| `MultipartProps.SearchFound` | corelib/multipart_parser.c:263-277 | a complete delimiter is recognised at its last byte |
| `MultipartProps.SearchStep` | corelib/multipart_parser.c:229-277 | restarting the match at the mismatching byte misses nothing |
| `MultipartBody.BodyRoundTrip` | corelib/multipart_parser.c:114-321 | a body with any headers and clean part data is read back part by part |
| `MultipartBody.ParseBody` | corelib/multipart_parser.c:79-321 | the parser object reports the parts of an encoded body, however it is cut |
| `MultipartGrammar.RunMeans` | corelib/multipart_parser.c:114-321 | for every input and every boundary without CR the byte-wise state machine reports what a reader by recursive descent reports, which follows the grammar of the body with its bytes written out, and stops at the same place |
| `MultipartGrammar.ReadFragments` | corelib/multipart_parser.c:114-321 | so does the parser object, however the body is cut |
| `Delta.DeltaHandler.InstallDelta` | handlers/delta_handler.c:1101-1116 | on success the output is the target if no copy from the source fails after having written something, and otherwise as long as the target plus what leaked, and none of the answers taken was an error; it succeeds, in exactly the state the answers lead to, if every request is served; it fails if one is answered with a wrong chunk, or not at all |
| `Delta.DeltaHandler.CopyNetworkChunks` | handlers/delta_handler.c:755-822 | the download state machine ends; success means that the transfer was reported complete and no answer before was an error; if the request is answered with a body that is accepted and fits the chunks left, it succeeds exactly if every chunk is right, with exactly the handler state that the body stands for |
| `Delta.DeltaHandler.NetworkStep` | handlers/delta_handler.c:761-819 | one turn makes progress, and moves such a download from one phase to the next unless an error is noted; without one it succeeds; an error answer leads to the error state, a completed transfer to the end |
| `Delta.DeltaHandler.ChunkStep` | handlers/delta_handler.c:1105-1115 | one turn of the main loop takes the chunks from where the flag says, moves on, and works if it is served |
| `Delta.DeltaHandler.SourceStep` | handlers/delta_handler.c:828-879 | a copy from the source is the pure copy and passes at least one chunk |
| `Delta.DeltaHandler.RequestStep` | handlers/delta_handler.c:763-792 | states before the data; an answer that is an error is noticed |
| `Delta.DeltaHandler.DataStep` | handlers/delta_handler.c:793-810 | states that feed data to the parser; an answer that is an error is noticed, and only a completed transfer ends it |
| `Delta.DeltaHandler.EndStep` | handlers/delta_handler.c:811-817 | the end of a download: success exactly without error |
| `Delta.DeltaHandler.FillBuffersList` | handlers/delta_handler.c:731-746 | a packet goes through the parser or straight to the chunks, as the pure handler says |
| `Delta.DeltaHandler.ExecuteParser` | handlers/delta_handler.c:743 | the packet goes through a parser that asks the handler at each callback; without an error the handler is where the whole packet puts it and the parser at its end; with an error it stops where the callback was refused |
| `Delta.ParsePacket` | handlers/delta_handler.c:743 | the parser object with the answers of the handler: it notifies a part of what is due, and all of it unless an error shows |
| `Delta.RefusedShows` | handlers/delta_handler.c:132-249 | a refused callback leaves an error behind, whatever notifications follow |
| `Delta.OnEvent` | handlers/delta_handler.c:132-249 | a callback with several bytes does what its bytes do one by one |
| `Delta.DeltaHandler.NetworkProcessData` | handlers/delta_handler.c:132-209 | bytes fill the current chunk; full chunks are checked and written, empty ones passed; equals the byte-wise handler for every cut |
| `Delta.DeltaHandler.CopyChunk` | handlers/delta_handler.c:153-206 | a chunk is written, and the handler moves on, only if its digest is right |
| `Delta.DeltaHandler.MultipartDataComplete` | handlers/delta_handler.c:215-233 | readies a buffer for the current chunk, if there is one |
| `Delta.DeltaHandler.MultipartDataEnd` | handlers/delta_handler.c:241-249 | copies what follows from the source and ignores whether that worked |
| `Delta.DeltaHandler.CopyExistingChunks` | handlers/delta_handler.c:828-879 | chunks flagged valid are copied from the source up to the next missing one |
| `Delta.DeltaHandler.Callbacks` | handlers/delta_handler.c:132-249 | the callbacks of one call act as the pure handler, exactly, errors included; once failed always failed |
| `Delta.DeltaHandler.SetUpParser` | handlers/delta_handler.c:701-729 | the boundary is found in the first packet or the download is abandoned |
| `Delta.SearchBoundary` | handlers/delta_handler.c:701-729 | the first place of the boundary, ignoring case |
| `Delta.DeltaHandler.ReadPackage` | handlers/delta_handler.c:598-645 | one answer is taken at a time |
| `DeltaSpec.OnTokensKeep` | handlers/delta_handler.c:132-249 | every run of notifications keeps: what is written is the chunks passed, in order, each once, plus leaked bytes |
| `DeltaSpec.OnTokenKeeps` | handlers/delta_handler.c:132-249 | the same for one notification |
| `DeltaSpec.CopyExistingKeeps` | handlers/delta_handler.c:828-879 | the same for copies from the source |
| `DeltaSpec.WholeToken` | handlers/delta_handler.c:241-249 | from a source on which no copy fails half way nothing leaks |
| `DeltaLeak.UnnoticedFailure` | handlers/delta_handler.c:241-249 | installation of an image with given answers: every step reports success and the output has a byte too many |
| `DeltaLeak.InstallSpoiled` | handlers/delta_handler.c:1101-1116 | for every source on which some copy fails half way there are a sound image and answers with which installation succeeds and the output is not the target |
| `DeltaLeak.HarmlessIff` | handlers/delta_handler.c:828-879 | exactly the other sources give the right image in every update that is served |
| `DeltaLeak.RetryLeaks` | handlers/delta_handler.c:241-249 | parts without data repeat the failing copy until one that fails half way, and then the rest of the image arrives |
| `DeltaLeak.EndingKeeps` | handlers/delta_handler.c:1101-1116 | from a source on which no copy fails half way, served requests end in the target |
| `DeltaProps.InstallFromServer` | handlers/delta_handler.c:1101-1116 | with a readable source and a server that answers every request with the bytes of the file asked for, as one range or in parts, in any packets, installation succeeds and the image is the target, if every range asked for ends with a chunk that has bytes |
| `DeltaProps.ServerExists` | handlers/delta_handler.c:755-822 | what is assumed of image, file and server can be met, with something to download |
| `DeltaProps.HonestServed` | handlers/delta_handler.c:755-822 | such a server serves every request until the last chunk |
| `DeltaProps.DeliveryArrives` | handlers/delta_handler.c:132-249 | one such answer is accepted, and everything up to the first chunk of the next request is written |
| `DeltaProps.PartsArrive` | handlers/delta_handler.c:132-249 | the same for the notifications of the parts |
| `DeltaProps.RangeArrives` | handlers/delta_handler.c:132-209 | the bytes of a range complete its chunks, also across chunks without bytes |
| `DeltaProps.FileSlice` | handlers/zchunk_range.c:79-80 | the bytes of the file at a range are the compressed bytes of its chunks |
| `DeltaProps.RunsStart` | handlers/zchunk_range.c:161-181 | a request starts with the current chunk; its runs are in order, with bytes from the source between them, and move on |
| `DeltaGap.DeliveryIff` | handlers/delta_handler.c:132-249 | the bytes asked for are accepted and bring the handler to the first chunk of the next request exactly if every range asked for ends with a chunk that has bytes, for every limit |
| `DeltaGap.HonestIff` | handlers/delta_handler.c:755-822 | so all answers of such a server do exactly if this holds of every request |
| `DeltaGap.AskableIff` | handlers/zchunk_range.c:161-181 | if the first request asks for everything this is: every chunk to download without bytes leads on, over chunks without bytes, to one with bytes |
| `DeltaGap.OneAnswerIff` | handlers/delta_handler.c:755-822 | one answer to such a request serves the whole update exactly then |
| `DeltaGap.InstallAtOnce` | handlers/delta_handler.c:1101-1116 | with the bytes such a request asks for as the only answer, installation succeeds exactly then, and the image is the target |
| `DeltaGap.GapFails` | handlers/delta_handler.c:1101-1116 | a sound image with such a chunk before one from the source: the server sends the bytes asked for and installation fails |
| `DeltaGap.AnswerFalls` | handlers/delta_handler.c:132-249 | otherwise a chunk is wrong or the handler stays before the end of the last range |
| `DeltaGap.PartsBehind` | handlers/delta_handler.c:132-249 | a handler that is behind stays behind over all later ranges |
| `DeltaGap.OnBytesTaken` | handlers/delta_handler.c:132-209 | bytes taken are in the chunks passed or in the buffer, unless a chunk is wrong |
| `DeltaGap.AnswerFits` | handlers/delta_handler.c:132-249 | the bytes asked for never exceed the chunks left, right or wrong |
| `DeltaRequest.MissingRange` | handlers/zchunk_range.c:161-181 | for every image and limit: the ranges are those of the runs of chunks to download up to the first chunk with which the count reaches the limit; they do not touch and cover exactly the bytes of these chunks |
| `DeltaRequest.JoinedIff` | handlers/zchunk_range.c:96-101 | the code does not count a chunk exactly if it is right behind downloaded bytes |
| `DeltaRequest.RunsSpan` | handlers/zchunk_range.c:161-181 | the runs start with the first chunk to download, leave none out, and have bytes from the source between them |
| `DeltaRequest.LimitEarly` | handlers/zchunk_range.c:96-101 | two ranges are missing and two are allowed, but one is asked for |
| `DeltaRequest.CollectNext` | handlers/zchunk_range.c:170-179 | a chunk to download extends the last range or is another one, and the count rises unless the chunk is right behind downloaded bytes |
| `DeltaRequest.AddNext` | handlers/zchunk_range.c:73-113 | chunks that follow each other in the file make one range, others another one |
| `Ranges.RangeList.Add` | handlers/zchunk_range.c:73-113 | the list stays sorted without touching ranges and covers the old and the new bytes, no others; when the count is off |
| `Ranges.RangeList.Insert` | handlers/zchunk_range.c:81-111 | a range is put in its place |
| `Ranges.RangeList.MergeCombined` | handlers/zchunk_range.c:56-71 | one pass merges as the pure definition does |
| `Ranges.MergedNormal` | handlers/zchunk_range.c:56-71 | after merging no two ranges overlap or touch |
| `Ranges.MergedCovers` | handlers/zchunk_range.c:56-71 | merging covers the same bytes |
| `Ranges.PlacedCovers` | handlers/zchunk_range.c:81-111 | insertion adds the new bytes and keeps the others |
| `Ranges.PlacedSorted` | handlers/zchunk_range.c:81-111 | insertion keeps the order |
| `Ranges.MergedLast` | handlers/zchunk_range.c:56-71 | a range behind all others is joined with the last one exactly if they touch |
| `DeltaSession.PhaseAsked` | handlers/delta_handler.c:763-792 | asking, header lines and waiting for data keep the download in step with the answer |
| `DeltaSession.PhasePassed` | handlers/delta_handler.c:793-810 | so does passing a packet on, or an error is noted |
| `DeltaSession.FedNext` | handlers/delta_handler.c:731-746 | packet by packet, parser and handler are where the whole body up to there puts them |
| `DeltaSession.SingleNext` | handlers/delta_handler.c:731-746 | the same for a single range, which does without the parser |
| `DeltaSession.NeverFails` | handlers/delta_handler.c:731-746 | if the whole body is fine, no packet of it fails; if it fits, no packet overruns |
| `DeltaSession.Sticky` | handlers/delta_handler.c:132-249 | an error stays, and so does an overrun, whatever notifications follow |
| `Hamming.NandCalculateEcc` | handlers/flash_hamming1_handler.c:94-131 | the odd half is the exclusive or of the positions of all set bits, the even half that of their complements; both fit sixteen bits |
| `Hamming.CalcRowParityBits` | handlers/flash_hamming1_handler.c:74-88 | the chunked loop gives the parity of the rows whose number has a given bit |
| `Hamming.CalcBitwiseParity` | handlers/flash_hamming1_handler.c:58-72 | the parity of the masked byte |
| `Hamming.LowHalf` | handlers/flash_hamming1_handler.c:108-114 | the three lowest bits of each half |
| `Hamming.XorBytes` | handlers/flash_hamming1_handler.c:105-106 | the exclusive or of all bytes |
| `Hamming.ByteParities` | handlers/flash_hamming1_handler.c:116-117 | the parity of each byte |
| `Hamming.Log2OfPow2` | handlers/flash_hamming1_handler.c:50-54 | the logarithm macro is exact for powers of two |
| `Hamming.Log2IsLog` | handlers/flash_hamming1_handler.c:50-54 | and rounds down for every other 32-bit number |
| `HammingProps.CodeLinear` | handlers/flash_hamming1_handler.c:94-131 | the code of a sum of sectors is the sum of the codes |
| `HammingProps.SingleError` | handlers/flash_hamming1_handler.c:94-131 | flipping bit b of byte i changes the odd half by 8 * i + b and the even half by its complement |
| `HammingProps.DoubleError` | handlers/flash_hamming1_handler.c:94-131 | two flips change both halves by the same, which is not zero |
| `HammingProps.FlipBits` | handlers/flash_hamming1_handler.c:94-131 | a flip changes one bit and no other |
| `HammingProps.ReadOneWrong` | handlers/flash_hamming1_handler.c:94-131 | comparing codes locates one wrong bit; flipping it back restores the sector |
| `HammingProps.ReadTwoWrong` | handlers/flash_hamming1_handler.c:94-131 | two wrong bits are never taken for none or one |
| `HammingProps.ReadClean` | handlers/flash_hamming1_handler.c:94-131 | an intact sector is found intact |
| `EccSector.Store` | handlers/flash_hamming1_handler.c:151-164 | the three bytes kept are the packed halves of the code |
| `EccSector.PackedTwelve` | handlers/flash_hamming1_handler.c:161-163 | halves of twelve bits can be unpacked again |
| `EccSector.LosslessIff` | handlers/flash_hamming1_handler.c:151-164 | the code can be recovered for every sector exactly up to 512 bytes |
| `Streams.FillBuffer` | core/cpio_utils.c:68-103 | over short and interrupted reads the buffer is filled, or holds all there was; offset, 32-bit checksum and hash follow exactly the bytes taken |
| `Streams.AddBytes` | core/cpio_utils.c:88-90 | the running checksum is the sum modulo 2^32 |
| `Pipeline.Input.Step` | core/cpio_utils.c:250-276 | pulls the next bytes, no more than announced; short only at the end; everything pulled is hashed and, from a descriptor, summed once |
| `Pipeline.Input.FillFromDescriptor` | core/cpio_utils.c:257-274 | the same from a descriptor |
| `Pipeline.Input.CopyFromMemory` | core/cpio_utils.c:264-274 | the same from memory; this source has no checksum |
| `Pipeline.DecryptStep` | core/cpio_utils.c:290-345 | bytes handed on plus pending ones are what the updates gave; zero only after the final call or a silent update; work left decreases |
| `Pipeline.Refill` | core/cpio_utils.c:306-332 | one buffer is decrypted, or the decryption is finalised once the input is at its end |
| `Pipeline.Decryption.Serve` | core/cpio_utils.c:334-342 | pending output is handed on in order and moved down |
| `Pipeline.Decryption.Absorb` | core/cpio_utils.c:313-317 | an update extends the history by one piece; "again" gives nothing |
| `Pipeline.Decryption.Finish` | core/cpio_utils.c:318-328 | the final output becomes pending |
| `Pipeline.Decryption.Take` | core/cpio_utils.c:311-332 | an empty buffer finalises, any other is decrypted |
| `Pipeline.GunzipStep` | core/cpio_utils.c:366-402 | gives the next bytes the decompressor makes of what it consumed; zero only at the end of the stream or of the input; terminates for every pace |
| `Pipeline.Turn` | core/cpio_utils.c:375-400 | one turn of that loop |
| `Pipeline.Supply` | core/cpio_utils.c:376-388 | input is pulled only when none is left |
| `Pipeline.Decompression.Inflate` | core/cpio_utils.c:390-399 | one call consumes and gives within the decompressor's contract and gets somewhere |
| `Pipeline.UpstreamStep` | core/cpio_utils.c:807-815 | the decompressor pulls from the decryption or from the input |
| `Copyfile.Step` | core/cpio_utils.c:807-827 | the step at the end of the chosen pipeline |
| `Copyfile.Drain` | core/cpio_utils.c:826-857 | the callback gets every byte once and in order; "again" repeats the step; a call of the callback that fails is the last one and makes the copy fail |
| `Copyfile.Copy` | core/cpio_utils.c:596-906 | after success the pipeline is drained, no call of the callback failed, the hash matches what was pulled, the checksum covers what was pulled and not the padding, and the descriptor stands behind the padding |
| `Copyfile.SkipPadding` | core/cpio_utils.c:864-869 | the descriptor moves to the next multiple of four |
| `PipelineProps.CopyImage` | core/cpio_utils.c:908-927 | for every pattern of short reads and every pace the callback gets the decrypted, decompressed image and nothing else; if the image uses up the input, hash and checksum are those of the whole input, decrypted and compressed or not, and the descriptor stands behind the padding; it succeeds only if the callback did each time, and does without faults |
| `PipelineProps.CopyFrom` | core/cpio_utils.c:596-906 | the same for an input of either kind |
| `PipelineProps.CopyBuffer` | handlers/delta_handler.c:153-190 | the same from memory, where there is neither padding nor checksum |
| `PipelineProps.Delivered` | core/cpio_utils.c:807-857 | what a finished run has delivered |
| `PipelineProps.NoFault` | core/cpio_utils.c:807-857 | intact data and a reliable descriptor cause no error |
| `PipelineProps.SilenceStops` | core/cpio_utils.c:334-344 | the first silent update is the last one made |
| `PipelineProps.OneHistory` | core/cpio_utils.c:306-317 | the pieces the cipher gets do not depend on how reads are cut |
| `PipelineProps.HeldBackDelivers` | crypto/swupdate_decrypt_pkcs11_p11kit.c:190-275 | in the pipeline the token's decryption delivers the unpadded text exactly unless the ciphertext is one block that holds text |
| `PipelineProps.HeldSilent` | crypto/swupdate_decrypt_pkcs11_p11kit.c:201-227 | only a ciphertext of one block makes an update silent |
| `PipelineProps.HeldDecrypts` | crypto/swupdate_decrypt_pkcs11_p11kit.c:190-275 | for the pieces of the pipeline the updates and the final call give the unpadded text |
| `PipelineProps.HeldLate` | crypto/swupdate_decrypt_pkcs11_p11kit.c:190-275 | the end of the text is held back until all of the input was taken |
| `Pkcs11.Context.Update` | crypto/swupdate_decrypt_pkcs11_p11kit.c:190-228 | gives the block held back and all new blocks but the last; pieces below a block are refused |
| `Pkcs11.Context.Final` | crypto/swupdate_decrypt_pkcs11_p11kit.c:230-275 | gives the last block without padding, with the code's errors otherwise, and an error if there was no update |
| `Pkcs11.RemovePadding` | crypto/swupdate_decrypt_pkcs11_p11kit.c:253-274 | the padding loop accepts exactly correct padding |
| `Pkcs11.DecryptPieces` | crypto/swupdate_decrypt_pkcs11_p11kit.c:190-275 | for every split into pieces of at least a block, success exactly if the text is padded as section 6.3 of RFC 5652 says, and the result is the text without padding |
| `Pkcs11.OutsShown` | crypto/swupdate_decrypt_pkcs11_p11kit.c:201-227 | the updates together give everything but the last block |
| `Pkcs11.Whole` | crypto/swupdate_decrypt_pkcs11_p11kit.c:230-275 | with the final call they give the unpadded text, and malformed padding is rejected |
| `Cbc.UnpadPad` | crypto/swupdate_decrypt_pkcs11_p11kit.c:253-274 | removing the padding undoes adding it |
| `Cbc.PadUnpad` | crypto/swupdate_decrypt_pkcs11_p11kit.c:253-274 | nothing else passes as padded |
| `Cbc.PlaintextPrefix` | crypto/swupdate_decrypt_pkcs11_p11kit.c:212-221 | more ciphertext only adds plaintext |
| `Hex.FromAscii` | core/util.c:496-540 | blanks are skipped, digits up to the end of the field or a NUL count, another character stops the reading one place on; a field of digits `0`-`9`, `a`-`f`, `A`-`F` reads as its value in base sixteen modulo 2^64, up to sixteen digits as its value |
| `Hex.ReadDigits` | core/util.c:513-539 | the loop over the digits |
| `Hex.SkipBlanks` | core/util.c:505-512 | the loop over the blanks |
| `Hex.PrintSpells` | core/util.c:496-540 | a printed number reads as itself |
| `Cpio.GetCpioHdr` | core/cpio_utils.c:45-66 | success exactly for the two magic numbers; size, name size and checksum are read from their fields |
| `Cpio.ExtractCpioHeader` | core/cpio_utils.c:929-956 | from the start of a well formed entry at an offset divisible by four it gets what was written and stops at the data, again at such an offset; where a failing read left padding in front of the header it fails |
| `Cpio.ReadHeader` | core/cpio_utils.c:931-944 | the fixed part; names of 256 bytes and more are refused |
| `Cpio.ReadName` | core/cpio_utils.c:946-949 | the name up to its NUL; it never runs beyond the size given |
| `Cpio.NoHeader` | core/cpio_utils.c:45-66 | a header read up to three bytes off, where padding could not be skipped, is never taken for one |
| `CpioSpec.MakeEntryOk` | core/cpio_utils.c:45-66 | printed headers are well formed whatever the other fields hold |
| `CpioSpec.OkMeans` | core/cpio_utils.c:45-66 | an entry that is well formed, said in plain bytes, has the magic number, name length and paddings the code goes by |
| `ExtractFiles.Extract` | core/stream_interface.c:180-388 | from a well formed archive, whatever reads fail, success means that description and signature pass, that every entry with a checksum has the sum of its bytes modulo 2^32 there, and that exactly the wanted files came out with their names and data, in order; if no read fails, these conditions mean success |
| `ExtractFiles.ExtractImages` | core/stream_interface.c:241-361 | the same for the data part, across the reset of the offset at each entry |
| `ExtractFiles.TakeEntry` | core/stream_interface.c:241-361 | one entry is kept, skipped or installed; the next header is read at the start of the next entry, or an error is noticed |
| `ExtractFiles.ExtractFileToTmp` | core/stream_interface.c:87-161 | success only if name, size, validity and checksum pass, and always then unless a read fails; then the data is what was written |
| `ExtractFiles.TakeData` | core/stream_interface.c:278-321 | data and padding are consumed, the data copied or skipped; a padding that cannot be read is left, with the offset moved |
| `ExtractFiles.IntactIs` | core/cpio_utils.c:978-987 | the comparison of the code passes exactly if the checksum of the entry is the sum of its bytes modulo 2^32, or the format has none |
| `SaveStream.Save` | core/stream_interface.c:433-594 | after success the saved file is the whole stream, whatever it holds; a well formed archive whose entry sizes do not wrap is saved, if nothing gets in the way, exactly if description and signature pass and the description is accepted, and the cached entries are just those extracted |
| `SaveStream.CacheEntry` | core/stream_interface.c:480-527 | everything read goes to the cache; a well formed entry below the size limit is cached, and whole |
| `SaveStream.Inspect` | core/stream_interface.c:528-552 | passes exactly the entries that extraction accepts, and uses up all of the cache |
| `SaveStream.Emit` | core/stream_interface.c:558-580 | the cache, then the rest of the stream |
| `SaveStream.CpFiles` | core/stream_interface.c:390-429 | copies up to a limit or, with none, to the end, and keeps every byte |
| `SaveStream.RemainingIs` | core/stream_interface.c:503-506 | the 32-bit size of the rest of an entry is right for entries below 4 GiB, and never zero |
| `Semver.ComparePrerelease` | core/semver.c:208-256 | the walk along both strings is the lexicographic comparison of the identifier lists, for all strings; absent is above present |
| `Semver.Walk` | core/semver.c:217-253 | the loop |
| `Semver.CompareHere` | core/semver.c:228-246 | identifiers compared where they lie: numbers below others, numbers by value, others by bytes |
| `Semver.CompareOrder` | core/semver.c:258-305 | versions are totally preordered; metadata does not count |
| `Semver.CompareListsOrder` | core/semver.c:208-256 | so are identifier lists |
| `Semver.CompareIdsOrder` | core/semver.c:228-246 | so are identifiers |
| `Strings.StrtolIs` | core/semver.c:181-190 | strtol as the code uses it: blanks and a sign are skipped, the digits give the number, or the largest or least that 64 bits hold, and the end is the place behind them |
| `Strings.CompareBytes` | core/semver.c:239-246 | strncmp over the common length, then the lengths, is the byte order |
| `Strings.StrtolStops` | core/semver.c:228-231 | a number does not reach past a dot |
| `SemverProps.ListsAgree` | core/semver.c:208-256 | on regular identifiers the comparison is that of section 11 of Semantic Versioning 2.0.0 |
| `SemverProps.VersionsAgree` | core/semver.c:258-305 | two versions with regular prereleases compare as section 11 of Semantic Versioning 2.0.0 says: major, minor, patch, then prerelease |
| `SemverProps.RegularIff` | core/semver.c:228-246 | exactly the regular identifiers compare with all regular ones as the standard says |
| `SemverProps.MinusDisagrees` | core/semver.c:228-246 | a minus sign before digits always compares wrongly with some identifier |
| `SemverProps.LargeDisagrees` | core/semver.c:228-246 | so does a number above the largest int |
| `SemverText.SemverParse` | core/semver.c:142-160 | length and characters are checked, metadata and prerelease cut off, the rest read as numbers |
| `SemverText.ParseVersion` | core/semver.c:172-206 | up to four parts must be numbers or empty, three are kept, missing ones are zero |
| `SemverText.ReadSlice` | core/semver.c:181-190 | one part, where it lies |
| `SemverText.ParseSlice` | core/semver.c:109-131 | cuts at the first separator |
| `SemverText.IsValid` | core/semver.c:554-572 | at most 255 characters, all of them allowed |
| `SemverRoundTrip.RoundTrip` | core/semver.c:109-206 | all five components come back from the rendering exactly for versions with non-negative numbers, allowed characters, no plus sign in the prerelease and a rendering of at most 255 characters |
| `SemverRoundTrip.ParseRendered` | core/semver.c:503-529 | they come back from those |
| `SemverRoundTrip.OnlyRenderable` | core/semver.c:503-529 | and from no others |
| `StringSplit.Run` | core/util.c:627-672 | the tokens are the non-empty parts, and with the end mark they fit the array counted beforehand |
| `StringSplit.CountElements` | core/util.c:640-654 | the count: separators, a token behind the last one, the end mark |
| `StringSplit.TokensFit` | core/util.c:640-667 | there are never more tokens than that |
| `StringSplit.NextToken` | core/util.c:660-665 | strtok yields the next non-empty part |
| `Versions.VersionToNumber` | core/artifacts_versions.c:149-181 | the first four fields in sixteen bits each, without loss in 64 bits, or a field is too large |
| `Versions.IsNumberedVersion` | core/artifacts_versions.c:183-195 | exactly digits and dots with small fields are numbered |
| `Versions.PackOrder` | core/artifacts_versions.c:214-227 | packed numbers are ordered as the first four fields padded with zeros |
| `Versions.CompareTwo` | core/artifacts_versions.c:208-263 | old style if both are, semantic if both parse, text otherwise |
| `VersionText.NumbersOrder` | core/artifacts_versions.c:208-263 | of two texts of four numbers below 65536 joined by dots the one with the smaller number at the first difference is the lower version |
| `VersionText.RenderedOrder` | core/artifacts_versions.c:208-263 | of the texts of two semantic versions the one that comes first in the order of Semantic Versioning 2.0.0 is the lower version |
| `Versions.SameKindOrder` | core/artifacts_versions.c:208-263 | a total preorder within each kind |
| `VersionKinds.ConsistentIff` | core/artifacts_versions.c:208-263 | on all versions of a set of kinds the comparison is transitive exactly if these are one kind at most |
| `VersionKinds.NumberTextCycle` | core/artifacts_versions.c:208-263 | 10 is below 1x, 1x below 2, 2 below 10 |
| `VersionKinds.SemanticTextCycle` | core/artifacts_versions.c:208-263 | 10-a is below 1x, 1x below 2-a, 2-a below 10-a |
| `VersionKinds.NumberSemanticCycle` | core/artifacts_versions.c:208-263 | .2 is below 1-a, 1-a below 1, 1 below .2 |
| `Dict.Dictionary.SetValue` | core/swupdate_dict.c:140-152 | the map gets this one value for the key; its entry moves to the front |
| `Dict.Dictionary.InsertValue` | core/swupdate_dict.c:127-138 | the key gets one more value in front |
| `Dict.Dictionary.Remove` | core/swupdate_dict.c:154-162 | the map loses the key |
| `Dict.Dictionary.GetValue` | core/swupdate_dict.c:117-125 | the newest value of the key |
| `Dict.Dictionary.GetEntry` | core/swupdate_dict.c:71-81 | the entry of a key is found if there is one |
| `Dict.WithoutMap` | core/swupdate_dict.c:83-89 | removing an entry keeps keys unique and removes the key |
| `Grub.TakeTurn` | bootloader/grub.c:76-110 | one line of the block: comment, no variable, or key and value torn apart by NULs in place |
| `Grub.LineTurn` | bootloader/grub.c:89-109 | the line of a clean variable gives its key and value |
| `GrubEnv.Load` | bootloader/grub.c:75-110 | the variables of a written block are loaded, in reverse |
| `GrubEnv.Environment.Open` | bootloader/grub.c:13-117 | it succeeds exactly for 1024 bytes that start with the remark of the block; a written file opens and stands for the same map |
| `GrubEnv.Environment.Write` | bootloader/grub.c:183-262 | the file becomes the formatted block, or stays as it was if that is too long |
| `GrubEnv.MakeBlock` | bootloader/grub.c:190-236 | remark, a line per variable, number signs up to 1024 bytes; how far the buffer is written to: past its end exactly for a text of 1024 bytes |
| `GrubEnv.WriteLines` | bootloader/grub.c:211-228 | the buffer holds the remark and the lines, and a terminator behind them |
| `GrubEnv.UpdateSize` | bootloader/grub.c:166-181 | the size is that of the formatted text |
| `GrubEnv.Environment.Set` | bootloader/grub.c:274-294 | the map gets the variable and nothing else changes; without room the file stays |
| `GrubEnv.Environment.Unset` | bootloader/grub.c:296-315 | the map loses the variable and nothing else changes; what is left always fits, so it succeeds |
| `GrubEnv.Environment.Get` | bootloader/grub.c:317-336 | the value in the map, if any |
| `GrubEnv.Environment.ApplyList` | bootloader/grub.c:338-358 | applying a printed script gives the overridden map |
| `GrubEnv.ParseScript` | bootloader/grub.c:142-153 | each line with a value sets its variable |
| `GrubEnv.OverrideMeans` | bootloader/grub.c:142-153 | exactly the keys with a non-empty value change, each to that value |
| `GrubEnv.PrepareVarScript` | core/installer.c:173-201 | a line per variable, of which at most 1023 characters are kept; the lines of `Lines` if none is longer |
| `GrubSpec.ReverseMap` | bootloader/grub.c:71-110 | the list reversed stands for the same map |
| `GrubSpec.FormatIs` | bootloader/grub.c:205-240 | the block is 1024 characters long: the remark and its newline, the lines, and number signs |
| `ReadLines.LineReader.Notify` | core/util.c:1211-1269 | lines sent and the leftover make up the input without newlines and with NULs replaced; unless a full buffer held a single open line, the lines sent are exactly the complete non-empty lines; there is always room for the next read |
| `ReadLines.Divide` | core/util.c:1231-1259 | the lines to send and the line to keep are the tokens of the buffer; a line is kept unless the buffer ends in a line end or is full with a single line |
| `ReadLines.TokensStrip` | core/util.c:1240-1267 | the tokens make up the text without its line ends |
| `ReadLines.TokensAppend` | core/util.c:1240-1267 | a line end separates for good |
| `ReadLines.OpenLine` | core/util.c:1251-1256 | an open line is the last token |

## Left out

- Flash.WriteImage: is stated for start offsets on an erase block and devices that support erasing, and returns what the failing call reported, which `copyfile` maps to ENOSPC.
- FlashErase.EraseSector: is stated for devices below 4 GiB and for ranges inside the device.
- The output size of the image when it cannot be determined, and opening, mode setting and progress of the flash device.
- MultipartGrammar.RunMeans: is stated for boundaries that are not empty and hold no CR, as section 5.1.1 of RFC 2046 has it.
- Multipart.Parser.TurnField: the pieces of a header name that are reported are not specified: the delta handler does not use them, and how they are cut depends on the fragments.
- Multipart.Parser.TurnValue: nor are the pieces of a header value.
- HTTP headers and the packets of the download process: answers are an abstract sequence; a first packet must hold the whole boundary, as in the code.
- DeltaRequest.MissingRange: offsets are unbounded integers, and the list of ranges is a sequence; the text of the request and its transport are left out.
- DeltaProps.InstallFromServer: other images may install as well, if chunks happen to hold the same bytes.
- Data sent after the last chunk: the code then uses a chunk that does not exist; the model notes it and stops.
- Ciphers, hashes, zlib, xz, zstd and lz4: functions with contracts; of the decompression steps the one for zlib is modelled.
- `Pkcs11.Token`: sessions, keys and the initial vector that the code keeps for a restart.
- Encrypted descriptions and the hash option of archive entries: the pipeline is proved with both, the walk through the archive uses neither.
- ExtractFiles.ExtractImages: a stream that ends before the trailer leaves the header buffer unset in the code, which the model treats as an error.
- The check at the end of a stream that all required images were provided, and what handlers do with installed images.
- SaveStream.Save: temporary files, directories and the parsing of the description are an abstract verdict.
- `semver_satisfies`, `semver_numeric`, `semver_clean` and the bump helpers: easy beside what is modelled.
- Versions.CompareTwo: gives -1, 0 or 1 for text; the code returns what strcmp returns.
- GrubEnv.Environment.Write: a text of exactly 1024 bytes is treated as fitting, as in the code; what the byte written behind the buffer does is not modelled.
- GrubEnv.Load: lines without an equals sign are read as the code does, but nothing is stated about files not written by it.
- Sockets, threads, processes, mounts, other handlers and boot loaders.
