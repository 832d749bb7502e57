# What is verified here

This project models the hard parts of the VDO.Ninja plug-in and of its JavaScript SDK, and proves what they are for.

**The QR encoder** turns a share link into a symbol. The byte multiplication is proved to be carry-less multiplication
modulo 0x11D (`GfMultiply`, `CarrylessProduct`) and to make the bytes a field (`Gf256`). The two Reed-Solomon loops are
proved against polynomials over any field of characteristic 2 (`Fields`, `CyclicCodes`, `ReedSolomon`): a block is a
codeword exactly with the computed check bytes, and different blocks differ in more than `degree` places. Blocks are
interleaved and recovered (`Interleaving`, `ErrorCorrection`), bits are drawn along the zigzag and scanned again
(`Placement`, `QrSymbol`, `QrReading`), masks are tried, taken back and chosen (`Masking`, `QrSymbol`), and segments are
packed, padded and read back (`BitNumbers`, `BitStrings`, `Packing`, `Segments`, `Encoding`, `SegmentReading`).
The 15 format bits are computed, drawn and read again (`FormatWords`, `Masking`). What another reader relies on is
stated in numbers, without the functions that the encoder is proved against: the path (`Placement.ZigzagAt`), the
places of codewords (`ErrorCorrection.DataCodewordAt`), the masks as pictures (`MaskPatterns`), the format words as a
code and as a list (`FormatCode`), fields, groups and padding (`WireFormat`). `TextToSymbol.TextCanBeRead` joins
all of it: a reader that is given only the modules of a finished symbol, and the tables of the standard, finds version,
level and mask in them and reads the text.

**The audio path.** `SpscQueue` and `AudioBridge` are the two lock-free queues, with every load, sample and publication
a step of its own, for all interleavings: nothing unread is overwritten, and `BridgeFlow` says how much every transfer
moves. `AudioRing` refines a bounded queue of frames. `Resampler` interpolates over
exact reals, independently of block boundaries; on every stretch its output is on the line through the input
(`OutputOnLine`). `PullModel` and `AudioPath` put decoder, resampler and ring together,
with packets that arrive while a pull is under way.

**Two protocols.** `PeerRegistry`, `Candidates` and `CandidateLedger` are the peer tables with their retirement and
candidate queues, one method for each critical section and one for what a thread does between two of them. Any number
of threads may be applying descriptions, so a run is any sequence of calls. What is proved of all runs is proved of the
invariant `Tables.Ok`, which every method keeps. `ConnectionRecovery` is the recovery of one connection object, one
method for each uninterrupted stretch of the event loop.

**Canonical texts.** `Utf8Key` is the strict UTF-8 reader that makes key bytes. `Ipv6Text`, `Ipv6Canonical` and
`Endpoint` parse, print and normalise endpoints.

A method that works step by step in the source is a method with the same loops here, proved against a specification
function; long bodies are divided into smaller methods. What the source promises is then proved about the function.

Where a promise does not hold as it stands, the exact condition is proved:

- The zigzag misses modules outside column 6 on odd grids smaller than 7 (`Placement.ZigzagComplete`). Symbols have at
  least 21 modules a side.
- The output counts of the resampler hold when the rates differ by at least 0.000001; otherwise the input is passed on
  (`ProcessInterleaved`, `ProcessPlanar`).
- A pull of n and then m frames is a pull of n + m if and only if its first part is complete, or m is 0, or concealing
  changes nothing any more (`PullModel.SplitsExactly`). For all pulls of a source that is so if and only if the source,
  once it fails to conceal, stays as it is (`AlwaysSplits`). A decoder that makes up at least as many frames as the
  resampler needs for another output completes every pull (`AudioPath.PullIsComplete`, `PeerPullSplits`); pulls that
  cannot be split are in `PullModel.DoesNotSplit` and `AudioPath.StopsEarly`.
- A session can be marked as described although its connection has no remote description: between the two critical
  sections of an offer another thread can close the session and make its key again. `PeerRegistry.AnotherConnection` is
  such a run. A live session is marked without having been described if and only if that happened
  (`MarkedUndescribed`), and it does not happen while the described connection is not closed (`StillTheSame`).
- Messages are for the session of their key, or of their UUID. When UUIDs can have colons, two names can make one key
  (`PeerRegistry.KeysCollide`); without colons the key tells both (`KeyIsName`), and a message finds the live peer of
  its UUID whatever its session name (`LocatedByUuid`).
- After an `await` the recovery does not look at the connection again: it can be announced, and its timer set, on an
  object that was finalized meanwhile (`AnnouncedAfterEnd`), and a stale refusal fails a connection that has recovered
  (`StaleRefusal`). Exactly when is in the contract of `ResumeRecovery`. No request is made for a finalized object.

`dafny verify dfyconfig.toml` checks everything.

## Model

| member | source | states |
|---|---|---|
| `GfMultiply.Multiply` | webrtc_vst/src/qrcodegen.cpp:739-748 | the shift-and-xor loop returns the product by the bits of y, and its accumulator stays below 256 at every step |
| `CarrylessProduct.MulIsModularProduct` | webrtc_vst/src/qrcodegen.cpp:739-748 | r is the product of x and y exactly when it is the remainder of their carry-less product (polynomials over two elements) by 0x11D |
| `CarrylessProduct.BytesReduceAt` | webrtc_vst/src/qrcodegen.cpp:742-744 | doubling a byte and folding its carry with 0x11D is multiplying its polynomial by x, up to a multiple of the modulus |
| `Gf256.BytesFormAField` | webrtc_vst/src/qrcodegen.cpp:739-748 | with this product and xor the 256 bytes are a field: commutative, associative, distributive, without zero divisors, and every byte but 0 has an inverse |
| `Gf256.PowersAreDistinct` | webrtc_vst/src/qrcodegen.cpp:709-712 | 2 generates the field: its first 255 powers differ |
| `Horner.ReducedProduct` | webrtc_vst/src/qrcodegen.cpp:741-745 | reducing at every step of the loop gives the unreduced product up to a multiple of the modulus |
| `ReedSolomon.ComputeDivisor` | webrtc_vst/src/qrcodegen.cpp:701-723 | refuses degrees outside 1..255, and otherwise returns the generator polynomial without its leading 1 |
| `ReedSolomon.TimesRootInPlace` | webrtc_vst/src/qrcodegen.cpp:714-719 | the in-place column loop multiplies by (x - root), reading no column that it has already overwritten |
| `CyclicCodes.PartialStep` | webrtc_vst/src/qrcodegen.cpp:709-721 | one round of the divisor loop keeps it the product of the factors so far, without its leading 1 |
| `ReedSolomon.DivisorRoots` | webrtc_vst/src/qrcodegen.cpp:701-723 | the divisor with its leading 1 vanishes at exactly the powers 2^0 .. 2^(degree-1) |
| `CyclicCodes.GeneratorRoots` | webrtc_vst/src/qrcodegen.cpp:709-721 | the product of the factors (x - base^i) vanishes exactly at the base^i, in any field of characteristic 2 |
| `ReedSolomon.ComputeRemainder` | webrtc_vst/src/qrcodegen.cpp:726-736 | the division loop returns the remainder of the data by the divisor |
| `ReedSolomon.SubtractMultiple` | webrtc_vst/src/qrcodegen.cpp:732-733 | the inner loop subtracts a multiple of the divisor |
| `CyclicCodes.RemainderAtRoot` | webrtc_vst/src/qrcodegen.cpp:726-736 | at a root of the divisor the remainder has the value of the data times x^degree |
| `CyclicCodes.Systematic` | webrtc_vst/src/qrcodegen.cpp:515-518 | data followed by its remainder vanishes at every root, in any field |
| `ReedSolomon.CheckWordCompletes` | webrtc_vst/src/qrcodegen.cpp:726-736 | for data of any length and 1..255 check bytes: data and check bytes are a codeword if and only if the check bytes are the computed remainder |
| `CyclicCodes.FewTermsVanish` | webrtc_vst/src/qrcodegen.cpp:701-736 | the determinant argument: a sum of at most d terms at distinct points that vanishes at d consecutive powers is zero |
| `CyclicCodes.AgreeingWordsAreFar` | webrtc_vst/src/qrcodegen.cpp:701-736 | words that agree at d consecutive powers are equal, or differ in more than d places |
| `ReedSolomon.BlocksAreFar` | webrtc_vst/src/qrcodegen.cpp:701-748 | blocks of at most 255 bytes with different data differ in more than degree places |
| `ReedSolomon.ErrorsAreCorrectable` | webrtc_vst/src/qrcodegen.cpp:701-748 | a received block is within degree/2 errors of the codeword of at most one data block |
| `ErrorCorrection.AddEccAndInterleave` | webrtc_vst/src/qrcodegen.cpp:498-533 | refuses data of the wrong length, and otherwise returns the interleaved protected blocks; all slices are in bounds and use up the data |
| `ErrorCorrection.BuildBlocks` | webrtc_vst/src/qrcodegen.cpp:509-520 | the block loop cuts uneven slices, protects each, and gives short blocks a place holder |
| `ErrorCorrection.ProtectBlock` | webrtc_vst/src/qrcodegen.cpp:513-518 | one block: its data, a place holder if it is short, its check bytes |
| `Interleaving.InterleaveBlocks` | webrtc_vst/src/qrcodegen.cpp:522-530 | the two loops weave the blocks row by row, without the place holders |
| `Interleaving.WeaveEntry` | webrtc_vst/src/qrcodegen.cpp:524-528 | entry i of block j is at the place computed for it |
| `Interleaving.ColumnIsBlock` | webrtc_vst/src/qrcodegen.cpp:524-528 | reading the places of block j gives back the block without its place holder |
| `ErrorCorrection.Layout.Totals` | webrtc_vst/src/qrcodegen.cpp:502-507 | the blocks hold exactly the data codewords, and the interleaved result exactly rawCodewords |
| `ErrorCorrection.BlockCanBeRead` | webrtc_vst/src/qrcodegen.cpp:498-533 | every block can be recovered from the interleaved codewords: its data and its check word |
| `ErrorCorrection.BlockIsCodeword` | webrtc_vst/src/qrcodegen.cpp:498-533 | every recovered block is a Reed-Solomon codeword |
| `ErrorCorrection.EncodingIsLossless` | webrtc_vst/src/qrcodegen.cpp:498-533 | the data parts of the recovered blocks join up to the input, and the output has rawCodewords bytes |
| `ErrorCorrection.DataCodewordAt` | webrtc_vst/src/qrcodegen.cpp:509-530 | data codeword i of block j stands at i*numBlocks + j, less the short blocks in the last row; the first blocks are the short ones |
| `ErrorCorrection.CheckCodewordAt` | webrtc_vst/src/qrcodegen.cpp:509-530 | after all data, check codeword i of block j stands at i*numBlocks + j |
| `Placement.ZigzagVisits` | webrtc_vst/src/qrcodegen.cpp:542-549 | for odd sizes of at least 7 the scan visits every module outside column 6 once, and no others |
| `Placement.ZigzagComplete` | webrtc_vst/src/qrcodegen.cpp:542-549 | among all odd sizes, the scan reaches every module outside column 6 if and only if the size is at least 7 |
| `Placement.ZigzagAt` | webrtc_vst/src/qrcodegen.cpp:542-549 | cell 2*size*p + 2*v + j of the scan is in column size-1-2*p-j, one less from column 6 on, and in row size-1-v or v, the pairs of columns in turn upward and downward; on symbols, of size 1 modulo 4, the first pair goes upward |
| `Placement.PathFromCells` | webrtc_vst/src/qrcodegen.cpp:542-549 | which modules are ahead at any step of the scan |
| `Placement.ScanOfDraw` | webrtc_vst/src/qrcodegen.cpp:536-560 | drawing bits along a path and scanning it again gives the bits; free modules beyond them keep their colour |
| `Placement.DrawFrame` | webrtc_vst/src/qrcodegen.cpp:550-553 | drawing changes no function module and nothing off the path |
| `QrSymbol.QrCode.DrawCodewords` | webrtc_vst/src/qrcodegen.cpp:536-560 | refuses codewords of the wrong number; otherwise the three loops draw their bits along the zigzag, as many as there is room for |
| `QrSymbol.QrCode.DrawModule` | webrtc_vst/src/qrcodegen.cpp:547-553 | one module: function modules are skipped, the bit index advances only on free ones |
| `QrReading.BitPlacement` | webrtc_vst/src/qrcodegen.cpp:550-559 | bit k of the codewords is the colour of the k-th free module of the scan, whose cells are those of ZigzagAt |
| `QrReading.CodewordsCanBeRead` | webrtc_vst/src/qrcodegen.cpp:536-584 | a finished symbol with any mask, unmasked and scanned, gives back its codewords |
| `QrReading.DataCanBeReadFromSymbol` | webrtc_vst/src/qrcodegen.cpp:320-355 | a finished symbol gives back the data codewords through scan and de-interleaving |
| `Masking.MaskTwice` | webrtc_vst/src/qrcodegen.cpp:563-584 | applying a mask twice restores the symbol |
| `MaskPatterns.MaskIsTiled` | webrtc_vst/src/qrcodegen.cpp:571-580 | each of the eight masks repeats a tile of at most six by six modules, given as a picture |
| `QrSymbol.QrCode.ApplyMask` | webrtc_vst/src/qrcodegen.cpp:563-584 | refuses masks other than the eight; otherwise the loops flip exactly the free modules that the mask selects |
| `QrSymbol.QrCode.SetFunctionModule` | webrtc_vst/src/qrcodegen.cpp:485-490 | sets one module and marks it as a function module |
| `QrSymbol.QrCode.DrawFormatBits` | webrtc_vst/src/qrcodegen.cpp:416-440 | afterwards each of the 15 format bits of level and mask stands in both copies, the dark module is dark, and no other module has changed |
| `FormatWords.ComputeFormatBits` | webrtc_vst/src/qrcodegen.cpp:416-423 | the division loop and the final mask give the format word, which has 15 bits and is the one listed for its level and mask in WordsAreListed |
| `FormatWords.FormatCanBeRead` | webrtc_vst/src/qrcodegen.cpp:416-423 | level and mask can be read off the format word |
| `FormatCode.WordsAreMultiples` | webrtc_vst/src/qrcodegen.cpp:416-422 | without the fixed pattern every format word is a multiple of x^10+x^8+x^5+x^4+x^2+x+1 over two elements |
| `FormatCode.WordsAreFar` | webrtc_vst/src/qrcodegen.cpp:416-422 | format words of different level or mask differ in at least 7 of the 15 bits |
| `FormatCode.WordsAreListed` | webrtc_vst/src/qrcodegen.cpp:416-422 | the 32 words are those that Annex C of ISO/IEC 18004 lists |
| `QrConstruction.LevelsAreListed` | webrtc_vst/src/qrcodegen.cpp:236-244 | and stand for the levels that it lists them for |
| `Masking.FormatIsShown` | webrtc_vst/src/qrcodegen.cpp:425-440 | the writes hit different cells: each format cell ends with its own bit, and no other cell changes |
| `Masking.BothCopies` | webrtc_vst/src/qrcodegen.cpp:425-440 | where each bit of both copies stands, cell by cell |
| `Masking.FormatReplaces` | webrtc_vst/src/qrcodegen.cpp:416-440 | drawing format bits again overwrites all earlier ones |
| `Masking.MaskedFormat` | webrtc_vst/src/qrcodegen.cpp:416-440 | masks do not touch the format bits, and format bits do not touch the data |
| `Masking.Unmasked` | webrtc_vst/src/qrcodegen.cpp:341-350 | after each trial the second application of the mask restores all data modules |
| `Masking.TrialAfterFormat` | webrtc_vst/src/qrcodegen.cpp:341-350 | a trial does not depend on the format bits of the trial before it |
| `QrSymbol.QrCode.TryMask` | webrtc_vst/src/qrcodegen.cpp:342-349 | one round of the mask loop: the penalty of the trial symbol, and the data modules restored |
| `QrSymbol.QrCode.ChooseMask` | webrtc_vst/src/qrcodegen.cpp:339-351 | the loop finds the mask whose trial symbol has the least penalty, the lowest such mask on ties |
| `QrSymbol.QrCode.DoMasking` | webrtc_vst/src/qrcodegen.cpp:338-355 | the finished symbol is the trial symbol of the given mask, or of the best one; other mask values are refused |
| `QrConstruction.Construct` | webrtc_vst/src/qrcodegen.cpp:320-359 | refuses other versions, masks and data lengths; otherwise a fresh symbol of the data: interleaved, drawn and masked, for -1 with a mask whose trial has the least penalty, the lowest on ties |
| `QrConstruction.SymbolCanBeRead` | webrtc_vst/src/qrcodegen.cpp:320-359 | a reader of the modules finds version, level and mask in them, and with those the data codewords |
| `BitNumbers.BitBuffer.AppendBits` | webrtc_vst/src/qrcodegen.cpp:822-827 | refuses lengths outside 0..31 and values that do not fit, leaving the buffer as it is; otherwise appends the bits, highest first |
| `BitNumbers.FieldCanBeRead` | webrtc_vst/src/qrcodegen.cpp:822-827 | the value of an appended field can be read back |
| `WireFormat.FieldBit` | webrtc_vst/src/qrcodegen.cpp:822-827 | the bits of a field are the binary digits of the value, the highest first |
| `Segments.MakeNumeric` | webrtc_vst/src/qrcodegen.cpp:79-99 | accepts exactly digit strings; three digits to a ten-bit field, the rest to a shorter one, and no appended value is out of range |
| `Segments.MakeAlphanumeric` | webrtc_vst/src/qrcodegen.cpp:102-122 | accepts exactly texts over the 45 characters; two characters to an eleven-bit field, the last one to six bits |
| `Segments.MakeBytes` | webrtc_vst/src/qrcodegen.cpp:69-76 | eight bits to a byte, refused only beyond the integer limit |
| `Segments.MakeEci` | webrtc_vst/src/qrcodegen.cpp:157-176 | accepts exactly designators from 0 to 999999, in one of three prefixed forms |
| `Segments.PushDigit` | webrtc_vst/src/qrcodegen.cpp:88-94 | one round of the digit loops: a full group goes out as a field |
| `Packing.PackedCanBeRead` | webrtc_vst/src/qrcodegen.cpp:79-122 | grouped digits can be read back from their fields, whatever follows them |
| `Packing.DigitsOfValue` | webrtc_vst/src/qrcodegen.cpp:88-114 | the digits of a group can be recovered from its accumulated value |
| `WireFormat.GroupValues` | webrtc_vst/src/qrcodegen.cpp:88-114 | a group stands for hundreds, tens and units, or for 45 times the first character and the second |
| `Encoding.GetTotalBits` | webrtc_vst/src/qrcodegen.cpp:179-193 | -1 exactly when a count does not fit its field or the sum exceeds the integer limit, and otherwise the number of bits |
| `Encoding.EncodeSegments` | webrtc_vst/src/qrcodegen.cpp:259-317 | succeeds exactly when arguments are valid and some version in range fits; the version is the least that fits, the level is boosted as far as the data allows, and the bits are headers, payloads and padding to exactly the capacity |
| `Encoding.FindVersion` | webrtc_vst/src/qrcodegen.cpp:264-281 | the search returns the least version in range that fits, or none when none does |
| `Encoding.Boost` | webrtc_vst/src/qrcodegen.cpp:284-288 | the highest level that still holds the data at that version |
| `Encoding.WriteSegments` | webrtc_vst/src/qrcodegen.cpp:290-308 | the bits that are written are those of the headers and payloads, and fill the capacity exactly |
| `Encoding.WritePadding` | webrtc_vst/src/qrcodegen.cpp:299-308 | terminator, zeros to a whole byte, then alternating pad bytes to the capacity |
| `WireFormat.PaddingAt` | webrtc_vst/src/qrcodegen.cpp:299-308 | zeros, and then the bytes 11101100 and 00010001 in turn |
| `WireFormat.ZerosAreFewest` | webrtc_vst/src/qrcodegen.cpp:299-304 | the terminator and the rest of a byte take no more bits than they must |
| `BitStrings.PackBits` | webrtc_vst/src/qrcodegen.cpp:310-313 | the packed bytes hold the bits in order, highest bit first |
| `BitStrings.BitsCanBeRead` | webrtc_vst/src/qrcodegen.cpp:310-313 | the bits of packed bytes are the bits that were packed |
| `SegmentReading.SegmentReadBack` | webrtc_vst/src/qrcodegen.cpp:291-296 | a reader that knows the mode indicators, count widths and groups of the standard recovers the digits, text, bytes or designator of one segment, and stops at the next |
| `SegmentReading.PaddingStops` | webrtc_vst/src/qrcodegen.cpp:299-308 | a reader stops at the padding, whatever room is left |
| `SegmentReading.ContentsCanBeRead` | webrtc_vst/src/qrcodegen.cpp:259-317 | a reader recovers all contents from the padded bits |
| `TextToSymbol.MakeSegments` | webrtc_vst/src/qrcodegen.cpp:125-142 | the content of the text in the first of the three modes that can write it, or no segment for an empty text; refused exactly when only bytes can write it and they are too many |
| `TextToSymbol.ShortestSegment` | webrtc_vst/src/qrcodegen.cpp:125-140 | the mode that is chosen is the most compact: in no version is another segment of the text shorter |
| `TextToSymbol.EncodeText` | webrtc_vst/src/qrcodegen.cpp:247-250 | succeeds exactly when the text fits some version at the level asked for; the symbol has the least such version, the level boosted as far as the data allows and a mask of least penalty, and reads as the text |
| `TextToSymbol.TextCanBeRead` | webrtc_vst/src/qrcodegen.cpp:247-359 | reading the modules of any symbol of a text, of whatever version, level and mask, gives the text; the reader is told none of the three |
| `SpscQueue.WriteSampleKeeps` | webrtc_vst/src/RealtimeAudioBridge.h:30-34 | a write to a slot keeps every unread sample, with whatever stale read cursor it was allowed |
| `SpscQueue.LoadReadKeeps` | webrtc_vst/src/RealtimeAudioBridge.h:28-29 | a block offered is cut to the room seen; what has room now is taken whole |
| `SpscQueue.PublishWrittenKeeps` | webrtc_vst/src/RealtimeAudioBridge.h:35 | publishing the write cursor makes exactly the written samples readable |
| `SpscQueue.CopySampleKeeps` | webrtc_vst/src/RealtimeAudioBridge.h:42-45 | what the consumer copies is what was accepted at that position, whatever the producer does meanwhile |
| `SpscQueue.PublishReadKeeps` | webrtc_vst/src/RealtimeAudioBridge.h:46 | taken samples are delivered once, in order |
| `AudioBridge.StepKeeps` | webrtc_vst/src/RealtimeAudioBridge.h:24-83 | every access to shared memory, by either thread, keeps the invariant of both queues and of the demand |
| `AudioBridge.QueuesAreSafe` | webrtc_vst/src/RealtimeAudioBridge.h:24-83 | in every state of every interleaving 0 <= written - read <= capacity, unread slots hold the accepted samples, and each consumed position was delivered with its sample or discarded |
| `AudioBridge.OnlyResetsDiscard` | webrtc_vst/src/RealtimeAudioBridge.h:77-83 | no step changes what was accepted or consumed before, and only the two stores of a reset discard samples |
| `AudioBridge.DemandedSupplyIsWhole` | webrtc_vst/src/RealtimeAudioBridge.h:62-76 | a supply no larger than the demand before it is published whole |
| `AudioBridge.DemandIsMissing` | webrtc_vst/src/RealtimeAudioBridge.h:62-68 | the free space never limits a demand, because the host never wants more than a full buffer |
| `AudioBridge.ResetSeparates` | webrtc_vst/src/RealtimeAudioBridge.h:36-46 | a play transfer that begins after a reset copies nothing that was supplied before it |
| `BridgeFlow.PlayTakes` | webrtc_vst/src/RealtimeAudioBridge.h:36-46 | in every run: a play transfer of n frames delivers n samples, or all that were written at one of its steps, and at least what was ready when it began; after a pending discard, which drops at least what was ready then, the same of what follows |
| `BridgeFlow.PlayAsks` | webrtc_vst/src/RealtimeAudioBridge.h:47-50 | after it the host wants samples up to the larger of the minimum reserve and four blocks beyond the read cursor, but no more than a full buffer |
| `BridgeFlow.InputIsTaken` | webrtc_vst/src/RealtimeAudioBridge.h:53-61 | takeInput delivers 512 samples, or all that were written at one of its steps, and at least what was ready when it began |
| `BridgeFlow.InputIsPublished` | webrtc_vst/src/RealtimeAudioBridge.h:25-35 | a published block is accepted whole, or up to where the buffer ended at one of the steps, and at least as far as there was room when it began |
| `BridgeFlow.OutputIsSupplied` | webrtc_vst/src/RealtimeAudioBridge.h:69-76 | the same of a block that the worker supplies |
| `BridgeFlow.ResetDropsInput` | webrtc_vst/src/RealtimeAudioBridge.h:77-80 | a reset discards all input that was published when it began, and only that |
| `BridgeFlow.NoDemandAfterReset` | webrtc_vst/src/RealtimeAudioBridge.h:77-83 | after a reset nothing is demanded until the host has played again |
| `AudioRing.AudioRingBuffer.Push` | webrtc_vst/src/AudioRingBuffer.cpp:17-69 | the queue of frames becomes the newest frameCapacity frames of what was kept and what was pushed; other channel counts start afresh |
| `AudioRing.PushedAt` | webrtc_vst/src/AudioRingBuffer.cpp:33-68 | counted from the newest frame, the queue is the pushed samples, channel by channel, and then what was kept, up to the capacity |
| `AudioRing.AudioRingBuffer.PushInterleaved` | webrtc_vst/src/AudioRingBuffer.cpp:71-92 | the same queue as pushing the same frames planar, with at most two spans written |
| `AudioRing.AudioRingBuffer.Pop` | webrtc_vst/src/AudioRingBuffer.cpp:94-139 | as many frames as asked for or queued are delivered, oldest first and in order, the rest of the output is silence, and exactly the delivered frames leave the queue |
| `AudioRing.AudioRingBuffer.AvailableFrames` | webrtc_vst/src/AudioRingBuffer.cpp:141-147 | the number of queued frames, or none for another channel count |
| `AudioRing.AudioRingBuffer.Reset` | webrtc_vst/src/AudioRingBuffer.cpp:149-156 | an empty queue of the new shape |
| `AudioRing.AudioRingBuffer.WriteSpans` | webrtc_vst/src/AudioRingBuffer.cpp:55-68 | the span loop terminates and appends all frames, going round at most at frame boundaries |
| `AudioRing.AudioRingBuffer.Replace` | webrtc_vst/src/AudioRingBuffer.cpp:33-47 | when more arrives than fits, exactly the newest frames are copied |
| `AudioRing.AudioRingBuffer.Discard` | webrtc_vst/src/AudioRingBuffer.cpp:49-53 | making room drops exactly the oldest samples |
| `AudioRing.AudioRingBuffer.SpanFrames` | webrtc_vst/src/AudioRingBuffer.cpp:58 | a span is never empty, because the cursors stay at the starts of frames |
| `AudioRing.AudioRingBuffer.ReadSpans` | webrtc_vst/src/AudioRingBuffer.cpp:120-129 | the read loop terminates and copies each frame to its place |
| `Circular.FramesOfNewest` | webrtc_vst/src/AudioRingBuffer.cpp:33-53 | the newest samples of whole frames are the newest frames |
| `Circular.FrameSample` | webrtc_vst/src/AudioRingBuffer.cpp:71-92 | sample c of frame k is sample k*channels + c of interleaved audio |
| `Circular.ViewAppendTwo` | webrtc_vst/src/AudioRingBuffer.cpp:87-90 | two contiguous copies append to the circular view |
| `Resampler.LinearResampler.Configure` | webrtc_vst/src/LinearResampler.h:36-46 | step is the input rate over the output rate, for any rates but an output rate of 0; rates within 0.000001 are passed through; the history is empty |
| `Resampler.LinearResampler.ProcessPlanar` | webrtc_vst/src/LinearResampler.h:54-105 | the output so far is that of the whole stream so far; equal rates pass the input on |
| `Resampler.LinearResampler.ProcessInterleaved` | webrtc_vst/src/LinearResampler.h:107-139 | the same, for interleaved blocks |
| `Resampler.LinearResampler.ProcessBuffer` | webrtc_vst/src/LinearResampler.h:148-183 | a block adds exactly the outputs that the longer stream has more, and carries the exact phase: the clamp changes nothing |
| `Resampler.CarriedPhase` | webrtc_vst/src/LinearResampler.h:176-179 | the carried phase is at least zero and less than a step |
| `Resampler.CountedIsBefore` | webrtc_vst/src/LinearResampler.h:162 | the loop makes output k exactly when k is below the ceiling of length over step |
| `Resampler.NextOutput` | webrtc_vst/src/LinearResampler.h:162-173 | a position in a block is a position in the whole stream, with the same interpolation |
| `Resampler.RunOutput` | webrtc_vst/src/LinearResampler.h:54-183 | calls that each continue the stream, whatever the block boundaries, empty and single-frame blocks included, join up to the output of the whole stream |
| `Resampler.FeedInterleaved` | webrtc_vst/src/LinearResampler.h:107-183 | feeding interleaved blocks of any sizes to a resampler one after the other: the outputs join up to that of the joined blocks, or to the input itself for equal rates |
| `Resampler.FeedPlanar` | webrtc_vst/src/LinearResampler.h:54-183 | the same for planar blocks |
| `Resampler.OutputCount` | webrtc_vst/src/LinearResampler.h:148-183 | when the rates differ by at least 0.000001: ceil(n/step) outputs for n interleaved frames, ceil((n-1)/step) for n planar ones, n at least 1 |
| `Resampler.BlockBringsOutput` | webrtc_vst/src/LinearResampler.h:148-183 | an interleaved block brings output if and only if the carried phase lies before its end; so a block of a step or more always does |
| `Resampler.OutputAt` | webrtc_vst/src/LinearResampler.h:162-173 | output k is the interpolation of the stream at k*step, and exists |
| `Resampler.OutputOnLine` | webrtc_vst/src/LinearResampler.h:164-173 | from the samples alone: where a channel is a line u + v*t between two neighbouring frames, the output there is u + v*t at its time t = k*step, less one frame for interleaved input |
| `Resampler.OutputOnFrame` | webrtc_vst/src/LinearResampler.h:164-173 | at the time of an input frame the output is that frame |
| `Resampler.OutputBefore` | webrtc_vst/src/LinearResampler.h:119-127 | up to the first frame of interleaved input the output is that frame |
| `AudioPath.PeerAudio.DecodeAndQueueAudio` | webrtc_vst/src/WebRTCSession.cpp:1994-2044 | a packet advances decoder and resampler once, queues its block and readies the peer at the pre-fill; nothing happens on shutdown, after closing, without a decoder, or for a raw packet once a frame was decoded |
| `AudioPath.PacketIsHeard` | webrtc_vst/src/WebRTCSession.cpp:2008-2032 | exactly the packets that come as frames, or before any frame was decoded, advance a decoder that there is; all others change nothing |
| `AudioPath.FrameSeenIn` | webrtc_vst/src/WebRTCSession.cpp:2009-2018 | in every run raw packets are refused if and only if a media frame was decoded before |
| `AudioPath.PeerAudio.ConcealLoss` | webrtc_vst/src/WebRTCSession.cpp:2100-2119 | one concealment: decoder and resampler advance, the whole block is queued and counted; without a decoder, decoded frames or output nothing is queued |
| `AudioPath.PeerAudio.PullPeer` | webrtc_vst/src/WebRTCSession.cpp:2084-2134 | the loop adds to the output exactly what the peer plays, with packets and the closing of the peer arriving at any two points of any round; that is all that was asked for if it stays open and every concealed block suffices for output |
| `AudioPath.PullIncomingAudio` | webrtc_vst/src/WebRTCSession.cpp:2046-2137 | the output is the sum of what each ready peer plays alone and peers that are not ready play nothing, every peer ends in the state it would have alone, with the host's or another number of channels, and the result is the longest share |
| `AudioPath.PullIsComplete` | webrtc_vst/src/WebRTCSession.cpp:2086-2132 | whatever arrives meanwhile, a pull brings all frames if every concealed block has a frame and, when resampled, at least step of them |
| `AudioPath.PeerPullSplits` | webrtc_vst/src/WebRTCSession.cpp:2086-2132 | for such a decoder pulling n and then m frames is pulling n + m, in frames, decoder state and concealments |
| `AudioPath.StopsEarly` | webrtc_vst/src/WebRTCSession.cpp:2103-2109 | a decoder with blocks shorter than step: a pull of two frames ends after one, and pulling on is not pulling more at once |
| `AudioPath.PlaysOneStream` | webrtc_vst/src/WebRTCSession.cpp:2005-2032 | without overflow: played frames and then the queue are the resampling of all decoded and concealed frames as one stream, wherever packets, spans and pulls divide it |
| `PullModel.PullIsEach` | webrtc_vst/src/WebRTCSession.cpp:2086-2132 | taking whole spans and concealing in between is taking frame after frame |
| `PullModel.QueueFirst` | webrtc_vst/src/WebRTCSession.cpp:2089-2099 | a pull uses up the queue before anything is concealed |
| `PullModel.ConcealsNext` | webrtc_vst/src/WebRTCSession.cpp:2100-2121 | when more is wanted than is queued, one block is made up and queued whole, or the pull ends |
| `PullModel.ClosedPlaysNothing` | webrtc_vst/src/WebRTCSession.cpp:2087-2096 | a peer that is closed before or while the lock is awaited plays nothing more |
| `PullModel.PullSplits` | webrtc_vst/src/WebRTCSession.cpp:2086-2132 | pulling n and then m frames is pulling n + m if the first pull is complete; otherwise the longer pull stops where the shorter one does |
| `PullModel.SplitsExactly` | webrtc_vst/src/WebRTCSession.cpp:2086-2132 | a pull splits in frames, decoder state and concealments if and only if its first part is complete, or the second is empty, or concealing changes nothing any more |
| `PullModel.AlwaysSplits` | webrtc_vst/src/WebRTCSession.cpp:2103-2109 | every pull of every peer splits anywhere if and only if a source that once fails to conceal stays as it is then |
| `PullModel.DoesNotSplit` | webrtc_vst/src/WebRTCSession.cpp:2103-2109 | a source that conceals nothing but counts its failures: two pulls of one frame fail twice, a pull of two frames once |
| `PullModel.PullComplete` | webrtc_vst/src/WebRTCSession.cpp:2103-2109 | a pull is complete when every concealment from here on brings frames |
| `PullModel.PullIsPlay` | webrtc_vst/src/WebRTCSession.cpp:2086-2132 | a pull among arriving packets is a run of single events, so all that is proved of runs holds of it |
| `PullModel.QuietPull` | webrtc_vst/src/WebRTCSession.cpp:2086-2132 | when nothing arrives it is the plain pull |
| `PullModel.PlaysInOrder` | webrtc_vst/src/WebRTCSession.cpp:2005-2032 | for any order of packets and turns without overflow: played frames and then the queue are all the blocks that were made, in the order in which they were made |
| `PullModel.PacketAfterTail` | webrtc_vst/src/WebRTCSession.cpp:2111-2121 | a packet that arrives in the middle of a concealed block plays after its tail |
| `PeerRegistry.Registry.EnsurePeerSession` | webrtc_vst/src/WebRTCSession.cpp:604-652 | refuses exactly at the two limits and then leaves both maps as they are; otherwise the new peer replaces the one of its UUID and takes the waiting candidates; also while descriptions are applied on other threads |
| `PeerRegistry.Registry.ClosePeerSession` | webrtc_vst/src/WebRTCSession.cpp:562-575 | the peer leaves both maps and joins the retirement queue once |
| `PeerRegistry.Registry.AddPeer` | webrtc_vst/src/WebRTCSession.cpp:634-640 | the two maps stay inverse, the numbers of live and of waiting peers within 16 and 32 |
| `PeerRegistry.Registry.FlushGlobalIce` | webrtc_vst/src/WebRTCSession.cpp:1078-1089 | the matching candidates go to the new peer in order, the others stay |
| `PeerRegistry.Registry.TakeRetired` | webrtc_vst/src/WebRTCSession.cpp:577-586 | the cleanup thread takes the oldest retired peer |
| `PeerRegistry.Registry.Release` | webrtc_vst/src/WebRTCSession.cpp:587-600 | every peer is released at most once, and the counter stays queue plus in flight |
| `PeerRegistry.Registry.ResetAllPeerConnections` | webrtc_vst/src/WebRTCSession.cpp:556-560 | all peers retire, and both maps are empty |
| `PeerRegistry.OnePeerForEachUuid` | webrtc_vst/src/WebRTCSession.cpp:1076 | inverse maps have one live peer for each UUID |
| `PeerRegistry.CloseKeeps` | webrtc_vst/src/WebRTCSession.cpp:562-575 | closing keeps the maps inverse, and every connection live or departed once |
| `PeerRegistry.InsertKeeps` | webrtc_vst/src/WebRTCSession.cpp:634-637 | inserting keeps the maps inverse, and every connection live or departed once |
| `PeerRegistry.Registry.OnConnected` | webrtc_vst/src/WebRTCSession.cpp:688-698 | a connected player closes exactly the other sessions of its stream, so that no two ready sessions share one |
| `PeerRegistry.OnlyGeneration` | webrtc_vst/src/WebRTCSession.cpp:688-698 | after that no other session with the stream is ready |
| `PeerRegistry.Registry.OnDisconnected` | webrtc_vst/src/WebRTCSession.cpp:704-708 | the session is no longer ready |
| `PeerRegistry.Registry.OnFailedOrClosed` | webrtc_vst/src/WebRTCSession.cpp:709-734 | the session is closed |
| `PeerRegistry.Registry.HandleOfferRequest` | webrtc_vst/src/WebRTCSession.cpp:1498-1519 | only a publisher makes a session, which is not ready |
| `PeerRegistry.Registry.BeginOffer` | webrtc_vst/src/WebRTCSession.cpp:1536-1554 | an offer changes the stream of a session only together with making it not ready, and the thread keeps the connection it found |
| `PeerRegistry.Registry.BeginAnswer` | webrtc_vst/src/WebRTCSession.cpp:1578-1604 | a player ignores answers; a publisher gives one to the session of its key, or else to the session of its UUID, and ignores it only if there is neither |
| `PeerRegistry.Registry.ApplyDescription` | webrtc_vst/src/WebRTCSession.cpp:1560-1566 | outside the lock a connection gets its remote description, and answering can fail after that |
| `PeerRegistry.Registry.MapDataChannel` | webrtc_vst/src/WebRTCSession.cpp:985-1019 | a signaling message on a data channel makes or finds a session, on any thread and between any two critical sections |
| `PeerRegistry.Registry.FinishDescription` | webrtc_vst/src/WebRTCSession.cpp:1568-1577 | the session that is then found under the key is marked and given its waiting candidates; it is recorded as marked by mistake exactly when its connection is not the one that was described |
| `PeerRegistry.StillTheSame` | webrtc_vst/src/WebRTCSession.cpp:1568-1577 | the session under the key is the one whose connection was described if and only if that connection has not been closed meanwhile |
| `PeerRegistry.MarkedUndescribed` | webrtc_vst/src/WebRTCSession.cpp:1568-1577 | in every state of every run: a live session is marked without having been described if and only if it was marked by mistake; only described or mistaken ones were given candidates |
| `PeerRegistry.AnotherConnection` | webrtc_vst/src/WebRTCSession.cpp:1536-1577 | a run in which the key is made again while the offer is applied: the new connection is given a candidate without ever having had a remote description |
| `PeerRegistry.Registry.HandleRemoteCandidate` | webrtc_vst/src/WebRTCSession.cpp:1642-1680 | a candidate goes to the session of its key, or else to the session of its UUID, and waits among the newest hundred only if there is neither; its fate is recorded |
| `PeerRegistry.WaitsForAbsent` | webrtc_vst/src/WebRTCSession.cpp:1078-1089 | in every state of every run no candidate in the queue is for a live peer: of the same UUID there are only candidates for another session name |
| `PeerRegistry.LocatedByUuid` | webrtc_vst/src/WebRTCSession.cpp:1649-1667 | if no UUID has a colon, a message finds the live peer of its UUID, whatever its session name, or there is none |
| `PeerRegistry.KeyIsName` | webrtc_vst/src/WebRTCSession.cpp:547-552 | without colons in UUIDs the key tells UUID and session name |
| `PeerRegistry.KeysCollide` | webrtc_vst/src/WebRTCSession.cpp:547-552 | with colons in UUIDs, different names can make the same key |
| `PeerRegistry.CandidateAccounted` | webrtc_vst/src/WebRTCSession.cpp:1078-1145 | in every state of every run each candidate that arrived waits in the global queue, or was offered to one connection and no other, or to none: it had no text, made room for a newer one, or was forgotten by a reset |
| `PeerRegistry.OfferedOnce` | webrtc_vst/src/WebRTCSession.cpp:1078-1089 | no candidate is in the inboxes of two live peers |
| `PeerRegistry.OfferedIsKept` | webrtc_vst/src/WebRTCSession.cpp:1101-1124 | a candidate that was offered to a live peer is applied or will be, unless it came after 256 others before the description |
| `Candidates.QueueOrApplyCandidate` | webrtc_vst/src/WebRTCSession.cpp:1101-1124 | before the description a candidate waits if there is room, after it it is given to the connection unless it has no text |
| `Candidates.SetRemoteDescription` | webrtc_vst/src/WebRTCSession.cpp:1094-1099 | the waiting candidates are given to the connection in order |
| `Candidates.AppliedInOrder` | webrtc_vst/src/WebRTCSession.cpp:1094-1145 | a connection is given candidates in arrival order, none twice, and none before its remote description is set |
| `Candidates.OnlyTheCapLoses` | webrtc_vst/src/WebRTCSession.cpp:1101-1109 | a candidate with text is missing if and only if it came after 256 others before the description |
| `ConnectionRecovery.RecoverableConnection.RecoverConnection` | js_sdk/vdoninja-sdk.js:3618-3648 | requests the direct restart, then the one over a relay, and otherwise fails the connection; nothing at all when finalized, replaced or already recovering |
| `ConnectionRecovery.RecoverableConnection.HandlePeerConnectionState` | js_sdk/vdoninja-sdk.js:3461-3540 | a visit to the connected branch ends the recovery and starts the count of requests again, but leaves the pending requests pending; a failure asks for the next request |
| `ConnectionRecovery.RecoverableConnection.ResumeRecovery` | js_sdk/vdoninja-sdk.js:3644-3674 | after an await: a refused request fails the connection once; a recovery is announced on a finalized object if and only if its request was accepted |
| `ConnectionRecovery.RecoverableConnection.RecoveryTimerFires` | js_sdk/vdoninja-sdk.js:3659-3671 | the timer ends the recovery; on a connection that is not up it makes the next request or fails, on one that is up it starts the connected branch |
| `ConnectionRecovery.RecoverableConnection.DisconnectTimerFires` | js_sdk/vdoninja-sdk.js:3513-3527 | a connection that is still down after the grace period is recovered, one that is up, gone, replaced or already recovering is left alone |
| `ConnectionRecovery.RecoverableConnection.HandleConnectionFailed` | js_sdk/vdoninja-sdk.js:3681-3754 | the failure is emitted at most once |
| `ConnectionRecovery.TwoRequests` | js_sdk/vdoninja-sdk.js:3633-3642 | in every state of every run, between two visits to the connected branch, and since the last, there are at most two requests: a direct one, then one over a relay; every method keeps this |
| `ConnectionRecovery.AnnouncedAfterEnd` | js_sdk/vdoninja-sdk.js:3635-3659 | a run in which a recovery is announced, and its timer set, after the object was finalized |
| `ConnectionRecovery.StaleRefusal` | js_sdk/vdoninja-sdk.js:3635-3656 | a run in which the connection recovers on its own while a request is pending, and the refusal of that request then fails it |
| `Utf8Key.BrowserAesKeyBytes` | webrtc_vst/src/BrowserCryptoCompat.h:23-49 | accepts a byte string if and only if it is the UTF-8 of some scalar values, and then returns the low byte of each UTF-16 code unit of them |
| `Utf8Key.UnitsDenote` | webrtc_vst/src/BrowserCryptoCompat.h:42-46 | the code units of a point are those of section 2.1 of RFC 2781 |
| `Utf8Key.KeyBytes` | webrtc_vst/src/BrowserCryptoCompat.h:42-46 | byte k of the key is the low byte of code unit k |
| `Utf8Key.NextPoint` | webrtc_vst/src/BrowserCryptoCompat.h:26-41 | one point, read with its continuation bytes |
| `Utf8Key.ReadEncoded` | webrtc_vst/src/BrowserCryptoCompat.h:25-41 | every encoded scalar value is read back (section 3 of RFC 3629) |
| `Utf8Key.EncodeRead` | webrtc_vst/src/BrowserCryptoCompat.h:25-41 | only encoded scalar values are read: no overlong form, surrogate or value above 0x10FFFF (section 4 of RFC 3629) |
| `Utf8Key.CountUnits` | webrtc_vst/src/ConfigState.h:18-19 | the count of code units taken from the bytes is the length of the key |
| `Utf8Key.EncodeBrowserPassword` | webrtc_vst/src/BrowserCryptoCompat.h:8-18 | letters, digits and nine other characters stand alone, every other byte is a percent sign and two upper-case digits, and the encoding decodes to the password |
| `Ipv6Canonical.CanonicalAddress` | webrtc_vst/src/AdvancedSettings.h:43-88 | accepts exactly the texts that pass the checks, and returns the canonical form of the words they denote |
| `Ipv6Canonical.CountGroups` | webrtc_vst/src/AdvancedSettings.h:51-59 | the number of words, refused if one has more than four digits |
| `Ipv6Canonical.ReadWords` | webrtc_vst/src/AdvancedSettings.h:62-71 | the eight words that the text denotes, with every index below eight |
| `Ipv6Canonical.FindZeroRun` | webrtc_vst/src/AdvancedSettings.h:72-79 | the first of the longest runs of at least two zeros (section 4.2 of RFC 5952) |
| `Ipv6Canonical.WriteCanonical` | webrtc_vst/src/AdvancedSettings.h:80-88 | lower-case words without leading zeros, colons between them, a double colon for the run |
| `Ipv6Canonical.CanonicalIsFixed` | webrtc_vst/src/AdvancedSettings.h:43-88 | a canonical text is accepted, denotes the same words, and is the only canonical text of them |
| `Ipv6Text.PrintDenotes` | webrtc_vst/src/AdvancedSettings.h:80-88 | a printed text denotes the words that were printed |
| `Ipv6Text.FirstLongestIsUnique` | webrtc_vst/src/AdvancedSettings.h:72-79 | there is only one choice of the compressed run |
| `Endpoint.NormalizeEndpoint` | webrtc_vst/src/AdvancedSettings.h:23-123 | returns the normal form of the input, or nothing when it has none |
| `Endpoint.NormalizeAuthority` | webrtc_vst/src/AdvancedSettings.h:38-117 | address, host and port rules of the authority |
| `Endpoint.NormaliseTwice` | webrtc_vst/src/AdvancedSettings.h:23-123 | normalising what was normalised gives the same, for every accepted input |
| `Endpoint.NormalIsSafe` | webrtc_vst/src/AdvancedSettings.h:21-123 | whatever is accepted, the result has one of the two schemes, a host of letters, digits, dots, hyphens, colons and brackets without credentials, no query in a web address, no blank, quote, backslash, angle bracket or fragment, and at most 127 characters |
| `Endpoint.SameAddress` | webrtc_vst/src/AdvancedSettings.h:42-89 | the address in the normal form denotes the eight words of the one in the input, and is its canonical form |

## Left out

- Facts about constant tables are preconditions: the block layout of each version and level (`ErrorCorrection.Layout.Valid`), the data capacities, and the number of free modules (`QrReading.HasRoom`); `QrConstruction.AllFit` puts them together, and `QrConstruction.TablesExist` shows that they can be met.
- `QrCode::getPenaltyScore` is any bounded function of the symbol; the choice of mask holds for every such function.
- `drawFunctionPatterns`: the symbol starts with any function modules that cover column 6 and the format cells.
- Kanji segments: the encoder has no function that makes one.
- A text with the character code 0, which ends a C string, is not a text of the model.
- Samples, rates and phases are reals: rounding, NaN and denormals, and so the `finite` filter of the bridge, are not modelled.
- The cursors of the bridge are unbounded, and its atomics are single steps in program order; the two channels of a frame are written and read together.
- The host of the bridge plays into output that has room for all frames; the down-mix to one channel and missing channels are not modelled.
- Spin locks, logging, status callbacks and telemetry of the audio path and of the registry.
- AudioRing.AudioRingBuffer.Pop: writes to one rectangular output; separate buffers of a host that overlap are not modelled.
- Resampler.LinearResampler.Configure: an output rate of 0 divides by zero, which over the reals has no value; with rates that are not both positive nothing is claimed of the output.
- Resampler.LinearResampler.ProcessInterleaved: vectors hold frames, not single samples; the index arithmetic of interleaved samples is proved for the ring.
- The vectors that a resampler leaves behind when it returns no frames keep earlier contents, which no caller may use.
- AudioPath.PeerAudio.DecodeAndQueueAudio: the peer can be closed before the call or after it, not between its two looks at the flag.
- AudioPath.PeerAudio.PullPeer: what arrives during a round is a parameter, at two points: before the ring is read, and while the lock of the decoder is awaited.
- PeerRegistry.Registry.EnsurePeerSession: the RTC objects of a session, and exceptions of their constructors between the two map insertions, are not modelled.
- PeerRegistry.Registry.HandleRemoteCandidate: the `sdpMid` hint of a candidate is not modelled.
- Two UUIDs and session names that make the same key are routed as one peer, as in the source.
- Starting and stopping: one run has one mode, and begins with empty tables.
- The requests that a player sends after a peer failed, and the parsing and sending of signaling messages; a message is the call of one of the methods.
- PeerRegistry.Registry.MapDataChannel: which data channel a session answers on is not modelled.
- ConnectionRecovery.RecoverableConnection.HandlePeerConnectionState: tracked stream states, relay restoration, viewer retries and events other than the failure and the announcement are not modelled; event handlers do not call back into the recovery.
- Endpoint.NormalizeEndpoint: the loops over labels and over the bytes of an IPv4 host are functions here, and the regular expressions are predicates.
- Salts, hashes, encryption and the rest of the settings; the rest of the SDK.
