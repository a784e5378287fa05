# Verification of cozip

This project models the parts of cozip that have to be right bit by bit or step by step, and proves what they promise.
`dafny verify dfyconfig.toml` checks everything.

**The DEFLATE bit layer** (RFC 1951). Chunks are compressed one by one and joined at bit level into one stream: BFINAL
is cleared or set, and empty stored blocks bring every chunk to a byte boundary. `Format` says what a bit string
means, independently of any reader. `BitWriter`, `ChunkPrepare` and `StreamWriter` are the imperative writers,
`Cursor`, `HuffmanDecoder` and `Walker` the imperative readers, each proved against `Format`. `Transport` moves parses
between streams, `Join` proves that joining keeps the meaning, `Extract` and `Window` that the index leads back to
every chunk. `Recover` runs writer and decoder end to end. `Canonical`, `HuffmanEncoder`, `Rle`, `DynamicHeader`,
`DynamicPlan` and `DynamicBlock` are the code tables, their assignment, their run-length coding and the dynamic
header; `ReadBack` feeds what these write to the readers. `CodeLengths`, `MinimalMerge` and `HuffmanLengths` are the
construction of code lengths and its optimality. `CodeTables` says what the tables of RFC 1951 are and reads back
blocks of every type.

**The GPU compressor.** `GpuTokens`, `GpuSymbols`, `GpuScan`, `GpuPack`, `GpuCoder` and `GpuChunks` model the shaders
and their host code: longest matches, the choice of tokens per segment, frequencies, prefix sums, codes and bit
packing, in the fixed codes and in planned ones. Whatever a chunk holds, what is returned for it decompresses to it,
so it is one of the chunks that `Join` may be given. `CodeSizes`, `PlanSizes` and `GpuSizes` bound the output: it
always fits its buffer. `GpuStream` goes from raw pieces of input to the joined stream.

**CRC-32 combination.** `Crc` proves that combining by powers of a matrix over GF(2) gives the checksum of the
concatenation (section 8 of RFC 1952 for the checksum itself); `CrcPolynomial` that the register computes modulo the
generator polynomial of CRC-32, with its check value, and what the checksum notices.

**The concurrent pipelines as step systems.** `Pipeline` and the modules with that prefix model compression: producer,
CPU workers, GPU batch worker, in-order writer and two gates. `ParallelDecode` models the indexed decoder with
positional writes that land piece by piece, `Dispatch` the fragment queue with its drain barrier. A region under one
lock and an access to an atomic are one step each; a wait is a step that is not enabled.

**Containers.** `Czdi` is the chunk index format, `ArchiveFormat`, `ArchiveWriter` and `ArchiveReader` the directory
archive with its incremental parser and its prefetching serialiser, `ZipFormat`, `ZipWriter`, `ZipParse`, `ZipReader`
and `ZipRoundTrip` the ZIP64 container; `ZipStandard` spells out the records of sections 4.3 and 4.5.3 of the ZIP
APPNOTE, reads any archive made of them, and shows that the written ones are of this form.

## What does not hold

The models keep the code as it is. Five promises fail, each shown by a run or an input, with the exact condition:

- *Exactly one final block, on the last chunk.* The writer reads the task count and then whether the queue is closed.
  Whatever the options are, some run on a non-empty input flags no chunk at all (`PipelineFlags.UnflaggedRun`), so
  every run is right exactly when the input is empty (`PipelineFlags.AlwaysRightIff`). Call the limits serial when one
  chunk may be in flight, or when a byte limit is positive and at most the size of the last chunk. Some run is right
  exactly when the limits are not serial (`PipelineFlags.RightIff`); under serial limits, which the options allow, no
  output is ever a DEFLATE stream (`PipelineMeaning.SerialNeverMeans`). A chunk before the last one can be flagged
  exactly when the last two chunks fit the limits together while a third may be asked for (`PipelineFlags.EarlyIff`).
  `PipelineFlags.FinalMissing` and `PipelineFlags.FinalEarly` are such runs on one and two chunks.
- *Every chunk is written.* The same two reads decide whether the writer leaves. Some run loses a chunk exactly when
  there is one and the limits are not serial (`PipelineFlags.LossIff`); `PipelineFlags.ChunkLost` is such a run on one
  chunk. So for no options and no non-empty input are all runs right.
- *The pipeline makes progress.* A worker publishes only while the ready gate has room, and for the chunk the writer
  waits for that room may never come: it is stuck exactly when what is ready leaves none, or when the writer is
  already about to leave without it (`PipelineJam.StuckIff`). That is reached whenever a chunk or a batch and those
  that may be in flight behind it overfill the gate (`PipelineJam.JamIsReached`), also by a batch smaller than the
  gate (`PipelineJam.SmallBatchJams`). Let K be the number of chunks that may be in flight: the smaller of the chunk
  limit and the number of full chunks that reach the byte limit, of those that are set (`PipelineLimits.InFlight`).
  Every run on every input with compressed chunks of at most M octets can go on to its end exactly when one CPU worker
  does all the work, or K chunks of M octets fit the gate together (with a GPU worker that gets tasks), or K - 1 of
  them stay below it (otherwise); without any limit this holds for no M but zero (`PipelineJam.AllInputsEndIff`). With
  CPU workers only, the inputs that can jam are known one by one (`PipelineInputs.CpuJamIff`).
- *Every entry can be read back from the ZIP file.* The local header has no ZIP64 field, so the one compressed size
  2^32 - 1 cannot be told from the sentinel (`ZipRoundTrip.ZipSeeks`). In archives of other writers, which have that
  field, the uncompressed size is taken for the compressed one, so the length is right exactly when the two are equal
  (`ZipStandard.SentinelSeek`).
- *Every chunk can be planned.* A code that would be longer than 15 bits is not limited to them: the plan is refused
  exactly when the optimal tree is too deep (`DynamicPlan.BuildDynamicHuffmanPlan`). `SkewedPlan.SkewedIsRefused` has
  such frequencies, a symbol twice as frequent as the one before, although the format can carry codes for them
  (`SkewedPlan.FlatCode`).

## Premises

- A chunk is a self-contained DEFLATE stream whose layout is the walker's. For GPU chunks, whose layout comes from the
  end bit the batch reports, this is proved (`GpuChunks.FixedChunk`, `GpuChunks.DynamicChunk`), so the replacement
  after a failed self-check in src/cozip_deflate/src/gpu.rs:3617-3643, which keeps the old end bit, is not reached.
- The device runs a shader's threads to their end between two passes, in any order; `atomicOr` and `atomicAdd` lose
  nothing.
- flate2 yields a stream that inflates to its input; crc32fast is CRC-32; file back ends do exact positional reads and
  writes.
- Progress is stated for runs without errors.
- The counters `total_tasks`, `written_tasks` and `inflight_raw_bytes` are relaxed atomics in the source; the steps
  read and write them in one order that all threads see.

## Model

| member | source | states |
|---|---|---|
| BitWriter.UnalignedByteBits | src/cozip_deflate/src/lib.rs:2611-2621 | reading a byte at any bit position yields exactly the next eight bits, least significant first |
| BitWriter.DeflateBitWriter.constructor | src/cozip_deflate/src/lib.rs:2443-2454 | a new writer stands for the empty bit string |
| BitWriter.DeflateBitWriter.EmitBytes | src/cozip_deflate/src/lib.rs:2473-2520 | bytes leave in order whether they are buffered, flushed first or written directly |
| BitWriter.DeflateBitWriter.WriteBit | src/cozip_deflate/src/lib.rs:2522-2532 | appends one bit to the bit string written so far; carries into a new byte at the eighth |
| BitWriter.DeflateBitWriter.WriteByteBits | src/cozip_deflate/src/lib.rs:2534-2546 | appends eight bits at any alignment, splitting the byte over the carry |
| BitWriter.DeflateBitWriter.WriteBitsFromSlice | src/cozip_deflate/src/lib.rs:2548-2585 | bulk, unaligned-byte and single-bit paths all append exactly the requested bit range of the source |
| BitWriter.DeflateBitWriter.Finish | src/cozip_deflate/src/lib.rs:2587-2604 | everything written reaches the output, completed with zero bits to a byte |
| Cursor.DeflateBitCursor.ReadBits | src/cozip_deflate/src/lib.rs:2369-2375 | reads a field as the format defines it, or fails exactly where the data ends |
| Cursor.DeflateBitCursor.SkipBits | src/cozip_deflate/src/lib.rs:2381-2385 | moves on, or fails exactly where the data ends |
| HuffmanDecoder.BuildHuffmanDecoder | src/cozip_deflate/src/lib.rs:2623-2669 | the tables hold, for every code length and rank, the symbol of that length and rank; refused exactly for a length above 15 |
| HuffmanDecoder.DecodeHuffmanSymbol | src/cozip_deflate/src/lib.rs:2671-2703 | the table-driven reader agrees with canonical decoding by code length and rank, errors and end position included |
| Walker.ReadDynamicHuffmanTrees | src/cozip_deflate/src/lib.rs:2718-2784 | reads the two code tables as section 3.2.7 of RFC 1951 defines them, with every error case, and builds their decoders |
| Walker.ParseHuffmanBlockPayload | src/cozip_deflate/src/lib.rs:2786-2820 | ends where the payload of the format ends, and fails exactly when the format has none |
| Walker.ParseDeflateStreamLayout | src/cozip_deflate/src/lib.rs:2822-2866 | finds exactly the final header bit and end bit that the format gives the stream, and fails exactly when it has none |
| Transport.MoveBlock | src/cozip_deflate/src/lib.rs:2822-2866 | a block reads the same when the stream is moved by a multiple of 8 bits and only the bits of the block agree |
| Transport.MoveLayout | src/cozip_deflate/src/lib.rs:2822-2866 | the walker's result depends only on the bits before its end bit and moves with the stream |
| Transport.InflateLayout | src/cozip_deflate/src/lib.rs:2822-2866 | the walker ends where decompression ends |
| Join.ExpandBehind | src/cozip_deflate/src/lib.rs:3394-3425 | LZ77 frame: decoding behind earlier output only prepends that output |
| Join.ConnectorBlock | src/cozip_deflate/src/lib.rs:2928-2943 | the inserted connector is an empty non-final block that ends on a byte boundary, from any bit offset |
| Join.StepContinues | src/cozip_deflate/src/lib.rs:3396-3425 | a chunk written without a final flag adds its content to the output and decoding goes on behind it |
| Join.StepFinishes | src/cozip_deflate/src/lib.rs:3396-3425 | a chunk written with its final flag ends the stream with its content |
| Join.JoinEndsAtFirstFinal | src/cozip_deflate/src/lib.rs:3394-3425 | a joined stream decompresses to the chunks up to the first one flagged final, whatever follows |
| Join.JoinNeverEnds | src/cozip_deflate/src/lib.rs:3394-3425 | a joined stream without any final flag is not a DEFLATE stream |
| Join.JoinPreservesMeaning | src/cozip_deflate/src/lib.rs:3394-3425 | central law: joined with the final flag on the last chunk only, any mix of CPU and prepared GPU chunks decompresses to the concatenation of their contents, and the walker ends at the last bit written |
| Join.JoinMeaningIff | src/cozip_deflate/src/lib.rs:3394-3425 | for any final flags: the joined stream means all of the input if and only if the last chunk alone is flagged |
| ChunkPrepare.AppendBitToVec | src/cozip_deflate/src/lib.rs:2945-2955 | sets one more bit of a packed byte vector |
| ChunkPrepare.AppendEmptyStoredBlockNonFinalBits | src/cozip_deflate/src/lib.rs:2963-2974 | appends exactly the bits of a connector |
| ChunkPrepare.PrepareChunkBitsForNonFinalStream | src/cozip_deflate/src/lib.rs:2976-3006 | a GPU chunk with clean padding is prepared to its bits with BFINAL clear, followed by an alignment block where it ends inside a byte; all error cases |
| StreamWriter.WriteChunkBitsWithFinalOverride | src/cozip_deflate/src/lib.rs:2896-2926 | writes the stream up to its end bit with the final flag forced to the wanted value |
| StreamWriter.AppendEmptyStoredBlockNonFinal | src/cozip_deflate/src/lib.rs:2928-2943 | appends exactly the bits of a connector |
| StreamWriter.WriteChunk | src/cozip_deflate/src/lib.rs:3394-3442 | appends connector, chunk bits and alignment, and records an index entry that says where they start and end, which of them is the final header bit, and how many octets the chunk decompresses to; refused exactly when a length outgrows 32 bits |
| StreamWriter.WriteChunks | src/cozip_deflate/src/lib.rs:3370-3442 | the chunks in index order give the joined stream, and every index entry is right |
| StreamWriter.WriteStream | src/cozip_deflate/src/lib.rs:3531-3559 | the finished output is the joined stream padded to bytes; without any chunk it is the compressed empty input; refused exactly when the length of an entry has no field of 32 bits |
| CodeTables.LengthRanges | src/cozip_deflate/src/lib.rs:2315-2317 | the lengths of the symbols 257 to 284 follow one another from 3 to 258 without a gap, four symbols for every number of extra bits from one on; 285 stands for 258 alone |
| CodeTables.DistanceRanges | src/cozip_deflate/src/lib.rs:2318-2321 | the distances of the symbols 0 to 29 follow one another from 1 to 32768, two symbols for every number of extra bits |
| CodeTables.EveryMatchCoded | src/cozip_deflate/src/lib.rs:2806-2815 | every length from 3 to 258 with every distance from 1 to 32768 has a coded token |
| CodeTables.CodedWithin | src/cozip_deflate/src/lib.rs:2806-2815 | and no other token has one: a coded match has such a length and such a distance |
| CodeTables.CodedOnce | src/cozip_deflate/src/lib.rs:2806-2815 | only the length 258 can be coded in two ways |
| CodeTables.OrderRunsOutwards | src/cozip_deflate/src/lib.rs:2322-2324 | the transmission order is 16, 17, 18, 0 and then outwards from 8 |
| CodeTables.FixedLiteralCodes | src/cozip_deflate/src/lib.rs:2705-2710 | the code of each of the 288 fixed literal and length symbols is the one that section 3.2.6 of RFC 1951 lists |
| CodeTables.FixedDistanceCodes | src/cozip_deflate/src/lib.rs:2711 | each of the 32 fixed distance symbols is written as its own number in five bits |
| CodeTables.FixedBlockReadsBack | src/cozip_deflate/src/lib.rs:2846-2852 | header bits of type 1 and any tokens in the fixed codes read back as a block of exactly these tokens, whatever surrounds it |
| CodeTables.StoredBlockReadsBack | src/cozip_deflate/src/lib.rs:2832-2845 | header bits of type 0, alignment, the number of octets, its complement and the octets read back as these octets |
| CodeTables.FixedStreamMeans | src/cozip_deflate/src/lib.rs:2822-2866 | the walker ends a one-block stream in the fixed codes right behind its payload, and it decompresses to what its tokens expand to |
| CodeTables.ThirteenAlike | src/cozip_deflate/src/lib.rs:2806-2815 | thirteen equal octets as two literals and a match of length 11 at distance 1: 39 bits |
| Extract.CopyBitRange | src/cozip_deflate/src/lib.rs:2261-2312 | copies a bit range at any alignment, with zeros behind it; fails exactly when it is out of bounds |
| Extract.PrepareIndexedChunkForDecode | src/cozip_deflate/src/lib.rs:2180-2259 | computes the prepared chunk from the joined stream, with every error case |
| Extract.ExtractUndoesJoin | src/cozip_deflate/src/lib.rs:2180-2259 | for every chunk, carry and final flag the recorded entry leads back to exactly the chunk's original bits: leading connectors recomputed from the carry and trailing alignment blocks are stripped |
| Extract.ExtractedMeaning | src/cozip_deflate/src/lib.rs:2180-2259 | random access: the prepared bytes of chunk i decompress to that chunk's content and nothing else |
| Window.WindowPrepares | src/cozip_deflate/src/lib.rs:1577-1609 | preparing from the window at the relative offset is preparing from the whole stream |
| Window.Produce | src/cozip_deflate/src/lib.rs:1572-1688 | for any index and reads of any size: the chunks are prepared from the entries clipped to the window, accepted exactly when all of these can be prepared and the stream ends where the index says; on monotone offsets that is preparing every chunk from the whole stream |
| Window.MonotoneKeeps | src/cozip_deflate/src/lib.rs:1641-1651 | on monotone offsets the window never drops a byte that a later entry needs |
| Recover.WriteThenPrepare | src/cozip_deflate/src/lib.rs:1572-1688 | end to end: the recorded index is encoded and decoded again, the decode producer accepts it, what it prepares for chunk i decompresses to the content of chunk i, and the output ranges computed from the recorded lengths are the chunks' places in the input, whatever the final flags are |
| Recover.DecodedIsInput | src/cozip_deflate/src/lib.rs:1438-1742 | end to end, with the lengths that the index recorded: no run of the parallel decoder faults, and where one ends, its file is the input that was compressed, after any interleaving |
| Crc.Crc32Append | src/cozip_deflate/src/lib.rs:3960-3999 | the checksum of a concatenation is the checksum of the first part shifted by the second part's bits, combined with the second's |
| Crc.Gf2MatrixTimes | src/cozip_deflate/src/lib.rs:4001-4012 | the loop computes the product of the matrix over GF(2) with the vector |
| Crc.TimesRuns | src/cozip_deflate/src/lib.rs:4001-4012 | a matrix that represents n zero bits applies them to every vector |
| Crc.SquareDoubles | src/cozip_deflate/src/lib.rs:4014-4018 | the square of the matrix for n zero bits is the matrix for 2n zero bits |
| Crc.AdvanceZeroBytes | src/cozip_deflate/src/lib.rs:3966-3996 | the exponentiation loop applies exactly 8 * len zero bits |
| Crc.Crc32Combine | src/cozip_deflate/src/lib.rs:3960-3999 | returns the combination of the two checksums for any second length |
| Crc.CombinedIsAppend | src/cozip_deflate/src/lib.rs:3960-3999 | combining the checksums of two byte strings gives the checksum of their concatenation |
| Crc.CombineSlots | src/cozip_deflate/src/lib.rs:1720-1742 | the left-to-right fold over the chunk slots is the checksum and the length of the whole output |
| CrcPolynomial.PolyIsGenerator | src/cozip_deflate/src/lib.rs:3967 | the bits of the constant are the coefficients of the generator polynomial of CRC-32, power by power |
| CrcPolynomial.ShiftIsTimesX | src/cozip_deflate/src/lib.rs:3967-3972 | a register step multiplies by x modulo the generator polynomial |
| CrcPolynomial.CheckValue | src/cozip_deflate/src/lib.rs:3960-3999 | the checksum of the digits 1 to 9 is the check value 0xCBF43926 |
| CrcPolynomial.ChangeIsNoticed | src/cozip_deflate/src/lib.rs:3960-3999 | every change within four neighbouring octets changes the checksum |
| Canonical.CodeFits | src/cozip_deflate/src/lib.rs:4530-4559 | under Kraft's inequality every canonical code fits its length |
| Canonical.DecodeIff | src/cozip_deflate/src/lib.rs:2671-2703 | the reader accepts a symbol exactly where its canonical code stands |
| Canonical.PrefixFree | src/cozip_deflate/src/lib.rs:4530-4559 | no canonical code is the beginning of another one |
| HuffmanEncoder.BitWriter.WriteBits | src/cozip_deflate/src/lib.rs:4415-4425 | appends a field that fits its width, least significant bit first |
| HuffmanEncoder.BitWriter.Finish | src/cozip_deflate/src/lib.rs:4431-4437 | the octets hold the bits written, completed with zero bits |
| HuffmanEncoder.ReverseBits | src/cozip_deflate/src/lib.rs:4439-4447 | the result, written least significant bit first, is the code most significant bit first |
| HuffmanEncoder.BuildCanonicalCodes | src/cozip_deflate/src/lib.rs:4530-4559 | with saturating 16-bit counts and wrapping 16-bit codes, every symbol gets its canonical code reversed whenever Kraft's inequality holds; refused exactly for a length above the limit |
| HuffmanEncoder.WriteMessage | src/cozip_deflate/src/lib.rs:4415-4425 | writing with the code table appends the codes of the symbols in order |
| HuffmanEncoder.MessageRoundTrip | src/cozip_deflate/src/lib.rs:2671-2703 | what is written for a symbol sequence reads back as that sequence and stops at the right bit, whatever surrounds it |
| ReadBack.OctetsAreBytes | src/cozip_deflate/src/lib.rs:4415-4437 | the bits of the encoder's octets are the bits that the readers see in these bytes |
| ReadBack.WriteAndReadMessage | src/cozip_deflate/src/lib.rs:4530-4559 | for any lengths that satisfy Kraft's inequality with at most 15 bits, codes, writer, decoder tables and symbol reader together give every message back and stop behind its last code |
| CodeLengths.Pop | src/cozip_deflate/src/lib.rs:4492-4493 | takes the first element of the heap in the order of weight and index |
| CodeLengths.ReadDepths | src/cozip_deflate/src/lib.rs:4504-4521 | the stack walk gives every symbol its depth in the tree, at least 1, and the largest depth |
| MinimalMerge.MergeBound | src/cozip_deflate/src/lib.rs:4491-4501 | exchange argument: merging the two lightest items loses nothing against any code |
| HuffmanLengths.MergeAll | src/cozip_deflate/src/lib.rs:4491-4501 | the merging loop ends with one tree whose cost bounds every prefix code from below |
| HuffmanLengths.BuildHuffmanCodeLengths | src/cozip_deflate/src/lib.rs:4449-4528 | lengths are positive exactly for used symbols; with two or more the Kraft sum is exactly 1 for every bound below 255 that they keep and, for weights below 2^32 in total, no prefix code is shorter; with one symbol it has length 1; refused exactly when the optimal tree is deeper than the limit |
| Rle.EncodeCodeLengthsRle | src/cozip_deflate/src/lib.rs:4561-4606 | the symbols with their extra values stand for exactly the given lengths if and only if no length is above 15, and then every extra value fits its field |
| Rle.ItemsReadBack | src/cozip_deflate/src/lib.rs:2741-2778 | the table reader turns the coded runs back into the lengths, also where a run crosses from one table into the next |
| DynamicHeader.CodeLenReadsBack | src/cozip_deflate/src/lib.rs:2728-2733 | the code length lengths read back from their transmission order |
| DynamicHeader.TrimKeepsCodes | src/cozip_deflate/src/lib.rs:4646-4655 | leaving out trailing zero lengths changes no code |
| DynamicHeader.HeaderReadsBack | src/cozip_deflate/src/lib.rs:2718-2784 | the reader recovers both tables from the header and stops behind its last bit, whatever follows |
| DynamicPlan.WriteItems | src/cozip_deflate/src/lib.rs:4695-4707 | writes the coded runs; refused exactly when a symbol has no code |
| DynamicPlan.BuildDynamicHuffmanPlan | src/cozip_deflate/src/lib.rs:4618-4752 | for the frequencies passed in: a literal or length has a code exactly when it is counted or is the end of the block, a distance exactly when it is counted or is the first one and none is; no code for these symbols is shorter; the plan holds header, padding and code table, leaves out what need not be sent, and codes the runs in a shortest code; refused only for wrong table sizes or a too deep optimal tree for these frequencies |
| DynamicBlock.PlanReadsBack | src/cozip_deflate/src/lib.rs:2718-2784 | dynamic header round trip: the planned header reads back as exactly the planned lengths and consumes exactly its bits |
| ReadBack.PlanAndReadTrees | src/cozip_deflate/src/lib.rs:4618-4752 | from frequencies to octets and back: the planned lengths serve exactly the symbols counted in the two tables, and behind the block header the tree reader builds decoders for exactly these lengths and stops at header_bits |
| DynamicBlock.PlannedBlockReadsBack | src/cozip_deflate/src/lib.rs:4618-4752 | planned header, any tokens whose symbols the frequency tables passed to the planner count, literals and matches with their extra bits, and the end-of-block code read back as a final block of exactly these tokens |
| SkewedPlan.NoneIsShortest | src/cozip_deflate/src/lib.rs:4449-4528 | for frequencies that double from symbol to symbol no code of at most 15 bits is a shortest one |
| SkewedPlan.FlatCode | src/cozip_deflate/src/lib.rs:4618-4752 | and yet there is a code for them that the format can carry |
| SkewedPlan.SkewedIsRefused | src/cozip_deflate/src/lib.rs:4639-4644 | counterexample: the planner refuses these frequencies |
| GpuTokens.LongestMatch | src/cozip_deflate/src/shaders/tokenize.wgsl:121-266 | the longest match among the candidate distances of the mode within its limits, and the nearest of those; none exactly when no candidate matches three octets |
| GpuTokens.CandidatesForm | src/cozip_deflate/src/shaders/tokenize.wgsl:53-118 | behind the first nine candidates powers of two and three times a power of two alternate, up to 512, 8192 or 32768 |
| GpuTokens.LongestOfMode | src/cozip_deflate/src/shaders/tokenize.wgsl:29-51 | the limits on length and scan together: no match is longer than 64, 128 or 195 octets |
| GpuTokens.LazyRule | src/cozip_deflate/src/shaders/token_finalize.wgsl:23-60 | a match is taken unless the next position has a longer one, by two octets for the best ratio; for speed always |
| GpuTokens.FinalizeSegment | src/cozip_deflate/src/shaders/token_finalize.wgsl:32-89 | the tokens chosen in a segment lie one behind the other from its start to its end, each a match cut off at the segment or a literal by the lazy rule |
| GpuTokens.TilesExpand | src/cozip_deflate/src/shaders/token_finalize.wgsl:32-89 | true tokens that tile the input expand to it |
| GpuTokens.ChooseTokens | src/cozip_deflate/src/shaders/token_finalize.wgsl:32-89 | for any input, mode and segment size the chosen tokens are in the ranges of the format and expand to the input |
| GpuSymbols.LitlenSymbolForLen | src/cozip_deflate/src/shaders/dyn_map.wgsl:51-83 | the search gives the symbol and the extra value of every length, 285 exactly for 258 |
| GpuSymbols.DistSymbolForDist | src/cozip_deflate/src/shaders/dyn_map.wgsl:85-117 | the search gives the symbol and the extra value of every distance |
| GpuScan.DoublingStep | src/cozip_deflate/src/shaders/scan_blocks.wgsl:36-50 | one step between two barriers doubles the number of summands of every position |
| GpuScan.PrefixScan | src/cozip_deflate/src/shaders/scan_add.wgsl:18-26 | block scans, scanned block sums and their addition give the prefix sums of any number of values and their total |
| GpuPack.PackCode | src/cozip_deflate/src/shaders/bitpack.wgsl:38-50 | shifted into its word and what does not fit into the next one, a code is combined with exactly the bits at its place |
| GpuPack.Pack | src/cozip_deflate/src/shaders/bitpack.wgsl:27-62 | all tokens at the prefix sums of their lengths, whatever order the threads run in: their codes stand one behind the other |
| GpuCoder.AppendBits | src/cozip_deflate/src/shaders/dyn_map.wgsl:119-143 | the value follows the bits of the field, also over the boundary between its two words |
| GpuCoder.FixedFields | src/cozip_deflate/src/shaders/litlen.wgsl:49-194 | the row of fields is the row of the chosen tokens in the fixed codes, each at the place the prefix sum of the flags gives it |
| GpuCoder.CountTokens | src/cozip_deflate/src/shaders/freq.wgsl:108-176 | every symbol of every chosen token is counted once |
| GpuCoder.PlannedFields | src/cozip_deflate/src/shaders/dyn_map.wgsl:146-184 | looked up in the table of the plan, the row of fields is the row of the chosen tokens in the planned codes |
| GpuChunks.FixedChunk | src/cozip_deflate/src/gpu.rs:2558-2925 | for any input, mode, segment size and order of the threads: what is returned decompresses to the input, ends at the reported bit and has clear padding; with a buffer of 12 bits for every octet and 2048 more there always is such a result |
| GpuChunks.DynamicChunk | src/cozip_deflate/src/gpu.rs:2927-4180 | the same in planned codes, from the chosen tokens over their frequencies and the plan to the packed block; no plan only when one of its codes would be too long |
| CodeSizes.ShortestSize | src/cozip_deflate/src/lib.rs:4449-4528 | a shortest code for at most 2^n symbols takes at most n bits a symbol on average, whatever the message is |
| PlanSizes.HeaderSmall | src/cozip_deflate/src/lib.rs:4618-4752 | a planned header has at most 1654 bits, because the code for its runs is a shortest one |
| GpuSizes.FixedRowSmall | src/cozip_deflate/src/gpu.rs:2777-2784 | in the fixed codes the chosen tokens take at most 12 bits for every octet of input |
| GpuSizes.PlannedRowSmall | src/cozip_deflate/src/gpu.rs:3514-3521 | so they do in planned codes, with the end of the block, because these codes are shortest ones |
| GpuStream.CompressPiece | src/cozip_deflate/src/gpu.rs:1506-1520 | with the buffers that the slots have no output is too large, so neither mode ever leaves a piece to the CPU; the only failure is a code that would be too long |
| GpuStream.CompressStream | src/cozip_deflate/src/lib.rs:3394-3425 | from raw pieces to one stream, end to end: compressed on the GPU, prepared and joined, they decompress to the pieces one behind the other |
| PipelineInvariant.PartitionStep | src/cozip_deflate/src/lib.rs:3294-3464 | every step moves chunks between queue, workers, ready, the writer and the output without losing or doubling any |
| PipelineInvariant.CountersStep | src/cozip_deflate/src/lib.rs:3270-3464 | every step keeps queued_bytes, ready_bytes and inflight_raw_bytes equal to the true sums |
| PipelineSafety.PublishIsFresh | src/cozip_deflate/src/lib.rs:3704-3716 | a finished chunk is never published under an index that is already there |
| PipelineRuns.SafeOnEveryRun | src/cozip_deflate/src/lib.rs:3270-3464 | safety on every run of any interleaving of CPU and GPU workers: partition, counters, program points, no duplicate index |
| PipelineRuns.NothingSaturates | src/cozip_deflate/src/lib.rs:3370-3463 | no saturating or wrapping subtraction of a counter ever saturates or wraps |
| PipelineRuns.WrittenInOrder | src/cozip_deflate/src/lib.rs:3370-3442 | chunks are written in index order, each once |
| PipelineRuns.LimitedOnEveryRun | src/cozip_deflate/src/lib.rs:3294-3313 | the gates hold: the chunks in flight never exceed their limit, the raw bytes by at most one chunk |
| PipelineLimits.InFlight | src/cozip_deflate/src/lib.rs:3294-3313 | whichever limits are set, while the writer polls no more chunks are between reading and writing than the smaller of the chunk limit and the number of full chunks that reach the byte limit |
| PipelineLimits.GpuIdleStep | src/cozip_deflate/src/lib.rs:3581-3583 | when no full chunk is large enough for the GPU, its worker never gets a task |
| PipelineProgress.GateOpen | src/cozip_deflate/src/lib.rs:3690-3698 | while the writer waits for a chunk and the chunks behind it cannot fill the gate, the gate is open for CPU workers |
| PipelineProgress.BatchFits | src/cozip_deflate/src/lib.rs:3875-3891 | when the chunks that may be in flight fit the gate together, every GPU batch fits beside what is ready |
| PipelineAlone.NothingReady | src/cozip_deflate/src/lib.rs:3597-3615 | with a single CPU worker nothing is ready while the writer waits, whatever the limits and sizes are |
| PipelineProgress.NeverStuck | src/cozip_deflate/src/lib.rs:3585-3923 | under any limits, a single CPU worker or a gate that is wide enough for the chunks that may be in flight: every unfinished state has a step other than an idle poll |
| PipelineProgress.StepRank | src/cozip_deflate/src/lib.rs:3270-3510 | no step of any configuration moves away from the end, and every step but an idle poll brings it closer |
| PipelineEnd.ProductiveBounded | src/cozip_deflate/src/lib.rs:3270-3510 | on every run the steps that are not idle polls are bounded by the rank of its first state |
| PipelineEnd.ReachesEnd | src/cozip_deflate/src/lib.rs:3270-3510 | from every such reachable state the run that prefers other steps to idle polls ends, with every chunk written unless the run was lost before |
| PipelineEnd.RunsToEnd | src/cozip_deflate/src/lib.rs:3270-3510 | so some run from the start writes every chunk and ends |
| PipelineFair.EndlessRunStarves | src/cozip_deflate/src/lib.rs:3270-3510 | termination under any fair scheduler: a run without end lets some thread other than the writer wait for ever although it could always step |
| PipelineEnd.WorkersLeave | src/cozip_deflate/src/lib.rs:3585-3719 | after a complete exit every worker can leave, so joining them succeeds |
| PipelineFlags.LossIff | src/cozip_deflate/src/lib.rs:3466-3475 | some run loses a chunk if and only if there is one and the limits are not serial: more than one chunk may be in flight and no byte limit is reached by the last chunk alone |
| PipelineFlags.SerialOnEveryRun | src/cozip_deflate/src/lib.rs:3294-3313 | under serial limits no run loses a chunk and no run ever flags one as final |
| PipelineFlags.ChunkLost | src/cozip_deflate/src/lib.rs:3466-3475 | counterexample: a run that ends with its only chunk unwritten |
| PipelineFlags.RightIff | src/cozip_deflate/src/lib.rs:3389-3394 | some run writes everything with exactly the last chunk final if and only if the input is empty or the limits are not serial |
| PipelineFlags.AlwaysRightIff | src/cozip_deflate/src/lib.rs:3389-3394 | every run is right if and only if the input is empty |
| PipelineFlags.UnflaggedRun | src/cozip_deflate/src/lib.rs:3389-3394 | whatever the options are, some run writes every chunk and flags none |
| PipelineFlags.FinalMissing | src/cozip_deflate/src/lib.rs:3389-3394 | counterexample: a run whose output has no final block |
| PipelineFlags.EarlyIff | src/cozip_deflate/src/lib.rs:3389-3394 | some run flags a chunk before the last one if and only if the last two chunks fit the limits together while a third may be asked for |
| PipelineFlags.FinalEarly | src/cozip_deflate/src/lib.rs:3389-3394 | counterexample: a run that flags a chunk before the last as final |
| PipelineJam.StuckIff | src/cozip_deflate/src/lib.rs:3879-3891 | a worker that holds the chunk the writer waits for is stuck for ever if and only if what is ready leaves no room for it, or the writer is already about to leave |
| PipelineJam.JammedForever | src/cozip_deflate/src/lib.rs:3879-3891 | from a jam on the chunk is never published nor written, and the writer never leaves |
| PipelineJam.JamIsReached | src/cozip_deflate/src/lib.rs:3690-3717 | under any limits, a jam is reached whenever one chunk or a batch, together with those that may be in flight behind it, overfills the gate, for a GPU batch and for CPU workers |
| PipelineJam.SmallBatchJams | src/cozip_deflate/src/lib.rs:3879-3891 | counterexample: five octets of input, a GPU batch of five octets jams behind a gate of six |
| PipelineJam.AllInputsEndIff | src/cozip_deflate/src/lib.rs:3217-3226 | for all options: every run on every input with compressed chunks of at most M octets can go on to its end if and only if one CPU worker does all the work or the gate is wide enough: K * M at most the gate with a GPU worker that gets tasks, (K - 1) * M below it otherwise, where K chunks may be in flight, and M zero when there is no limit |
| PipelineInputs.CpuJamIff | src/cozip_deflate/src/lib.rs:3597-3717 | CPU workers only, under any limits: a given input can jam the pipeline if and only if there are two workers and the chunks that may be in flight behind some chunk fill the gate |
| PipelineMeaning.OutputMeansInputIff | src/cozip_deflate/src/lib.rs:3389-3425 | what a run delivers, the compressed empty input included, decompresses to the whole input if and only if every chunk was written and the last alone flagged final |
| PipelineMeaning.SerialNeverMeans | src/cozip_deflate/src/lib.rs:3294-3425 | under serial limits the output on a non-empty input is never a DEFLATE stream |
| PipelineMeaning.SomeRunMeansIff | src/cozip_deflate/src/lib.rs:3294-3425 | some run delivers a stream that means the input if and only if the limits are not serial or there is no input |
| PipelineJam.ChunkLimitEndsIff | src/cozip_deflate/src/lib.rs:3217-3226 | under a limit of k chunks: with a GPU worker that gets tasks all runs on all inputs can end if and only if no chunk grows by its compression; without one if and only if k - 1 compressed chunks are shorter than k full ones, or one worker does all the work |
| PipelineJam.ByteLimitEndsIff | src/cozip_deflate/src/lib.rs:3217-3219 | under a byte limit of at most one chunk all runs on all inputs can end if and only if no GPU worker gets tasks, or no chunk grows by its compression |
| ParallelDecode.OutputOffsets | src/cozip_deflate/src/lib.rs:1383-1398 | every chunk goes behind all earlier ones; the index is refused exactly when its sizes do not add up |
| ParallelDecode.RangesApart | src/cozip_deflate/src/lib.rs:1383-1398 | the output ranges computed from the index do not overlap |
| ParallelDecode.InvStep | src/cozip_deflate/src/lib.rs:1438-1560 | every step keeps: no chunk submitted twice, no slot filled twice, true byte count, only chunks of the recorded length are submitted, pieces of different chunks never overwrite each other |
| ParallelDecode.DecodedInOrder | src/cozip_deflate/src/lib.rs:1438-1560 | when all workers have left without a fault, after any interleaving of workers and positional writes, the recorded lengths were right, the file is the concatenation of the decoded chunks in index order, and every checksum slot is right |
| ParallelDecode.FoldSlots | src/cozip_deflate/src/lib.rs:1720-1742 | the reported checksum and length are those of the file |
| ParallelDecode.StepRank | src/cozip_deflate/src/lib.rs:1438-1560 | every step but one that faults brings the end closer |
| ParallelDecode.NeverStuck | src/cozip_deflate/src/lib.rs:1438-1635 | without a fault a run stops only when the workers have left and all bytes have landed |
| ParallelDecode.NoFault | src/cozip_deflate/src/lib.rs:2168-2178 | with the right lengths in the index no run faults |
| ParallelDecode.RunsToEnd | src/cozip_deflate/src/lib.rs:1438-1742 | and some run ends with all bytes landed |
| ParallelDecode.QueueBounded | src/cozip_deflate/src/lib.rs:1622-1637 | on every run the prepared chunks that wait stay below the queue limit and one chunk more |
| Czdi.AppendUleb128 | src/cozip_deflate/src/lib.rs:824-836 | appends the number in groups of seven bits |
| Czdi.ReadUleb128 | src/cozip_deflate/src/lib.rs:838-853 | reads up to ten groups with 64-bit truncation, with both error cases |
| Czdi.UlebReadsBack | src/cozip_deflate/src/lib.rs:824-853 | every 64-bit number reads back at any position, whatever surrounds it |
| Czdi.EncodeCzdiV1 | src/cozip_deflate/src/lib.rs:673-719 | encodes exactly the indexes with matching count, monotone offsets and an encodable table; names the first reason otherwise |
| Czdi.DecodeCzdiV1 | src/cozip_deflate/src/lib.rs:721-821 | whatever starts with an encoded index gives that index, and whatever is accepted is an index that encodes |
| Czdi.TableReadsBack | src/cozip_deflate/src/lib.rs:768-806 | delta decoding inverts delta encoding from any entry on |
| Czdi.CzdiRoundTrip | src/cozip_deflate/src/lib.rs:673-821 | every index that encodes decodes to itself, also when other bytes follow |
| Czdi.DamageIsRefused | src/cozip_deflate/src/lib.rs:761-775 | a table that was changed within four neighbouring octets is refused for its checksum |
| Czdi.SmallUlebs | src/cozip_deflate/src/lib.rs:824-836 | the groups of seven bits of some numbers, the lowest first |
| Czdi.HeaderStartForm | src/cozip_deflate/src/lib.rs:704-707 | the header starts with the letters CZDI, the version 1 and the flags 3 |
| Czdi.TableCrcCheckValue | src/cozip_deflate/src/lib.rs:701-701 | the checksum of a table is CRC-32: its check value |
| Czdi.DecodedIsEncodable | src/cozip_deflate/src/lib.rs:721-821 | the other direction: every accepted byte string gives an index with matching count, monotone offsets, fields in range and a table that fits |
| IndexLink.WriterIndexRoundTrip | src/cozip_deflate/src/lib.rs:3427-3442 | the index the stream writer records is monotone, so it encodes and decodes to itself |
| ArchiveFormat.FeedInPieces | src/cozip/src/lib.rs:4817-4997 | feeding octets in pieces is feeding them at once |
| ArchiveFormat.ArchiveReads | src/cozip/src/lib.rs:5315-5339 | a valid archive reads as its entries and ends there |
| ArchiveFormat.SmallArchive | src/cozip/src/lib.rs:65-69 | an archive of a directory and a file, octet by octet |
| ArchiveFormat.AcceptedIff | src/cozip/src/lib.rs:4817-4997 | exactly the archives of the format are read to their end, and each only as its own entries |
| ArchiveWriter.PDeflateArchiveWriter.ProcessBuffer | src/cozip/src/lib.rs:4817-4997 | goes on until more octets are needed without changing what the octets mean; fails exactly when they are not the beginning of an archive |
| ArchiveWriter.PDeflateArchiveWriter.Write | src/cozip/src/lib.rs:5001-5006 | takes one piece more |
| ArchiveWriter.PDeflateArchiveWriter.Finish | src/cozip/src/lib.rs:4796-4815 | accepts exactly at the end of an archive, and names the reason otherwise |
| ArchiveWriter.ReadArchive | src/cozip/src/lib.rs:4796-5007 | for any cutting into writes: accepted exactly for archives of the format, with their entries, and the fragments of every file tile its content |
| ArchiveReader.PDeflateArchiveReader.FillPrefetchQueue | src/cozip/src/lib.rs:4395-4431 | submits requests of 4 MiB in file order until 64 are under way, the file has been asked for to its end, or 2 GiB, for the current file 256 MiB more, are held and asked for; with the reserve the current file always gets one |
| ArchiveReader.PDeflateArchiveReader.PrimePrefetch | src/cozip/src/lib.rs:4443-4488 | opens at most 64 files ahead without changing what will be handed out; files other than the current one hold no more than 2 GiB |
| ArchiveReader.PDeflateArchiveReader.RefillPendingIfNeeded | src/cozip/src/lib.rs:4490-4536 | moves to the next record head or the end tag |
| ArchiveReader.PDeflateArchiveReader.ServeCurrent | src/cozip/src/lib.rs:4553-4621 | hands out a piece of the current file or its end; one of the two is always possible, so the loop never spins |
| ArchiveReader.PDeflateArchiveReader.Read | src/cozip/src/lib.rs:4540-4635 | hands out the next octets of the archive and comes back short only at its end |
| ArchiveReader.ReadInPieces | src/cozip/src/lib.rs:4540-4635 | reads of any sizes together are the beginning of the archive, and all of it once a read comes back short |
| Dispatch.InvStep | src/cozip/src/lib.rs:5136-5229 | every step keeps the queue order, the byte count, every file's fragment count and the account of all fragments |
| Dispatch.NothingSaturates | src/cozip/src/lib.rs:5136-5229 | queued_bytes and every queued_fragments are the true counts, and no subtraction saturates |
| Dispatch.DrainBarrier | src/cozip/src/lib.rs:4729-4783 | once the wait of finish_dispatch has passed, every enqueued fragment has been submitted exactly once, and nothing is submitted while the writers are drained |
| Dispatch.EveryPutSubmitted | src/cozip/src/lib.rs:4729-4783 | and the data of every write of the parser exactly once, to its file and at its place |
| Dispatch.BacklogBounded | src/cozip/src/lib.rs:5204-5215 | on every run less than 2 GiB and the longest fragment wait in the queue |
| Dispatch.EnqueueIff | src/cozip/src/lib.rs:5204-5215 | the parser waits exactly while 2 GiB or more are queued |
| Dispatch.RunsToEnd | src/cozip/src/lib.rs:4729-4783 | every job has a run to its end |
| Dispatch.StepRank | src/cozip/src/lib.rs:5136-5229 | every step brings the end closer |
| Dispatch.NeverStuck | src/cozip/src/lib.rs:4729-4783 | a run stops only when the dispatch threads can be joined |
| ZipWriter.ResolveCzdiWritePlan | src/cozip/src/lib.rs:109-159 | large index blobs go one behind the other into the shared area; refused exactly when it outgrows 32 bits |
| ZipWriter.ZipWriteState.WriteEntry | src/cozip/src/lib.rs:3305-3375 | appends local header, payload and data descriptor and keeps the entry; refused exactly for a name, offset or index that has no field |
| ZipWriter.ZipWriteState.Finish | src/cozip/src/lib.rs:3377-3500 | appends central directory and end records; refused exactly when the index area or the archive outgrows its fields |
| ZipReader.FindEocd | src/cozip/src/lib.rs:5576-5584 | finds the last end-record signature with a whole record behind it, none exactly when there is none |
| ZipReader.ReadEocd | src/cozip/src/lib.rs:4198-4349 | an archive without ZIP64 records gives exactly the three numbers of its end record, a written archive its entry count, directory and shared area; refused as too small or without end record exactly when it is |
| ZipReader.ParseZip64ExtraField | src/cozip/src/lib.rs:5612-5694 | in any list of extra fields the first ZIP64 field gives exactly the numbers that are asked for, in their order; refused when it is too short, nothing without such a field |
| ZipReader.ReadCzdiIndexBestEffort | src/cozip/src/lib.rs:5015-5121 | in any list of extra fields the first CZDI field gives the index that the writer stored for the entry, inline or in the shared area |
| ZipReader.ReadCentralDirectoryEntries | src/cozip/src/lib.rs:3797-3962 | an ordinary archive gives all of its entries with their own numbers, and so does a written one, chunk indexes included |
| ZipReader.PositionReaderAtEntryData | src/cozip/src/lib.rs:4134-4181 | from any local header the seek lands behind its name and its extra fields with the length of the directory; from the local part of a written entry it finds the payload, exactly unless the length is 2^32 - 1 |
| ZipStandard.PlainEndReads | src/cozip/src/lib.rs:4243-4275 | an end record of section 4.3.16 of the APPNOTE, field by field, without a locator in front: exactly its total, size and offset, or refused for a sentinel |
| ZipStandard.CommentlessEndReads | src/cozip/src/lib.rs:4243-4275 | in particular an archive that ends with a record without a comment and has no locator gives its three numbers |
| ZipStandard.FarEndIsNotFound | src/cozip/src/lib.rs:4209-4226 | an end record is found exactly in the last 65557 octets |
| ZipStandard.AnyZip64EndReads | src/cozip/src/lib.rs:4277-4349 | behind a locator, the numbers are those of the ZIP64 record that it points to |
| ZipStandard.AnyRecordReads | src/cozip/src/lib.rs:3821-3953 | any directory record of section 4.3.12, each of its three numbers short or in the ZIP64 field: reported with its own numbers, comment and extra fields skipped; other methods and encrypted entries refused |
| ZipStandard.NoIndexField | src/cozip/src/lib.rs:5015-5121 | a directory record without a field of the chunk index is reported without an index |
| ZipStandard.OrdinaryArchiveReads | src/cozip/src/lib.rs:3797-3962 | an ordinary archive gives all of its entries |
| ZipStandard.AnySeek | src/cozip/src/lib.rs:4134-4181 | any local header of section 4.3.7 with any name and extra fields is passed |
| ZipStandard.SentinelSeek | src/cozip/src/lib.rs:4168-4178 | for an entry of 2^32 - 1 octets the seek takes the first number of the local ZIP64 field, the uncompressed size, so its length is right if and only if the two sizes are equal |
| ZipStandard.LocalHeaderForm | src/cozip/src/lib.rs:3318-3330 | a written local header is one of section 4.3.7 |
| ZipStandard.DirectoryRecordForm | src/cozip/src/lib.rs:3384-3423 | a written directory record is one of section 4.3.12 with all numbers in the ZIP64 field |
| ZipStandard.EndRecordForm | src/cozip/src/lib.rs:3475-3491 | a written end record is one of section 4.3.16, with sentinels for numbers that are too large |
| ZipStandard.Zip64EndForm | src/cozip/src/lib.rs:3436-3468 | the written ZIP64 end records are those of sections 4.3.14 and 4.3.15 |
| ZipStandard.DescriptorReads | src/cozip/src/lib.rs:3346-3350 | behind every written payload stand its checksum and both sizes, eight octets each |
| ZipStandard.CzdiExtraForm | src/cozip/src/lib.rs:161-203 | the chunk index field octet by octet, inline exactly while both extra fields of the entry have room for it |
| ZipStandard.AreaRecordForm | src/cozip/src/lib.rs:205-217 | the shared area octet by octet |
| ZipRoundTrip.FieldFound | src/cozip/src/lib.rs:5612-5694 | in any list of extra fields the search finds the payload of the first field with the tag |
| ZipRoundTrip.IndexReads | src/cozip/src/lib.rs:161-352 | an entry's index comes back whether it is stored inline, in the shared area or not at all |
| ZipRoundTrip.EndReads | src/cozip/src/lib.rs:4198-4349 | the end records of a written archive read back whatever the archive holds |
| ZipRoundTrip.RecordReads | src/cozip/src/lib.rs:3821-3953 | a written directory record reads back as its entry |
| ZipRoundTrip.ZipRoundTrips | src/cozip/src/lib.rs:3797-3962 | container round trip: every entry's name, flags, checksum, sizes, offset and chunk index come back |
| ZipRoundTrip.ZipSeeks | src/cozip/src/lib.rs:4134-4181 | the seek lands on the payload of every entry, exactly unless its length is 2^32 - 1 |

## Left out

- GPU device handling, buffers, profiling modes and the plan cache; the decode shader, whose worker is not used.
- The pipelines take a GPU batch as a list of compressed chunks with their sizes; `GpuChunks` says what these are.
- GpuTokens.LongestMatch: words of four octets are compared octet by octet instead of by the zeros of their
  difference.
- GpuCoder.CountTokens: the counts per workgroup and their sum are one count; counters do not wrap at 32 bits, here,
  in `GpuScan` and in `GpuPack`, which would need chunks of more than 85 MB.
- GpuChunks.FixedChunk: an output that does not fit its buffer is not packed at all, because the source discards it;
  with the source's buffer sizes there is none.
- flate2, crc32fast and the file reader and writer back ends: used by their contracts only.
- The PDeflate codec and the prefetch reader in src/cozip_pdeflate/src/lib.rs.
- Error runs of the pipelines: `set_error` wakes nobody, so no progress is claimed once an error is set.
- Lost wake-ups: condition variables appear as guards of steps, so the notifications themselves (such as the
  low-watermark notification of the decode producer) are not part of the models.
- The in-order indexed decoder (src/cozip_deflate/src/lib.rs:1060-1270): it has the shape of the parallel one without
  positional writes and would add only easy members.
- Integer overflow of usize and u64 sums that would need more than 2^64 bytes of data, in counters, offsets and bit
  counts.
- Statistics, timing, trace logs, progress reporting, async wrappers.
- File names: they are opaque byte strings, and which of them the archive parser accepts as paths is a parameter.
- Aborted writers: after a refused ZIP entry or a rejected archive piece nothing is said about the object.
- HuffmanEncoder.BitWriter.WriteBits: the field must fit its width, because the source does not mask it.
- HuffmanDecoder.BuildHuffmanDecoder: the source keeps symbols and counts in 16 bits, refuses a symbol above 65535 and
  stops counting there; the model does not, because its callers pass at most 320 lengths.
- HuffmanLengths.BuildHuffmanCodeLengths: at the limit 255 a length of 255 may stand for a deeper leaf, because the
  source's depth counter stops there, and nothing is said about the Kraft sum then; callers use 7 and 15. Optimality
  is stated for frequencies below 2^32 in total, because the weights saturate there.
- PipelineInputs.CpuJamIff: which single inputs jam when the GPU works as well depends on which coder gets which chunk
  and is not characterised input by input; over all inputs of a size bound the condition is exact.
- Window.Produce: the wait on the decode queue is part of the parallel decoder's step system, not of the producer's
  loop.
- ArchiveReader.PDeflateArchiveReader.PrimePrefetch: a file may be opened twice, and what a second handle has read
  ahead is never handed out; the model keeps this and claims nothing about it. A file yields as many octets as its
  entry says.
- Dispatch.DrainBarrier: the writers' own queues are not modelled; that positional writes in any order give the file
  is shown for the parallel decoder.
- ZipWriter.ZipWriteState.WriteEntry: the payload, its checksum and its sizes are given by the compressor; copying a
  payload from a spool file is the same with another source.
