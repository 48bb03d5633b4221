# Verified models of the course programs

Models, in Dafny, of the algorithms and protocols in this repository that are hard to get right, with proofs of
what they are for. `dafny verify dfyconfig.toml` checks the whole project.

**DEFLATE, as `miniz.c` implements it** (RFC 1951; checksum of RFC 1950). The compressor's and the
decompressor's arrays, cursors and bit buffers are modelled as they are updated, and joined end to end:
`Codec.RoundTrip` shows that any data, under any parsing and block options, comes back, `Codec.FlushedRoundTrip`
that they do after any sequence of calls and flushes, and `Codec.ZlibRoundTrip` and `Codec.FlushedZlibRoundTrip` that
they do with the zlib header and checksum around them.

| module | what it models |
|---|---|
| `Huffman`, `MinRedundancy` | Huffman's construction and its optimality; the in-place three-phase computation of code lengths, and the Fibonacci bound on them |
| `RadixSort`, `LengthLimit`, `HuffmanTable` | the symbol sort, the length limiter, and the whole way from counts to code tables |
| `LimitCost`, `NearOptimal`, `BlockSize` | what the length limiter costs at most; limited tables against any prefix code; why no block fills the output buffer |
| `CanonicalCode`, `DecodeTable`, `HuffmanRoundTrip` | canonical codes, bit-reversed; the lookup table and tree of the decoder; coding and decoding |
| `CodeSizePacking`, `DynamicHeader`, `BlockForm` | run-length form of code sizes; the header of a dynamic block, written and read; static and dynamic blocks |
| `HashChain`, `ParseTrace` | the rolling hash, what the hash chains hold and where a search leads; the turns of the parse and the tokens that follow from them |
| `LzMatching`, `LzParser` | the ring with its mirror, match finding, lazy parsing; the compressor object |
| `Tokens`, `LzCodes`, `BitStream`, `BitOutput`, `BitEmitter` | length and distance symbols; the token buffer; bit streams; the 32-bit and the 64-bit block writer |
| `FlushBlock`, `BlockSink` | one flush: compressed, raw or fallback block, marker, output buffer; the stream over all flushes |
| `InflateBlock`, `Blocks`, `ZlibStream`, `Codec` | decoding a block, a stream of blocks, a stream with header and checksum; the round trips |
| `SecondHeader` | the input for which a zlib stream cannot be read back |
| `Adler32`, `ZipIndex` | the checksum; the sorted name index of a ZIP reader |

**The other programs**

| module | what it models |
|---|---|
| `ExternalSort` | the distributed external sort: slices, buffered runs, k-way merge |
| `Wavefront`, `WavefrontFarm`, `WavefrontMpi` | the sequential wavefront; its emitter/worker farm as a state machine over all interleavings; its block-allgather version |
| `Cholesky` | block Cholesky: the task graph with declared parameters, any legal order against the sequential program |
| `OnDemandFarm` | the on-demand scheduler with ready flags and backlog |
| `ThreadPool` | the self-stopping pool and the tree traversal that runs on it, over all interleavings |
| `MatrixChain` | matrix-chain ordering against all binary parenthesizations |
| `Strassen` | Strassen's divide and combine on strided views |

`Arith`, `Bits` and `Wrappers` hold powers of two and sums, shifts and masks, and `Option`.

Conventions. Numbers are unbounded; where the program wraps or truncates, the model says so (`% 0x1_0000_0000`).
A bit buffer is a number, read from its lowest bit. Matrix elements are reals, or uninterpreted blocks with
uninterpreted kernels; the cube root is any function with f(0) = 0 where zero matters. Reading a file delivers what is
asked for or what is left. A class has the fields of the program's object; its ghost fields record history. The models
follow the code. Where it falls short of its purpose they say exactly when, and give an input:

- The MPI wavefront sets no bound on the number of ranks. It destroys a cell when there is one rank more than rows
  (`WavefrontMpi.CornerLost`), and leaves the matrix when there are more (`WavefrontMpi.FirstPhase`).
- With a zlib header the compressor counts its blocks in 32 bits. What it writes has one header exactly if there are at
  most 2^32 blocks (`BlockSink.OneHeadExactly`); then it can be read back (`Codec.FlushedZlibRoundTrip`). With one block
  more there is a second header, and the decompressor may reject the stream (`SecondHeader.FlushedTooOften`).
- The sorted search of the ZIP reader casts the length of a name to 32 bits, and so finds the cut name
  (`ZipIndex.LocateBinary`, `ZipIndex.CutNameIsFound`).

The other way round, the fallback for a dynamic block that does not fit the output buffer, and the assertion behind it,
are shown never to be needed (`BlockSize.BlockLen`).

## Model

| member | source | states |
|---|---|---|
| Codec.RoundTrip | SMP_unipi_lab/example7/ffc/miniz/miniz.c:2043-2057 | The law of the whole codec: any data, compressed in one piece with any parsing and block options, decompresses to exactly that data if and only if the output buffer is large enough; otherwise the decoder fills the buffer with the beginning of the data and asks for more room, and never reports damaged data |
| Codec.FlushedRoundTrip | SMP_unipi_lab/example7/ffc/miniz/miniz.c:1877-1942 | Data passed in any number of calls, with any mixture of no, sync and full flushes in between and a finish at the end, decompress to the concatenation of all of them exactly if it fits, and otherwise to as much of it as does; no flush loses or repeats a byte |
| Codec.FlushedZlibRoundTrip | SMP_unipi_lab/example7/ffc/miniz/miniz.c:1877-1942 | The same with the zlib header and the checksum around the blocks, whenever the flushes asked for, one block for every 31745 bytes, and the last block make at most 2^32 blocks |
| SecondHeader.FlushedTooOften | SMP_unipi_lab/example7/ffc/miniz/miniz.c:1250-1254 | With more blocks it fails, and this input shows it: after 2^32 sync flushes without data the last block has the number 0 again and gets a second header, and the decompressor rejects what was handed out, however much room it has |
| SecondHeader.IsRejected | SMP_unipi_lab/example7/ffc/miniz/miniz.c:1250-1310 | The bits of the second header, the empty last block, its padding and the checksum are, bit for bit, a raw block whose length is not followed by its complement |
| BlockSink.OneHeadExactly | SMP_unipi_lab/example7/ffc/miniz/miniz.c:1250-1254 | What is written has one header, in front, exactly if there is no zlib header at all or at most 2^32 blocks are flushed, in whatever calls |
| BlockSink.SecondHeader | SMP_unipi_lab/example7/ffc/miniz/miniz.c:1250-1254 | The block behind the first 2^32 ones gets a header again |
| Codec.CompressParts | SMP_unipi_lab/example7/ffc/miniz/miniz.c:1877-1942 | What any sequence of calls hands out is the stream of its blocks, with one header exactly if there are at most 2^32 of them, and the checksum of all data behind; its tokens are those of the turns of the calls; there are no more blocks than flushes asked for, one for every 31745 bytes, and the last one |
| Codec.ZlibRoundTrip | SMP_unipi_lab/example7/ffc/miniz/miniz.c:312-338 | With the zlib header and the checksum around the blocks: every source of at most 2^32 - 1 bytes (a longer one is refused) comes back whole exactly if it fits, and passes the checks on header and checksum |
| Codec.ReadBack | SMP_unipi_lab/example7/ffc/miniz/miniz.c:2892-2899 | Whatever stream of blocks has been handed out without a zlib header decompresses to its data, exactly if they fit, and otherwise to as much of them as does |
| Codec.ReadZlibBack | SMP_unipi_lab/example7/ffc/miniz/miniz.c:2892-2899 | Whatever has been handed out with a zlib header in at most 2^32 blocks decompresses to its data, exactly if they fit, and passes all checks |
| ZlibStream.InflateZlib | SMP_unipi_lab/example7/ffc/miniz/miniz.c:2412-2848 | Decompressing with a zlib header in front of blocks, any bits up to the byte boundary, and any bytes: refused if the header fails its check or is missing; done exactly if the blocks stand for something that fits, four bytes follow, and they hold its Adler-32; each of the other answers exactly under its own condition: a wrong checksum, missing trailer bytes, a block that nothing can come out of once what precedes that place fits, or too little room |
| ZlibStream.ReadTrailer | SMP_unipi_lab/example7/ffc/miniz/miniz.c:2785-2796 | The stored checksum is read most significant byte first, if there are four bytes; the initial 1 is shifted out of the 32-bit word |
| ZlibStream.BigEndianBack | SMP_unipi_lab/example7/ffc/miniz/miniz.c:1302-1310 | The four trailer bytes determine the checksum |
| ZlibStream.HeaderIsRead | SMP_unipi_lab/example7/ffc/miniz/miniz.c:2414-2425 | A stream that begins with the header bits begins with the bytes 0x78 0x01, which pass the check |
| ZlibStream.HeaderFields | SMP_unipi_lab/example7/ffc/miniz/miniz.c:2414-2425 | In the fields of RFC 1950: a header is accepted exactly if its method is 8, no dictionary is preset, and both bytes together are a multiple of 31 |
| Codec.CompressAll | SMP_unipi_lab/example7/ffc/miniz/miniz.c:2043-2057 | Compressing all of the source to the end of the stream never stops early, and its bytes hold a sequence of blocks, the last one final, that stands for the source, with the checksum behind; its tokens are those of the turns of the parse; up to 31 KB of source become at most 6 bytes longer, 12 with header and checksum, and any source at most 11 bits for a byte and 2358 for each 31745 bytes; there is one header in front exactly if there are at most 2^32 blocks |
| Codec.RunsAreShort | SMP_unipi_lab/example7/ffc/miniz/miniz.c:1711-1854 | Ten or more equal bytes, compressed in one call, give fewer tokens than bytes exactly if matches are looked for: in run-length mode, or with any probes, and not with raw blocks |
| Codec.UnmatchedAreLiterals | SMP_unipi_lab/example7/ffc/miniz/miniz.c:1770-1791 | Any data passed in any calls, without probes and run-length mode or with raw blocks, give one literal for each byte |
| Codec.MaxProbes | SMP_unipi_lab/example7/ffc/miniz/miniz.c:1956-1958 | The budgets are one more than the least numbers of rounds of three probes that make up the number asked for, and a quarter of it |
| Blocks.Inflate | SMP_unipi_lab/example7/ffc/miniz/miniz.c:2427-2772 | The decompressor's loop over the blocks of a stream, up to the final one or one that is to be rejected, succeeds exactly if the blocks stand for something that fits the output, and stops at the first bit behind the last block; it fails exactly if they stand for nothing and what comes before the place where that shows fits; otherwise it asks for more room. In each case the output is what comes before that place, as far as there is room |
| Blocks.InflatePiece | SMP_unipi_lab/example7/ffc/miniz/miniz.c:2427-2500 | One block of any type puts its bytes behind the output and leaves the input behind the block; it is rejected exactly if it is of the reserved type, has a wrong length check, or one of its matches reaches back too far and what comes before that match fits; if there is no room, as much comes out as fits |
| Blocks.InflateRaw | SMP_unipi_lab/example7/ffc/miniz/miniz.c:2431-2476 | A raw block: the bits up to the byte boundary are skipped whatever they are, the block is rejected exactly if the length is not followed by its complement, and otherwise the bytes are copied as far as there is room; it succeeds exactly if they fit |
| Blocks.SkipPadding | SMP_unipi_lab/example7/ffc/miniz/miniz.c:2433-2433 | Skipping the bits left in the byte skips exactly the padding that the compressor put in |
| Blocks.XorOnes | SMP_unipi_lab/example7/ffc/miniz/miniz.c:2441-2441 | The check value of a raw block is the complement of its length, both ways |
| Blocks.StreamSnoc | SMP_unipi_lab/example7/ffc/miniz/miniz.c:1256-1292 | A stream grows by one block at its end: where a block starts depends on all the bits before |
| Blocks.PlaySnoc | SMP_unipi_lab/example7/ffc/miniz/miniz.c:2772-2772 | What blocks stand for, and one block more |
| Blocks.PlayedIs | SMP_unipi_lab/example7/ffc/miniz/miniz.c:2772-2772 | Unless the decompressor gives up, what comes out is all of what the blocks stand for |
| Blocks.PlayedSnoc | SMP_unipi_lab/example7/ffc/miniz/miniz.c:2772-2772 | Where it gives up, it is what comes before: one more block behind good ones adds what comes out of it |
| BlockSink.BlockSink.Flush | SMP_unipi_lab/example7/ffc/miniz/miniz.c:1232-1361 | A flush, of whatever kind, turns the token buffer into one block behind all earlier ones: the bytes handed out and the pending bits stay exactly the stream of all blocks, which stands for all closed tokens; the block is raw exactly if asked for or if its compressed form is no shorter; at most 42 bits are added to the data where a raw block is allowed; at the end of the stream the bytes are whole, with the trailer behind. The write position stays before the end of the buffer, as the code asserts |
| BlockSink.BlockSink.EndFlush | SMP_unipi_lab/example7/ffc/miniz/miniz.c:1294-1327 | The marker behind a flushed block (none, an empty raw block, or padding and trailer) always completes the stream: block and marker always fit |
| BlockSink.RawIsInRing | SMP_unipi_lab/example7/ffc/miniz/miniz.c:1265-1284 | Whenever the 32-bit test allows a raw block, all of the block's bytes are still in the ring, at the ring positions that are read, and there are at most 32768 of them |
| BlockSink.BlockBytes | SMP_unipi_lab/example7/ffc/miniz/miniz.c:1267-1267 | A block's tokens stand for as many bytes as have been counted, behind those of the closed blocks |
| BlockSink.BlockStart | SMP_unipi_lab/example7/ffc/miniz/miniz.c:1267-1267 | The wrapping 32-bit difference of the two positions is the true distance |
| BlockSink.NextNumber | SMP_unipi_lab/example7/ffc/miniz/miniz.c:1250-1254 | A flushed block gets a header exactly if the number of flushed blocks before it is a multiple of 2^32 and a header is asked for; the marker behind it gets none |
| BlockSink.HeadShift | SMP_unipi_lab/example7/ffc/miniz/miniz.c:1250-1256 | The header is whole bytes, so a block is the same behind it |
| BlockSink.AllFits | SMP_unipi_lab/example7/ffc/miniz/miniz.c:1327-1327 | The code's assertion: whatever the flush and the block, the write position stays before the end of the output buffer, so nothing is dropped |
| FlushBlock.WriteBlock | SMP_unipi_lab/example7/ffc/miniz/miniz.c:1256-1292 | One block is written for the tokens, compressed or raw, and always fits the output buffer. Where the ring allows a raw block, it is raw exactly if raw blocks are asked for, or there are data and the whole bytes of the compressed form and one more are no fewer than them; a failed or too long attempt is undone and replaced |
| FlushBlock.SunkFlushed | SMP_unipi_lab/example7/ffc/miniz/miniz.c:1312-1324 | The marker of a sync or full flush is an empty raw block of the stream |
| FlushBlock.SunkLast | SMP_unipi_lab/example7/ffc/miniz/miniz.c:1296-1301 | Behind the final block the padding makes whole bytes |
| FlushBlock.SunkMore | SMP_unipi_lab/example7/ffc/miniz/miniz.c:1340-1361 | Bytes handed out flush by flush, with bits left over in between, are one stream |
| FlushBlock.FramedIsStream | SMP_unipi_lab/example7/ffc/miniz/miniz.c:1250-1254 | With a header before the first block at most, what is written is that header and the stream of the blocks |
| FlushBlock.PutTrailer | SMP_unipi_lab/example7/ffc/miniz/miniz.c:1302-1310 | The checksum is put out byte by byte, most significant first |
| FlushBlock.PutRaw | SMP_unipi_lab/example7/ffc/miniz/miniz.c:1272-1284 | A raw block: type, padding to the byte, length, complement, bytes from the ring |
| BlockForm.StaticFits | SMP_unipi_lab/example7/ffc/miniz/miniz.c:1056-1076 | The output buffer is large enough for any static block: 65536 bytes of tokens never take more than 81267 bytes |
| FlushBlock.StaticRoom | SMP_unipi_lab/example7/ffc/miniz/miniz.h:656-672 | The size that the header file asks for, 13/10 of the token buffer less 16 bytes, holds one static block behind any pending bits |
| BlockForm.CompressBlock | SMP_unipi_lab/example7/ffc/miniz/miniz.c:1223-1230 | A block, static or dynamic, is complete in the output exactly if it fits there, and then it is the type, the header and the codes of its tokens |
| BlockForm.InflateCompressed | SMP_unipi_lab/example7/ffc/miniz/miniz.c:2479-2600 | From the header of a block the decompressor rebuilds code tables that decode the block's tokens: it succeeds exactly if they expand to something that fits, fails exactly if a match reaches back too far and what comes before it fits, and otherwise asks for more room; it delivers what comes before such a match as far as there is room |
| BlockForm.TablesAreDecodable | SMP_unipi_lab/example7/ffc/miniz/miniz.c:975-978 | Every symbol of every token has a code in the tables made from the counts, the end of block too; symbols 286, 287, 30 and 31 have none |
| BlockForm.StaticLitIsComplete | SMP_unipi_lab/example7/ffc/miniz/miniz.c:1056-1069 | The static literal/length code fills the code space exactly, so the decoder accepts it |
| BlockForm.StaticDistIsComplete | SMP_unipi_lab/example7/ffc/miniz/miniz.c:1070-1073 | So does the static distance code |
| BlockForm.StaticLen | SMP_unipi_lab/example7/ffc/miniz/miniz.c:1175-1220 | With the static code a literal takes at most 9 bits and a match at most 31: at most 31/25 of what the tokens take in their buffer |
| BlockSize.DynamicLen | SMP_unipi_lab/example7/ffc/miniz/miniz.c:1056-1220 | A dynamic block takes at most 632900 bits behind its header: its near-optimal tables cost little more than 9 bits for a literal and 11 for the symbols of a match |
| BlockSize.BlockLen | SMP_unipi_lab/example7/ffc/miniz/miniz.c:1286-1286 | Every compressed block, static or dynamic, with or without the length limiter at work, takes at most 650130 bits: the case of a dynamic block that does not fit, which the source calls extremely unlikely, is impossible |
| BlockSize.FlushLen | SMP_unipi_lab/example7/ffc/miniz/miniz.c:1241-1327 | Header, pending bits, block, marker and trailer take at most 650240 of the 681440 bits before the end of the buffer, whatever the flush |
| BlockSize.CodedSize | SMP_unipi_lab/example7/ffc/miniz/miniz.c:1175-1292 | A compressed block takes at most 11 bits for a byte of data, and its header |
| BlockSize.ChosenSize | SMP_unipi_lab/example7/ffc/miniz/miniz.c:1265-1284 | Where a raw block is allowed, the block that is sent takes at most 42 bits more than its data |
| BlockSize.AttemptFits | SMP_unipi_lab/example7/ffc/miniz/miniz.c:1261-1263 | The compressed form always fits the output buffer, so whether a block is sent raw depends on its size alone |
| BlockForm.EncodedWeight | SMP_unipi_lab/example7/ffc/miniz/miniz.c:1668-1709 | Tokens take at least 9 and 25 bits in the token buffer |
| DynamicHeader.MakeHeader | SMP_unipi_lab/example7/ffc/miniz/miniz.c:980-1041 | The header of a dynamic block describes both vectors of code sizes completely and as shortly as it can: cut-off sizes are zeros and no more could be cut off, the packed sizes stand for the rest, and the code-size code has at most 7 bits and is sent completely |
| DynamicHeader.WriteHeader | SMP_unipi_lab/example7/ffc/miniz/miniz.c:1035-1053 | The header is put out field by field: three counts, the code-size code's sizes in their odd order, the packed sizes with their extra bits |
| DynamicHeader.ReadHeader | SMP_unipi_lab/example7/ffc/miniz/miniz.c:2497-2600 | The header is read back: the decompressor ends up with exactly the two vectors of code sizes |
| DynamicHeader.ReadPacked | SMP_unipi_lab/example7/ffc/miniz/miniz.c:2575-2594 | The packed code sizes are decoded symbol by symbol from the bits, and none too many come out |
| DynamicHeader.SwizzleIsPermutation | SMP_unipi_lab/example7/ffc/miniz/miniz.c:967-967 | The order in which the code-size code's sizes are sent names each of the 19 symbols once |
| DynamicHeader.OrderIs | SMP_unipi_lab/example7/ffc/miniz/miniz.c:967-967 | The order is that of RFC 1951: runs, no code, then the sizes by their distance from 8 |
| DynamicHeader.SameOrder | SMP_unipi_lab/example7/ffc/miniz/miniz.c:2387-2387 | The decompressor's copy of the order is the compressor's |
| DynamicHeader.NumCodes | SMP_unipi_lab/example7/ffc/miniz/miniz.c:980-985 | No used code is cut off, and no unused one is sent behind the last one that must be |
| DynamicHeader.NumBitLengths | SMP_unipi_lab/example7/ffc/miniz/miniz.c:1038-1041 | At least four sizes of the code-size code are sent, all sizes that are not sent are zero, and the last one sent behind the fourth is not |
| DynamicHeader.FewSymbols | SMP_unipi_lab/example7/ffc/miniz/miniz.c:991-1031 | The histogram of the packed symbols has at most as many entries as there are packed sizes, so 16-bit counts do not wrap |
| DynamicHeader.HeaderLen | SMP_unipi_lab/example7/ffc/miniz/miniz.c:1033-1053 | A header takes at most 2283 bits |
| DynamicHeader.AcceptsPrefix | SMP_unipi_lab/example7/ffc/miniz/miniz.c:2511-2531 | The decoder accepts a vector of code sizes exactly if it accepts it with the unused symbols at its end cut off |
| InflateBlock.InflateBlock | SMP_unipi_lab/example7/ffc/miniz/miniz.c:2602-2771 | Decoding a block of tokens succeeds exactly if every match stays inside the output so far and the block fits; it fails exactly if a match reaches back too far and what the tokens before it stand for fits; otherwise it asks for more room. The output is what the tokens before such a match stand for, as far as there is room, and after success the input is left behind the end-of-block code |
| InflateBlock.CopyMatch | SMP_unipi_lab/example7/ffc/miniz/miniz.c:2715-2769 | Copying a match three bytes at a time, overlapping itself or not, gives the bytes of the definition |
| Tokens.DeliveredIs | SMP_unipi_lab/example7/ffc/miniz/miniz.c:2602-2771 | If every match stays inside, what comes out is what all tokens stand for |
| Tokens.DeliveredUpTo | SMP_unipi_lab/example7/ffc/miniz/miniz.c:2707-2711 | If not, it is what the tokens before the first match that reaches back too far stand for |
| InflateBlock.ReadLength | SMP_unipi_lab/example7/ffc/miniz/miniz.c:2688-2695 | The length symbol and its extra bits give the length back |
| InflateBlock.ReadDistance | SMP_unipi_lab/example7/ffc/miniz/miniz.c:2697-2705 | The distance symbol and its extra bits give the distance back |
| InflateBlock.CodePrefix | SMP_unipi_lab/example7/ffc/miniz/miniz.c:2511-2540 | The code of a symbol does not depend on unused symbols behind the used ones |
| InflateBlock.TakeField | SMP_unipi_lab/example7/ffc/miniz/miniz.c:2307-2318 | Taking n bits from the input takes exactly the next field of n bits |
| Huffman.NoCodeIsCheaper | SMP_unipi_lab/example7/ffc/miniz/miniz.c:766-819 | No code that satisfies Kraft's inequality, of whatever greatest length, has a smaller weighted length than Huffman's construction |
| Huffman.Descend | SMP_unipi_lab/example7/ffc/miniz/miniz.c:766-819 | Any code for the weights yields a code for the weights after merging the two lightest, cheaper by the merged weight |
| Huffman.Exchange | SMP_unipi_lab/example7/ffc/miniz/miniz.c:766-819 | Giving the lighter weight the greater length does not cost more |
| Huffman.MergeStep | SMP_unipi_lab/example7/ffc/miniz/miniz.c:776-795 | Merging two weights above which no other lies is a step of Huffman's construction, in either order |
| MinRedundancy.CalculateMinimumRedundancy | SMP_unipi_lab/example7/ffc/miniz/miniz.c:766-819 | In place, the ascending weights become the lengths of a code of least possible weighted length that fills the code space, longest first; nothing but the keys changes |
| MinRedundancy.JoinWeights | SMP_unipi_lab/example7/ffc/miniz/miniz.c:776-795 | First phase: each inner node takes the two lightest weights that are left, and each slot ends up holding its node's parent |
| MinRedundancy.NodeIsHuffmanStep | SMP_unipi_lab/example7/ffc/miniz/miniz.c:776-793 | Each turn of the first phase is a step of Huffman's construction |
| MinRedundancy.NextIsHeavier | SMP_unipi_lab/example7/ffc/miniz/miniz.c:776-793 | Inner nodes are made in ascending order of weight, which is why two queues suffice |
| MinRedundancy.ResolveDepths | SMP_unipi_lab/example7/ffc/miniz/miniz.c:796-798 | Second phase: every parent is replaced by the depth of the node |
| MinRedundancy.SpreadDepths | SMP_unipi_lab/example7/ffc/miniz/miniz.c:799-818 | Third phase: the leaves get their depths, level by level |
| MinRedundancy.TreeIsOptimal | SMP_unipi_lab/example7/ffc/miniz/miniz.c:766-819 | The leaf depths of the tree cost what Huffman's construction costs and meet Kraft's inequality with equality |
| MinRedundancy.TreeIsMinimal | SMP_unipi_lab/example7/ffc/miniz/miniz.c:766-819 | Against every other decodable code: the leaf depths are of least cost |
| MinRedundancy.TotalStays | SMP_unipi_lab/example7/ffc/miniz/miniz.c:776-793 | The total weight of the roots stays the same, so 16-bit sums do not wrap |
| MinRedundancy.ChainGrows | SMP_unipi_lab/example7/ffc/miniz/miniz.c:766-819 | Going up from the deepest node the weights grow at least like Fibonacci numbers |
| MinRedundancy.AtMost22Bits | SMP_unipi_lab/example7/ffc/miniz/miniz.c:852-876 | Positive counts that sum to at most 65535 never give a code longer than 22 bits, so the histogram of 33 entries is never left |
| MinRedundancy.LeafChain | SMP_unipi_lab/example7/ffc/miniz/miniz.c:766-819 | A code word of length d belongs to a weight of at most the total divided by the Fibonacci number d + 1 |
| LengthLimit.ProgressStep | SMP_unipi_lab/example7/ffc/miniz/miniz.c:836-847 | Each turn of the limiter splits a code far enough from the limit: shorter codes stay untouched, and how many codes are pushed down is bounded by how many there are |
| LimitCost.RaisedAtMost | SMP_unipi_lab/example7/ffc/miniz/miniz.c:826-848 | Limiting to 15 bits: the code words of n symbols that get longer took up at most 2n units of 2^-15 of the code space before |
| LimitCost.LimitedIsNear | SMP_unipi_lab/example7/ffc/miniz/miniz.c:826-848 | The limited lengths cost at most 2n/560 bits per symbol more than the minimum-redundancy ones |
| RadixSort.RadixSortSyms | SMP_unipi_lab/example7/ffc/miniz/miniz.c:732-763 | The two-pass radix sort is ascending, a permutation, and stable, also when it skips the pass over high bytes |
| RadixSort.OneHighByte | SMP_unipi_lab/example7/ffc/miniz/miniz.c:743-744 | The high pass is skipped only if no key has a high byte |
| RadixSort.StableIsPermutation | SMP_unipi_lab/example7/ffc/miniz/miniz.c:732-763 | A rearrangement that keeps, for every key, the sequence of its entries is a permutation |
| LengthLimit.EnforceMaxCodeSize | SMP_unipi_lab/example7/ffc/miniz/miniz.c:826-848 | Limiting a complete histogram keeps the number of codes, never makes an entry negative, leaves no length above the limit, and fills the code space exactly; a histogram within the limit is untouched |
| LengthLimit.SomethingToSplit | SMP_unipi_lab/example7/ffc/miniz/miniz.c:836-847 | While the code space is over-subscribed there is a code of the limit to drop and a shorter one to split |
| LengthLimit.DropOne | SMP_unipi_lab/example7/ffc/miniz/miniz.c:836-847 | Each turn lowers the excess by exactly one, so their number is the measured total less 2^limit |
| LengthLimit.Unfolded | SMP_unipi_lab/example7/ffc/miniz/miniz.c:832-835 | Without lengths above the limit the histogram is complete already |
| HuffmanTable.OptimizeHuffmanTable | SMP_unipi_lab/example7/ffc/miniz/miniz.c:850-901 | From counts to codes: used symbols, and only those, get canonical codes of at most `limit` bits, stored bit-reversed; two or more fill the code space; the lengths are the minimum-redundancy ones whenever those keep to the limit |
| HuffmanTable.SortUsed | SMP_unipi_lab/example7/ffc/miniz/miniz.c:862-872 | The used symbols with their counts, lightest first, none left out |
| HuffmanTable.LimitedLengths | SMP_unipi_lab/example7/ffc/miniz/miniz.c:873-878 | Minimum-redundancy lengths and their histogram within the limit |
| HuffmanTable.HandOutLengths | SMP_unipi_lab/example7/ffc/miniz/miniz.c:880-884 | The shortest codes go to the heaviest symbols |
| HuffmanTable.AssignCodes | SMP_unipi_lab/example7/ffc/miniz/miniz.c:887-900 | Every used symbol gets the next code of its size, reversed bit by bit |
| HuffmanTable.StaticHuffmanTable | SMP_unipi_lab/example7/ffc/miniz/miniz.c:855-859 | For given sizes only the codes are computed, as the canonical ones |
| HuffmanTable.HandedOutIsBest | SMP_unipi_lab/example7/ffc/miniz/miniz.c:882-884 | Handing the histogram out in order of weight gives each symbol its minimum-redundancy length, and never a longer code to a heavier symbol |
| NearOptimal.TableIsNearBest | SMP_unipi_lab/example7/ffc/miniz/miniz.c:850-901 | The table for n symbols, limited to 15 bits or not, takes at most 2n/560 bits per symbol more than any prefix code of any length whatever |
| CanonicalCode.CodesArePrefixFree | SMP_unipi_lab/example7/ffc/miniz/miniz.c:887-900 | No canonical code is the beginning of another one |
| CanonicalCode.StoredCodesArePrefixFree | SMP_unipi_lab/example7/ffc/miniz/miniz.c:887-900 | As stored, bit-reversed, none is the low end of another one |
| CanonicalCode.CodeIsUnique | SMP_unipi_lab/example7/ffc/miniz/miniz.c:887-900 | At most one code begins any bit buffer |
| CanonicalCode.SomeCodeBegins | SMP_unipi_lab/example7/ffc/miniz/miniz.c:2524-2545 | With a complete code some code begins any bit buffer |
| CanonicalCode.EndIsUnits | SMP_unipi_lab/example7/ffc/miniz/miniz.c:887-889 | The codes up to each length fill the code space from 0 on without gaps |
| CanonicalCode.ReverseBits | SMP_unipi_lab/example7/ffc/miniz/miniz.c:897-898 | The loop reverses the bits of a code |
| CanonicalCode.RevPrefix | SMP_unipi_lab/example7/ffc/miniz/miniz.c:897-898 | Reversal turns prefixes into low bits |
| DecodeTable.BuildTable | SMP_unipi_lab/example7/ffc/miniz/miniz.c:2511-2572 | The decoder accepts a vector of code sizes exactly if the code is complete or has at most one symbol, and then lookup and tree tables are finished for every symbol, inside their bounds |
| DecodeTable.HuffDecode | SMP_unipi_lab/example7/ffc/miniz/miniz.c:2347-2379 | Decoding returns the symbol whose stored code begins the bit buffer, with its length; with a complete code there always is one |
| DecodeTable.NodeBound | SMP_unipi_lab/example7/ffc/miniz/miniz.c:2551-2571 | An accepted code of at most 288 symbols needs at most 288 tree nodes, so the tree array is never left |
| DecodeTable.EnterSymbol | SMP_unipi_lab/example7/ffc/miniz/miniz.c:2534-2571 | Entering one more symbol keeps every entry of the earlier ones |
| DecodeTable.EnterLong | SMP_unipi_lab/example7/ffc/miniz/miniz.c:2551-2571 | A code above 10 bits: the walk makes the missing nodes and only those, and disturbs no other code |
| DecodeTable.FillShort | SMP_unipi_lab/example7/ffc/miniz/miniz.c:2541-2550 | A code of at most 10 bits goes to every lookup index that begins with it, and to no other |
| DecodeTable.FirstCodes | SMP_unipi_lab/example7/ffc/miniz/miniz.c:2522-2528 | The first codes of all sizes, and the total that is compared with 65536 |
| HuffmanRoundTrip.EncoderTableIsAccepted | SMP_unipi_lab/example7/ffc/miniz/miniz.c:2529-2532 | The decoder accepts every table that the encoder makes |
| HuffmanRoundTrip.CodeThenDecode | SMP_unipi_lab/example7/ffc/miniz/miniz.c:2347-2379 | Coding a used symbol with a table made from counts and decoding it gives the symbol back, whatever bits follow |
| CodeSizePacking.PackCodeSizes | SMP_unipi_lab/example7/ffc/miniz/miniz.c:994-1029 | The packed sizes stand for the sizes, are no more than they are, and are counted; extra values fit their fields, no repetition comes first, and runs are packed: no more than two zeros or three other equal sizes in a row are left |
| CodeSizePacking.UnpackCodeSizes | SMP_unipi_lab/example7/ffc/miniz/miniz.c:2575-2597 | Unpacking succeeds exactly if some beginning of the input stands for exactly the sizes asked for, and delivers those |
| CodeSizePacking.PackThenUnpack | SMP_unipi_lab/example7/ffc/miniz/miniz.c:921-965 | Packing and unpacking any sizes 0..15 gives them back and uses up all that was packed |
| CodeSizePacking.NeverReaches | SMP_unipi_lab/example7/ffc/miniz/miniz.c:2583-2597 | Where the loop gives up, no continuation would have been well formed |
| Tokens.LengthIsReadBack | SMP_unipi_lab/example7/ffc/miniz/miniz.c:632-725 | Over all 256 lengths: the compressor's symbol and extra bits and the decompressor's base and extra tables fit together |
| Tokens.DistanceIsReadBack | SMP_unipi_lab/example7/ffc/miniz/miniz.c:632-725 | The same over all 32768 distances |
| Tokens.ExpandAppend | SMP_unipi_lab/example7/ffc/miniz/miniz.c:2598-2771 | Tokens one after the other expand one after the other |
| LzCodes.LzCodeBuffer.RecordLiteral | SMP_unipi_lab/example7/ffc/miniz/miniz.c:1668-1679 | A literal goes behind the recorded tokens, with its flag bit and its count |
| LzCodes.LzCodeBuffer.RecordMatch | SMP_unipi_lab/example7/ffc/miniz/miniz.c:1681-1709 | A match goes behind the recorded tokens, with its flag bit and its two counts |
| LzCodes.LzCodeBuffer.Close | SMP_unipi_lab/example7/ffc/miniz/miniz.c:1246-1247 | Moving the last flag byte into place, or dropping an unused one, leaves exactly the encoded tokens |
| LzCodes.LzCodeBuffer.Reset | SMP_unipi_lab/example7/ffc/miniz/miniz.c:1326-1337 | The buffer is empty again |
| LzCodes.OneMore | SMP_unipi_lab/example7/ffc/miniz/miniz.c:1671-1677 | The layout of flag bytes and payloads after one more token, also when a flag byte is full |
| LzCodes.FewTokens | SMP_unipi_lab/example7/ffc/miniz/miniz.h:671-671 | A token buffer of 64 KB holds so few tokens that no 16-bit count wraps |
| LzCodes.RecordedSize | SMP_unipi_lab/example7/ffc/miniz/miniz.c:1836-1848 | The bytes used in the token buffer are at most 9/8 of the bytes that the tokens stand for, and one more: when it is nearly full, more than 31 KB of data are in the block |
| LzCodes.CountedSnoc | SMP_unipi_lab/example7/ffc/miniz/miniz.c:1678-1708 | The counts are those of the recorded tokens |
| BitOutput.Output.PutBits | SMP_unipi_lab/example7/ffc/miniz/miniz.c:903-919 | The bytes and pending bits stay the stream of all fields put out, as long as it fits; what no longer fits is dropped |
| BitOutput.Output.Restore | SMP_unipi_lab/example7/ffc/miniz/miniz.c:1288-1290 | Going back to a saved position gives back the stream as it was there |
| BitOutput.OutputIsUnique | SMP_unipi_lab/example7/ffc/miniz/miniz.c:1175-1220 | A stream determines its bytes and pending bits, whichever way they were produced |
| BitStream.BytesAreUnique | SMP_unipi_lab/example7/ffc/miniz/miniz.c:1175-1220 | Whole bytes and a last partial byte are determined by their bits |
| BitEmitter.CompressSimple | SMP_unipi_lab/example7/ffc/miniz/miniz.c:1175-1220 | The simple writer puts out the codes of all tokens and the end of the block, and reports exactly whether they fit |
| BitEmitter.CompressFast | SMP_unipi_lab/example7/ffc/miniz/miniz.c:1081-1173 | So does the 64-bit writer; when it gives up, the output is as it was |
| BitEmitter.FastStep | SMP_unipi_lab/example7/ffc/miniz/miniz.c:1099-1145 | One turn takes one match or up to three literals, and at most 55 bits are pending |
| BitEmitter.Store | SMP_unipi_lab/example7/ffc/miniz/miniz.c:1150-1153 | The eight-byte store settles the whole bytes, though it writes bytes behind them, and none behind the eighth |
| BitEmitter.WritersAgree | SMP_unipi_lab/example7/ffc/miniz/miniz.c:1081-1220 | Two outputs that hold the same stream with room left are equal byte for byte and bit for bit |
| BitEmitter.CompressBoth | SMP_unipi_lab/example7/ffc/miniz/miniz.c:1081-1220 | Both writers on the same tokens: the same verdict, and if the block fits the same bytes, position and pending bits |
| LzMatching.LazyStepIsLossless | SMP_unipi_lab/example7/ffc/miniz/miniz.c:1796-1834 | One step of lazy parsing keeps the tokens standing for exactly the data passed, up to a saved match, and moves inside the data |
| LzMatching.WindowRead | SMP_unipi_lab/example7/ffc/miniz/miniz.h:690-725 | With the mirror of the ring's first 257 bytes, reading on from a position needs no wrap-around |
| LzMatching.WindowPush | SMP_unipi_lab/example7/ffc/miniz/miniz.c:1731-1734 | Writing a byte to the ring, and to the mirror if it lies in the ring's first 257 bytes, moves the window on by one |
| LzMatching.ProbePosition | SMP_unipi_lab/example7/ffc/miniz/miniz.c:1454-1457 | The ring position of a chain entry and the 16-bit distance belong together, whatever the chain holds |
| LzMatching.CopyIsData | SMP_unipi_lab/example7/ffc/miniz/miniz.c:1711-1854 | A match in the data, copied, gives the data |
| LzMatching.AllParsed | SMP_unipi_lab/example7/ffc/miniz/miniz.c:1711-1854 | With everything parsed nothing is saved, and the tokens stand for all data |
| LzParser.FindMatch | SMP_unipi_lab/example7/ffc/miniz/miniz.c:1438-1480 | For any contents of the hash chain: a match found is real, is longer than asked for, reaches back no further than allowed, and is the first of the longest candidates visited, which are the first ones on the chain. How many are visited is exact: until nothing can be longer, the chain ends or leaves the reach, or the budget is spent, where a unit ends with a hit or with three candidates passed over; so it finds the longest of the whole chain within reach unless the budget runs out |
| HashChain.FoundIsDetermined | SMP_unipi_lab/example7/ffc/miniz/miniz.c:1438-1480 | The chain, the length to beat and the budget determine what is found, and how far the search goes |
| LzParser.NextHit | SMP_unipi_lab/example7/ffc/miniz/miniz.c:1448-1463 | Up to the next hit the candidates passed over are no longer matches; each unit of the budget ends with a hit or with three candidates passed over |
| LzParser.Probe | SMP_unipi_lab/example7/ffc/miniz/miniz.c:1453-1459 | A probe stops at the chain's end or beyond the reach, hits exactly if the candidate agrees in the two bytes that are compared, and passes over none that could be longer |
| LzParser.Compare | SMP_unipi_lab/example7/ffc/miniz/miniz.c:1466-1470 | Comparing finds exactly how far a candidate agrees |
| LzParser.RunMatch | SMP_unipi_lab/example7/ffc/miniz/miniz.c:1772-1786 | In run-length mode: exactly how often the last byte repeats, if at least three times |
| LzParser.WriteDict | SMP_unipi_lab/example7/ffc/miniz/miniz.c:1732-1734 | Ring and mirror after one byte |
| LzParser.FillFast | SMP_unipi_lab/example7/ffc/miniz/miniz.c:1721-1741 | Filling the window when two bytes are there to hash: window and chains hold the bytes taken in |
| LzParser.FillSlow | SMP_unipi_lab/example7/ffc/miniz/miniz.c:1744-1759 | Filling it byte by byte before that, with the same window and chains |
| LzParser.Compressor.Fill | SMP_unipi_lab/example7/ffc/miniz/miniz.c:1720-1761 | The lookahead is filled up, the window holds everything behind and ahead, and the chains hold every position since they were last emptied that has three bytes |
| LzParser.Compressor.Search | SMP_unipi_lab/example7/ffc/miniz/miniz.c:1766-1795 | Before filtering: nothing with raw blocks; in run-length mode the run of the last byte exactly if it is three or more long; otherwise what the search along the chain of the current position finds under the budget. What passes on is that, unless it is three bytes long and 8 KB or more away, its distance is the ring position, or it is at most five bytes long and short matches are not wanted. It really lies in the window |
| LzParser.Compressor.Step | SMP_unipi_lab/example7/ffc/miniz/miniz.c:1765-1834 | Search and decision of one turn: its tokens and the saved match are those that follow from what the search finds, and the tokens stand for the data up to the new position |
| LzParser.Compressor.Advance | SMP_unipi_lab/example7/ffc/miniz/miniz.c:1765-1848 | One turn of the parser, with a flush if the token buffer is nearly full |
| LzParser.Compressor.FlushIfDue | SMP_unipi_lab/example7/ffc/miniz/miniz.c:1836-1848 | A block is flushed exactly if the token buffer is nearly full, or the data are over 31 KB and the tokens save little or raw blocks are asked for; the parser stops exactly if then the output side does not take everything |
| HashChain.HashRolls | SMP_unipi_lab/example7/ffc/miniz/miniz.c:1721-1741 | The rolling hash is always that of the last three bytes |
| HashChain.HashTells | SMP_unipi_lab/example7/ffc/miniz/miniz.c:1721-1741 | The hash tells apart any two last bytes, any two middle bytes, and exactly the low five bits of the first |
| HashChain.HeadIsLatest | SMP_unipi_lab/example7/ffc/miniz/miniz.c:1735-1738 | The head of a chain is the latest position with its hash |
| HashChain.NextIsLatest | SMP_unipi_lab/example7/ffc/miniz/miniz.c:1735-1738 | From each position in the window the chain leads to the latest one before it with the same hash |
| HashChain.CandidatesAre | SMP_unipi_lab/example7/ffc/miniz/miniz.c:1448-1459 | So the candidates that a search visits are the earlier positions with the hash of the current one, the nearest first, at their true distances |
| ParseTrace.NothingMissed | SMP_unipi_lab/example7/ffc/miniz/miniz.c:1438-1480 | No turn misses a longer match with one of the nearest earlier positions of the same hash, as many of them as the budget has probes but one |
| ParseTrace.TokensAreFew | SMP_unipi_lab/example7/ffc/miniz/miniz.c:1796-1834 | A parse has never more tokens than bytes, and as many only if no turn finds a match that is kept |
| ParseTrace.OnlyLiterals | SMP_unipi_lab/example7/ffc/miniz/miniz.c:1770-1791 | A parser that does not look for matches records a literal for each byte |
| ParseTrace.RunsAreMatched | SMP_unipi_lab/example7/ffc/miniz/miniz.c:1711-1854 | Over ten or more equal bytes there are fewer tokens than bytes exactly if the parser looks for matches: the third turn finds one over all that it sees |
| LzParser.Compressor.CompressNormal | SMP_unipi_lab/example7/ffc/miniz/miniz.c:1711-1854 | The lazy parser is lossless: with a flush, the tokens expand to exactly the data that was passed in; and they are those of its turns, each of which sees 258 bytes or all there is, and without a flush leaves fewer than 258 waiting |
| LzParser.Compressor.Compress | SMP_unipi_lab/example7/ffc/miniz/miniz.c:1877-1942 | Over any number of calls and flushes of any kind: all of the source is taken in, unless the output side does not take everything; after every flush the closed tokens expand to exactly the data passed in so far, are those of the turns, and what has been handed out is their stream; at the end of the stream all of it, with the checksum of all data. A full flush, and only that, empties the chains |
| LzParser.RecentNow | SMP_unipi_lab/example7/ffc/miniz/miniz.c:1246-1247 | At every flush the ring holds what a raw block may need |
| Adler32.MzAdler32 | SMP_unipi_lab/example7/ffc/miniz/miniz.c:39-65 | For every buffer and every start value: the byte-by-byte definition of RFC 1950, with one reduction per block and no overflow of 32 bits |
| Adler32.LargestPrime | SMP_unipi_lab/example7/ffc/miniz/miniz.c:60-60 | The modulus is the largest prime below 2^16 |
| Adler32.ChecksumIs | SMP_unipi_lab/example7/ffc/miniz/miniz.c:39-65 | In closed form, from the start value 1: one and all bytes in the low half, their number and the bytes weighted by their distance from the end in the high half |
| Adler32.BlockHasRoom | SMP_unipi_lab/example7/ffc/miniz/miniz.c:43-64 | 5552 bytes on reduced sums, or fewer on any 16-bit sums, keep both sums below 2^32 |
| Adler32.BlockIsLargest | SMP_unipi_lab/example7/ffc/miniz/miniz.c:43-43 | No longer block does |
| Adler32.AddBlock | SMP_unipi_lab/example7/ffc/miniz/miniz.c:48-62 | The unrolled loop adds a block as the definition does |
| Adler32.ReduceLate | SMP_unipi_lab/example7/ffc/miniz/miniz.c:62-62 | Reducing at the end is as good as reducing all the time |
| Adler32.AdlerAppend | SMP_unipi_lab/example7/ffc/miniz/miniz.c:39-65 | The checksum of a concatenation goes on from that of the first part |
| Adler32.ChecksumAppend | SMP_unipi_lab/example7/ffc/miniz/miniz.c:1926-1927 | So does the 32-bit word that the compressor keeps from call to call |
| ZipIndex.SortIndices | SMP_unipi_lab/example7/ffc/miniz/miniz.c:3442-3492 | Heap sort leaves a permutation of the indices in order of case-folded names |
| ZipIndex.SiftDown | SMP_unipi_lab/example7/ffc/miniz/miniz.c:3452-3488 | Sifting an entry down restores the heap and permutes only the entries in it |
| ZipIndex.FilenameLess | SMP_unipi_lab/example7/ffc/miniz/miniz.c:3413-3430 | The comparison is lexicographic order of folded names |
| ZipIndex.LowerTells | SMP_unipi_lab/example7/ffc/miniz/miniz.c:3102-3102 | Folding makes the two cases of a letter equal, and nothing else |
| ZipIndex.MatchesExactly | SMP_unipi_lab/example7/ffc/miniz/miniz.c:4235-4244 | A file has the name exactly if both are equally long and agree byte by byte, but for the case of letters |
| ZipIndex.LessTransitive | SMP_unipi_lab/example7/ffc/miniz/miniz.c:3413-3430 | That order is a weak order: "not less" is transitive |
| ZipIndex.LocateBinary | SMP_unipi_lab/example7/ffc/miniz/miniz.c:4263-4301 | Binary search over a sorted index finds an entry, up to case, exactly if the directory has the name as it is after its length is cast to 32 bits; so for every name of less than 2^32 bytes exactly if it is there, although the difference of the lengths may wrap around |
| ZipIndex.FilenameCompare | SMP_unipi_lab/example7/ffc/miniz/miniz.c:4246-4261 | The comparison is 0 exactly for equal folded names, and its sign is their order for names of up to 2^31 bytes |
| ZipIndex.LocateLinear | SMP_unipi_lab/example7/ffc/miniz/miniz.c:4340-4374 | The scan finds the first entry with the name exactly if there is one |
| ZipIndex.LocateBothWays | SMP_unipi_lab/example7/ffc/miniz/miniz.c:4340-4374 | Sorting and searching and the plain scan agree exactly unless the name has 2^32 bytes or more and its cut form is in the directory |
| ZipIndex.CutNameIsFound | SMP_unipi_lab/example7/ffc/miniz/miniz.c:4270-4270 | An input that shows the difference: a name of 2^32 + 1 bytes is taken for its first byte |
| ExternalSort.SortFile | steffe_SortingAlg/main.cpp:411-444 | For every file, number of ranks, memory and buffer sizes: the final file is sorted and a permutation of the file |
| ExternalSort.KMerge | steffe_SortingAlg/main.cpp:280-352 | The k-way merge of sorted runs is sorted and holds exactly the elements of the runs |
| ExternalSort.SortedRuns | steffe_SortingAlg/main.cpp:49-159 | One rank writes a sorted run for each of its slices inside the file, and leaves out only empty ones |
| ExternalSort.SlicesCover | steffe_SortingAlg/main.cpp:415-431 | The slices that main chooses cover the file |
| ExternalSort.PartitionOfFile | steffe_SortingAlg/main.cpp:49-55 | All ranks together hold each element of the file exactly once |
| ExternalSort.RanksAreSlices | steffe_SortingAlg/main.cpp:49-55 | Rank by rank or slice by slice: the same elements |
| ExternalSort.ReadSlice | steffe_SortingAlg/main.cpp:58-83 | Buffered reading delivers exactly the slice, as far as the file goes |
| ExternalSort.WriteRun | steffe_SortingAlg/main.cpp:142-159 | Buffered writing writes exactly the run |
| ExternalSort.PutOut | steffe_SortingAlg/main.cpp:329-342 | The output buffer loses nothing when it is written out full or at the end |
| ExternalSort.LeastStays | steffe_SortingAlg/main.cpp:311-328 | What follows the least element in its run is not less, so the output stays sorted |
| ExternalSort.TotalOfListing | steffe_SortingAlg/main.cpp:286-301 | The order in which the directory lists the runs does not matter |
| Wavefront.WavefrontSequential | SMP_unipi_exam/Wf_seq.cpp:36-49 | The sequential program fills every diagonal with the cells of the recurrence |
| Wavefront.CellIsW | SMP_unipi_exam/Wf_seq.cpp:36-49 | A cell depends only on earlier diagonals |
| Wavefront.FrontIsUnique | SMP_unipi_exam/Wf_seq.cpp:36-49 | The recurrence determines the whole matrix |
| WavefrontFarm.EndIsSequential | SMP_unipi_exam/Wf_ff.cpp:28-109 | At the end of the stream, in every interleaving of emitter and workers, the matrix is the sequential one |
| WavefrontFarm.RunKeepsInv | SMP_unipi_exam/Wf_ff.cpp:28-109 | In every reachable state: outstanding tasks number send less done, lie on the current diagonal, do not overlap and cover what is not written; earlier diagonals are finished |
| WavefrontFarm.NoRaces | SMP_unipi_exam/Wf_ff.cpp:89-109 | No cell that one worker may still write is read or written by another one |
| WavefrontFarm.NoDeadlock | SMP_unipi_exam/Wf_ff.cpp:28-77 | Until the end of the stream some step can be taken |
| WavefrontFarm.StepsComeToAnEnd | SMP_unipi_exam/Wf_ff.cpp:28-77 | Every run ends |
| WavefrontFarm.EveryRunEnds | SMP_unipi_exam/Wf_ff.cpp:28-109 | A run has at most as many steps as a number known from its first state, and one that cannot go on has issued the end of the stream and left the sequential matrix |
| WavefrontFarm.PartsArePartition | SMP_unipi_exam/Wf_ff.cpp:44-58 | The static partition is consecutive, non-empty, and of sizes that differ by at most one, also with fewer cells than workers |
| WavefrontFarm.Emitter.Call | SMP_unipi_exam/Wf_ff.cpp:28-77 | One call of the emitter: it counts completed tasks and opens the next diagonal exactly when all are back |
| WavefrontFarm.WorkerCall | SMP_unipi_exam/Wf_ff.cpp:89-109 | A worker fills in the cells of its part |
| WavefrontMpi.WavefrontDistributed | SMP_unipi_exam/Wf_mpi.cpp:48-124 | For every size and every number of ranks: the program leaves the matrix exactly if there are more than N + 1 ranks, first at a known index; otherwise the matrix of rank 0 is the sequential one exactly if there are at least as many rows as ranks (or no rows) |
| WavefrontMpi.CornerLost | SMP_unipi_exam/Wf_mpi.cpp:48-51 | With one rank more than rows the last phase starts at the main diagonal again and destroys the first cell |
| WavefrontMpi.FirstPhase | SMP_unipi_exam/Wf_mpi.cpp:48-68 | The first phase with its 64-bit counter: up to diagonal N every index is inside and the cells are those of the recurrence; with diagonal N + 1 the counter has wrapped, and index N * N + 1 (N if N is 0 or 1) is the first one outside |
| WavefrontMpi.CheckedCell | SMP_unipi_exam/Wf_mpi.cpp:58-66 | Inside the matrix a cell reads no index outside and is the recurrence's; cell 0 of diagonal N + 1 reads outside, and where first |
| WavefrontMpi.FlattenAt | SMP_unipi_exam/Wf_mpi.cpp:91-104 | Allgather puts the blocks one after the other, so a cell's place in the gathered diagonal is its index |
| Cholesky.DataflowIsSequential | SMP_unipi_lab/example8/ff_chol_mdf.cpp:136-209 | Any complete order of the tasks that keeps the declared dependencies leaves every block as the sequential program does |
| Cholesky.LegalReaches | SMP_unipi_lab/example8/ff_chol_mdf.cpp:165-209 | However far a legal order has come, each block holds what the sequential program makes of it in as many of its tasks as have run |
| Cholesky.ScheduleFactors | SMP_unipi_lab/example8/ff_chol_mdf.cpp:165-209 | Every complete legal schedule computes the factorization |
| Cholesky.Dependencies | SMP_unipi_lab/example8/ff_chol_mdf.cpp:165-209 | From the declared parameters a task depends on exactly these tasks and no others: the previous one on its block, and the last ones on the blocks its kernel reads |
| Cholesky.NothingReadIsOverwritten | SMP_unipi_lab/example8/ff_chol_mdf.cpp:165-209 | No block is overwritten after another task has read it, so writes after reads need no order |
| Cholesky.BlocksDoNotOverlap | SMP_unipi_lab/example8/ff_chol_mdf.cpp:165-209 | Different addresses name blocks without a common element |
| Cholesky.FactoredIsUnique | SMP_unipi_lab/example8/ff_chol_mdf.cpp:136-160 | The factorization determines every block |
| Cholesky.TaskGen | SMP_unipi_lab/example8/ff_chol_mdf.cpp:165-209 | taskGen emits each task once, in program order, with its declared parameters, nb(nb+1)(nb+2)/6 in all, and that order is legal |
| Cholesky.CholSeq | SMP_unipi_lab/example8/ff_chol_mdf.cpp:136-160 | The sequential program computes the factorization in nb(nb+1)(nb+2)/6 kernel calls |
| OnDemandFarm.EosMeansDone | SMP_unipi_lab/example6/example-farm-ondemand.cpp:36-101 | The end of the stream is issued at most once, and then nothing is buffered or in a worker and every input task has been handed out exactly once |
| OnDemandFarm.NewestFirst | SMP_unipi_lab/example6/example-farm-ondemand.cpp:57-66 | A task that is handed out has arrived after all that stay in the backlog |
| OnDemandFarm.RunKeepsInv | SMP_unipi_lab/example6/example-farm-ondemand.cpp:36-101 | In every reachable state nready counts the ready flags, a backlog means no ready worker, and each worker holds at most one task |
| OnDemandFarm.VictimExists | SMP_unipi_lab/example6/example-farm-ondemand.cpp:44-55 | Whenever the emitter asks for a ready worker there is one |
| OnDemandFarm.Emitter.SelectReadyWorker | SMP_unipi_lab/example6/example-farm-ondemand.cpp:81-95 | Round robin: the first ready worker behind the last one, in bounds |
| OnDemandFarm.NoDeadlock | SMP_unipi_lab/example6/example-farm-ondemand.cpp:36-101 | Until the end of the stream is issued something can happen |
| OnDemandFarm.StepsComeToAnEnd | SMP_unipi_lab/example6/example-farm-ondemand.cpp:36-101 | Every run comes to an end |
| OnDemandFarm.EveryRunEnds | SMP_unipi_lab/example6/example-farm-ondemand.cpp:36-101 | A run over an input of n tasks has at most 3n + 1 steps, and one that cannot go on has issued the end of the stream exactly once |
| OnDemandFarm.Emitter.FromInput | SMP_unipi_lab/example6/example-farm-ondemand.cpp:46-55 | A task from the input goes to a ready worker, or into the backlog: the transition that the runs take |
| OnDemandFarm.Emitter.FromWorker | SMP_unipi_lab/example6/example-farm-ondemand.cpp:57-66 | A worker that comes back gets the last task of the backlog, or its flag is set, and the end is issued when all are back: the transition that the runs take |
| OnDemandFarm.Emitter.EosNotify | SMP_unipi_lab/example6/example-farm-ondemand.cpp:68-79 | The end of the input is noted, and passed on at once if nothing is outstanding |
| ThreadPool.AllVisitedOnce | SMP_unipi_lab/example4/tree-traversal.cpp:14-38 | When wait_and_stop returns, in every interleaving, each node has been visited exactly once and nothing else has |
| ThreadPool.StoppedMeansIdle | SMP_unipi_lab/example4/include/threadPool.hpp:67-110 | The pool is stopped only when nothing is queued or running and the main thread waits or has returned, so no enqueue ever meets a stopped pool |
| ThreadPool.StepKeepsInv | SMP_unipi_lab/example4/include/threadPool.hpp:45-110 | Every step of every thread keeps the books: visits done, queued and owed by running traversals |
| ThreadPool.TraverseAccount | SMP_unipi_lab/example4/tree-traversal.cpp:14-22 | A step of the traversal moves what it owes into the visits or the queue, whether it recurses or spawns |
| ThreadPool.Children | SMP_unipi_lab/example4/tree-traversal.cpp:14-22 | A subtree is its root and the two subtrees below, with nothing in common |
| ThreadPool.NoDeadlock | SMP_unipi_lab/example4/include/threadPool.hpp:67-186 | Until wait_and_stop returns some thread can take a step |
| ThreadPool.StepsComeToAnEnd | SMP_unipi_lab/example4/include/threadPool.hpp:67-186 | No run goes on forever |
| ThreadPool.EveryRunEnds | SMP_unipi_lab/example4/include/threadPool.hpp:67-186 | A run has no more steps than its initial cost, and one that cannot go on has returned from wait_and_stop with every node visited |
| ThreadPool.NeverReturnsWithoutThreads | SMP_unipi_lab/example4/include/threadPool.hpp:136-186 | With a capacity of 0 wait_and_stop never returns, so a capacity of at least 1 is needed |
| ThreadPool.Pool.Enqueue | SMP_unipi_lab/example4/include/threadPool.hpp:136-166 | A task goes to the end of the queue, or a stopped pool refuses it |
| ThreadPool.Pool.Take | SMP_unipi_lab/example4/include/threadPool.hpp:75-100 | A woken thread takes the oldest task, or exits if the pool is stopped and the queue empty |
| ThreadPool.Pool.AfterTask | SMP_unipi_lab/example4/include/threadPool.hpp:50-57 | The last active thread with an empty queue stops the pool: the transition that the runs take |
| MatrixChain.OptimalOrder | PDS/mcop.cpp:36-64 | Whenever its int products are defined, the program prints the parenthesization of the whole chain that follows the first of the cheapest splits; its cost is the table's entry and the least of all |
| MatrixChain.FillTables | PDS/mcop.cpp:42-54 | Every entry is the least split cost of its range, and the split table holds the first place where it is reached |
| MatrixChain.TablesAreUnique | PDS/mcop.cpp:42-54 | The dimensions determine both tables and the tree, as of equally cheap splits the first is taken |
| MatrixChain.TableIsLowerBound | PDS/mcop.cpp:42-54 | No binary tree over a range is cheaper than its entry |
| MatrixChain.TreeReachesTable | PDS/mcop.cpp:25-34 | The tree that printS follows multiplies the range and costs exactly the entry |
| MatrixChain.PrintS | PDS/mcop.cpp:25-34 | printS prints that tree |
| MatrixChain.RenderIsUnique | PDS/mcop.cpp:25-34 | The printed text determines the tree |
| MatrixChain.Exact | PDS/mcop.cpp:47-47 | As long as the int products fit, no 64-bit sum wraps, and none reaches the initial maximum |
| MatrixChain.SmallDimensions | PDS/mcop.cpp:47-47 | The int products fit whenever no dimension exceeds 1290, and need not beyond that |
| Strassen.Multiply | SMP_unipi_lab/example8/strassen_dac.cpp:228-338 | For every size: the recursive run on strided views gives what the recursion defines, of the size that combining gives it; for every size that halves down to the cutoff that is the ordinary product |
| Strassen.SevenProducts | SMP_unipi_lab/example8/strassen_dac.cpp:244-322 | Strassen's seven products combine to the four quarters of the product |
| Strassen.CombinedIsProduct | SMP_unipi_lab/example8/strassen_dac.cpp:300-322 | Combining the seven products gives the product |
| Strassen.RecursedIsProduct | SMP_unipi_lab/example8/strassen_dac.cpp:228-338 | What the recursion defines is the ordinary product for every size that halves down to the cutoff |
| Strassen.Divide | SMP_unipi_lab/example8/strassen_dac.cpp:228-294 | Dividing makes the operands of the seven products from the quarters of the views |
| Strassen.Combine | SMP_unipi_lab/example8/strassen_dac.cpp:300-322 | Combining writes every cell of the result, quarter by quarter |
| Strassen.CompactMatmul | SMP_unipi_lab/example8/strassen_dac.cpp:103-118 | The classical product of two views |
| Strassen.AddCompactMatrix | SMP_unipi_lab/example8/strassen_dac.cpp:74-87 | Sums and differences of strided views |
| Strassen.SizeIsKept | SMP_unipi_lab/example8/strassen_dac.cpp:228-338 | The size of the result of the run is that of the operands exactly if that size halves down to the cutoff |
| Strassen.PowersAreHalvable | SMP_unipi_lab/example8/strassen_dac.cpp:328-338 | Powers of two do |
| Strassen.HalvableExactly | SMP_unipi_lab/example8/strassen_dac.cpp:328-338 | The sizes that halve down to the cutoff are exactly the numbers up to 128 times a power of two |
| Strassen.UnitIsNeutral | SMP_unipi_lab/example8/strassen_dac.cpp:103-118 | The product with the unit matrix, from either side, is the other factor |
| Strassen.DotHalves | SMP_unipi_lab/example8/strassen_dac.cpp:103-118 | A product of twice the size, block by block |

## Left out

- Codec.ZlibRoundTrip: takes compression as one call that hands its bytes to a growing buffer and decompression as one call into a given buffer; `mz_compress2` and `mz_uncompress` reach the same functions through the streaming interface, which is not modelled.
- Codec.FlushedZlibRoundTrip: bounds the number of blocks by what a caller knows, the flushes asked for and the amount of data; the exact count, and that one header is written exactly up to 2^32 of them, is in `Codec.CompressParts`. That every stream with more blocks is rejected is not claimed, only that `SecondHeader.FlushedTooOften` is.
- Codec.CompressAll: takes the callback that grows a heap buffer never to fail, as `tdefl_compress_mem_to_heap` does while memory lasts.
- Blocks.Inflate: is about streams of well-formed blocks, up to one that the decompressor rejects for its type, its length check or a match that reaches back too far. Blocks with a malformed dynamic header, with symbols that no compressor writes (length symbols 286 and 287, distance symbols 30 and 31) and streams that break off inside a block are not described; for code sizes and packed code sizes, `DecodeTable.BuildTable` and `CodeSizePacking.UnpackCodeSizes` say exactly what is rejected.
- ZlibStream.InflateZlib: requires the same of what is behind a good header.
- BlockForm.InflateCompressed: requires a well-formed block.
- LzParser.FindMatch: does not claim the longest match of a chain that is longer than the probe budget.
- HuffmanTable.OptimizeHuffmanTable: claims least cost only if the minimum-redundancy lengths keep to the limit; where the limiter is at work, `NearOptimal.TableIsNearBest` bounds what is lost, but the best limited code is not computed, by the program or here.
- WavefrontMpi.WavefrontDistributed: stops at the first index outside; what the program does behind it is undefined.
- WavefrontFarm.EndIsSequential: takes the matrix elements as reals, so rounding, and with it a different order of additions, is not modelled.
- MatrixChain.OptimalOrder: needs the products of dimensions to fit an int, because beyond that the program's arithmetic is undefined.
- Strassen.Multiply: is the ordinary product only for the sizes that halve down to the cutoff; for others it is what the recursion defines, without the last row and column of an odd half. Deallocation flags are not modelled.
- ExternalSort.SortFile: takes `std::sort` and the heap of `std::priority_queue` by their contracts, the final file as fresh (the program opens it without truncating), and runs the ranks one after the other, which share nothing.
- ZipIndex.LocateLinear: models the call without comment, path and case flags, for names of at most 65535 bytes, as the directory's 16-bit length field has them.
- ThreadPool.AllVisitedOnce: models lock sections and single reads of `active_threads` as atomic steps; condition variables, futures and destruction are left out, and `waste_cycles` does nothing.
- Codec.RunsAreShort: is about a compressor that starts with empty chains; with nondeterministic parsing the program does not clear them, and the model lets them hold anything.
- `mz_deflateBound`, the estimate of the compressed size: `Codec.CompressAll` and `BlockSize.FlushLen` have bounds of their own.
- The suspend and resume macros of the decompressor, its refilling of the bit buffer, the two-literals-at-a-time path and the wrapping output buffer: the input is there completely, and the output buffer does not wrap.
- In `tinfl_decompress` raw bytes are copied first from the bit buffer and then from the input; the model reads all of them through the bit buffer.
- `tdefl_compress_fast` and the unaligned match finder: variants of what is modelled, for other parsing flags and machines.
- `tdefl_flush_block` with the caller's own output buffer: copying out, and what is left over, appears only as the number that the flush returns.
- Argument checks and the status words of `tdefl_compress`, such as the refusal of calls after the end.
- The rest of the ZIP reader and writer, zip64, the PNG writer, and command line tools.
- FastFlow and MPI runtimes, OpenMP, timers, printing, directory walking and temporary file names; a task's declared dependencies, channels and collective calls are taken as their documentation describes them.
- BLAS numerics and floating point rounding.
- `strassen_mdf.cpp`, `mdf_example.cpp`, the first version of the thread pool, and the demos on memory order, false sharing, vector units, word counts and greetings: fixed or simple, or dependent on hardware.
