# maxcso, verified in Dafny

maxcso turns disc images into CSO, CSO version 2 and ZSO containers and back. An image is read as a stream of
2048-byte sectors, sectors are gathered into blocks, every block is compressed in several ways by worker jobs
that finish in any order, and the best result of each block is written in source order behind a header and an
index. Most trials, and the decompression of CSO blocks, go through zlib's DEFLATE code at level 9. CRC-32 and
Adler-32 guard the data.

The project models three parts and connects them:

- **The block pipeline** (`Blocks`, `Sectors`, `CsoFormat`, `CsoWriter`, `CsoFields`, `IndexBound`, `ContainerRoundTrip`,
  `ContainerLimits`, `Lanes`, `Outputs`, `Inputs`, `Compression`). `Output`, `Input`, `Sector` and
  `CompressionTask` are classes with the fields of the original; the event loop is a choice among outstanding
  reads, decompressions, compression jobs and writes. A writer that handles one block at a time (`CsoWriter`)
  is the reference for every schedule.
- **The DEFLATE codec**, from the tokens of `deflate_slow`, `deflate_rle` and `deflate_huff` (`Lz77`,
  `HashChains`, `LazyParsing`, `DeflateWindow`, `LongestMatch`, `DeflateSlow`, `DeflateRle`), over Huffman trees
  (`HuffmanCost`, `HuffmanHeap`, `HuffmanMerge`, `HuffmanTree`, `LengthCounts`, `BitLengths`, `TreeLengths`,
  `TreeCodes`), canonical codes and decoding tables (`CanonicalCode`, `BitReverse`, `GenCodes`, `DecodeTable`,
  `TableSetup`, `TableSteps`, `TableSpace`, `InfTrees`), block headers and block data (`BitStreams`, `BitWriter`,
  `BitReader`, `CodeRuns`, `TreeSender`, `CodeItems`, `TokenCodes`, `DynamicHeader`, `BlockData`, `BlockCost`,
  `BlockTrees`, `StaticTrees`, `FlushBlocks`) to the decoder (`CodeSymbols`, `InflateSymbols`, `InflateItems`,
  `InflateLens`, `InflateHeader`, `InflateWindow`, `InflateCopy`, `InflateBlock`, `InflateFast`, `BlockKinds`,
  `InflateStream`) and the round trip of whole streams (`TokenItems`, `EncodedBlocks`, `ZlibRoundTrip`).
  `Rfc1951` sets the numbers of the standard and known streams against the definitions that both sides share.
- **The checksums** (`Xors`, `Crc32`, `Crc32Tables`, `Crc32ByFour`, `Crc32Combine`, `Checksum`, `Adler32`).

The main results:

- `InflateStream.Inflate`: on any bytes whatever, the decoder succeeds exactly if the input begins with a valid
  stream whose meaning fits the output, and then writes that meaning. What a stream is and means is defined
  without the decoder (`DataReads`, `HeaderReads`, `BlockReads`, `StreamReads`), and is proved to be unique. The
  codes of a block may be any that `inflate_table` accepts: complete, a lone one-bit code, or none at all.
- `ZlibRoundTrip.RoundTrip`: for all data and all four strategies in use, what the encoder writes, the decoder
  turns back into the data, whatever bytes follow the stream. It does not depend on the size of the decoding tables, since
  `InfTrees.InflateTable` never exceeds `ENOUGH_LENS` and `ENOUGH_DISTS`: the two numbers that `inftrees.h`
  takes from an exhaustive search are proved sufficient for every set of code lengths (`TableSpace`).
- `TreeCodes.BuildTree`: the heap-based `build_tree` gives lengths of minimal total cost, and after the
  length-limit repair a complete code in which lighter symbols are not shorter; the predicted block length is exact (`FlushBlocks.FlushBlockBits`).
- `DeflateSlow.DeflateSlow`: the tokens are exactly those of a lazy evaluation that is defined on the input alone
  (`LazyParsing`), without window, hash table or chains; it takes the longest match among the candidates
  (`LazyParsing.NextBest`). `DeflateRle` likewise takes every run.
- `InflateFast.RunFast`: on any input, and with any tables that `inflate_table` builds, `inflate_fast` stays within
  six bytes of input and 258 bytes of output per round, and what it reads are codes whose meaning is what it writes.
- `Compression.CompressionTask.Run`: every schedule ends, reports success once, and leaves the same file.
- `ContainerRoundTrip.FinalRepresents`: the file is a container for the image if and only if the end position
  fits. **It does not always fit**: with `indexShift` 0 the padded end of the last block can reach 2^31, its
  high bit is masked off by the reader, and the last block cannot be read
  (`ContainerLimits.EndMayNotFit` gives the image). `ContainerLimits.RoundTripAhead` gives the exact condition
  in terms of sizes known before the run.

Conventions. Sizes, positions and registers are natural numbers; where the source relies on a width (16-bit
frequencies and hash heads, 16-bit bit buffers, 32-bit lengths and checksums, 31-bit index entries) the reduction
is written out. Bit shifts and masks are the recursive functions of `Bits`; exclusive or is that of `Xors`. A bit
string is its value and its length, the first bit lowest, as section 3.1.1 of RFC 1951 packs them. `Plan` holds
the choices of a run: target, block size, costs, and the results of the trials for each block, which must be
lossless also with zero padding behind them. Constants and formats that writer and reader share are stated once more
as numbers, apart from the definitions (`Rfc1951`, `CsoFields`, `Crc32Tables.KnownCrcs`, `Adler32.KnownAdler`). Ghost parameters name the bits that come next in the input.

Where code and comments disagree, the code is followed. The comment at `zlib/trees.c:651` says that a forced node
is 0 or 1; if symbol 1 is the only one in use, `++max_code` forces symbol 2 (which has no extra bits either, so
the costs are right all the same). The comment in `SetFile` about shifting enough off to fit into 31 bits is true
of all block starts, but not of the end position.

## Model

| member | source | states |
|---|---|---|
| HuffmanHeap.PqDownHeap | zlib/trees.c:451-474 | sifting down restores the heap order from the given index on, keeps the queue as a multiset, and touches nothing else |
| HuffmanHeap.PqRemove | zlib/trees.c:430-434 | takes out a node of least frequency, and among these of least depth; the rest of the queue stays, in heap order |
| HuffmanCost.SplitKeepsOptimal | zlib/trees.c:668-689 | the exchange argument: splitting a node of an optimal assignment into the two lightest nodes keeps it optimal among all lengths that satisfy Kraft's inequality |
| HuffmanCost.Contract | zlib/trees.c:668-689 | every decodable assignment yields one for the merged nodes that is cheaper by the merged weight |
| HuffmanCost.PrefixCodeDecodable | zlib/trees.c:607-614 | the lengths of any prefix-free set of words satisfy Kraft's inequality |
| HuffmanCost.OptimalLonger | zlib/trees.c:668-694 | in an optimal code lighter symbols do not have shorter codes |
| HuffmanMerge.MergedOnce | zlib/trees.c:668-689 | no node is merged twice |
| HuffmanMerge.MergesRise | zlib/trees.c:668-689 | nodes are merged in the order of their weights |
| HuffmanMerge.DepthsOptimal | zlib/trees.c:668-694 | the depths read off a greedy merge history are optimal for the queue at every time |
| HuffmanMerge.ClippedKraft | zlib/trees.c:511-514 | each pair of sons clipped at the length limit overfills the code by exactly one unit |
| HuffmanTree.TreeBuilder.Combine | zlib/trees.c:668-689 | one round of the merge loop extends the merge history greedily and keeps the queue in heap order |
| HuffmanTree.TreeBuilder.ForceTwoCodes | zlib/trees.c:642-657 | at least two codes of non-zero frequency; the bits of forced codes are not counted |
| HuffmanTree.TreeBuilder.Heapify | zlib/trees.c:659-662 | establishes the heap order on the collected leaves |
| HuffmanTree.TreeBuilder.MergeAll | zlib/trees.c:659-689 | leaves the whole greedy merge history in the heap array and the father fields |
| BitLengths.ClipsInPairs | zlib/trees.c:510-514 | the overflow counter of the first pass is twice the number of clipped merges |
| BitLengths.RepairCounts | zlib/trees.c:532-545 | the repair loop ends, and takes away exactly the excess: the counts describe a complete code with as many codes and none above the limit; each time a leaf of the longest length below the limit is moved down |
| BitLengths.DealLengths | zlib/trees.c:547-561 | the recomputed lengths have the repaired counts as histogram and rise along the heap, and opt_len changes by exactly the change of cost |
| LengthCounts.ShorterExists | zlib/trees.c:536-537 | with at most 2^max_length codes the search for a shorter length ends |
| LengthCounts.HistogramSums | zlib/trees.c:486-562 | Kraft sum and size of a set of codes depend only on the counts |
| TreeLengths.FirstPassOverfull | zlib/trees.c:507-529 | after the first pass the number of clipped nodes is twice the Kraft excess |
| TreeLengths.OverflowIff | zlib/trees.c:511-529 | nothing overflows exactly when no leaf lies deeper than the limit |
| TreeLengths.RisingLonger | zlib/trees.c:547-561 | lengths dealt along the heap are not shorter for lighter symbols |
| TreeLengths.GenBitlen | zlib/trees.c:486-562 | a complete code within the limit for exactly the leaves; opt_len and static_len grow by the cost of it; without overflow the lengths are the tree depths, with it lighter symbols are not shorter |
| TreeLengths.BuildLengths | zlib/trees.c:615-694 | for all frequencies within the 16-bit counters: a complete code, minimal in total cost unless clipped, and never shorter for a lighter symbol; forced codes only if fewer than two symbols occur |
| TreeCodes.BuildTree | zlib/trees.c:615-697 | as above, with the canonical bit-reversed codes stored for exactly the used symbols |
| TreeCodes.OptimalOverPrefixCodes | zlib/trees.c:607-614 | the optimal lengths cost no more than those of any prefix code |
| BitReverse.BiReverse | zlib/trees.c:1158-1168 | the loop reverses the low bits of a code |
| BitReverse.RevRev | zlib/trees.c:1153-1168 | reversing twice gives the code back |
| BitReverse.BackIncrRev | zlib/inftrees.c:237-246 | incrementing the reversed code backwards is incrementing the code, wrapping to zero after the last one |
| BitReverse.BackwardsIncrement | zlib/inftrees.c:237-246 | the mask loop computes the backwards increment |
| GenCodes.FirstCodes | zlib/trees.c:583-591 | the counts give the first canonical code value of each length |
| GenCodes.GenCodes | zlib/trees.c:572-605 | every symbol of non-zero length gets its canonical code, bit-reversed, within its length; others keep what they had; the 16-bit next_code never loses a bit |
| CanonicalCode.PrefixFreeCode | zlib/trees.c:564-605 | no bit string starts with the codes of two symbols |
| CanonicalCode.SomeCodeMatches | zlib/inftrees.c:136-144 | with a complete code every bit string starts with the code of some symbol |
| CanonicalCode.Matches | zlib/trees.c:572-605 | a bit string starts with a code exactly if its first fifteen bits lie in the interval of that code |
| TableSetup.CheckSpace | zlib/inftrees.c:136-144 | left is the unused code space, negative exactly for over-subscribed lengths |
| TableSetup.SortSymbols | zlib/inftrees.c:146-153 | each used symbol lands at its rank by length and value |
| TableSetup.SlotFits | zlib/inftrees.c:265-274 | all codes that share a root slot fit in the sub-table sized by the look-ahead |
| TableSteps.EnterShort | zlib/inftrees.c:212-235 | entering a code in the root table keeps all codes entered so far decodable |
| TableSteps.EnterLong | zlib/inftrees.c:212-235 | the same for a sub-table |
| TableSteps.StartSub | zlib/inftrees.c:255-287 | opening a sub-table under a fresh root slot keeps all codes decodable |
| TableSpace.SubTableBits | zlib/inftrees.c:265-274 | the look-ahead finds a size that fits every code of the slot; a table of 2^b entries that begins with a bits has at least 2^a + b - a codes |
| TableSpace.SlotStart | zlib/inftrees.c:255-256 | a code that needs a new sub-table begins a root slot |
| TableSpace.SizedStep | zlib/inftrees.c:276-280 | opening a sub-table keeps the account: the entries used so far are bounded by the codes they hold |
| TableSpace.EnoughSpace | zlib/inftrees.h:38-53 | 852 entries suffice for all complete codes of up to 286 symbols with nine root bits, 592 for up to 30 symbols with six |
| InfTrees.NextHuff | zlib/inftrees.c:237-253 | the incremented code is the code of the next symbol in order |
| InfTrees.EnterSymbol | zlib/inftrees.c:212-246 | one round of the main loop enters one symbol and steps to the next code |
| InfTrees.OpenSubTable | zlib/inftrees.c:255-287 | a sub-table is linked for the next symbol, or the space check fails |
| InfTrees.EnterAll | zlib/inftrees.c:207-288 | the loop enters every symbol; it gives up only if more than ENOUGH entries are needed |
| InfTrees.InflateTable | zlib/inftrees.c:32-304 | refuses exactly the over-subscribed codes and the incomplete ones other than a lone one-bit code or none; never runs out of space with the sizes of inflate.c; otherwise any bit string that starts with the code of a symbol finds that symbol and its length, and any other finds an entry marked invalid |
| DecodeTable.TablesDecode | zlib/inflate.c:1052-1066 | the two-level look-up in filled tables finds the symbol whose code starts the bits, with its whole length |
| Lz77.CopyRepeats | zlib/inflate.c:1146-1190 | copying byte by byte from dist back reproduces a repetition, also where source and target overlap |
| HashChains.ThirdByte | zlib/deflate.c:1335-1341 | equal hash keys and equal first two bytes force the third byte to be equal |
| HashChains.InsertKeeps | zlib/deflate.c:177-185 | INSERT_STRING keeps the chains: every head is the latest string with its hash, and every link leads to the latest older one |
| HashChains.SlideKeeps | zlib/deflate.c:201-225 | sliding the window keeps the chains |
| DeflateWindow.DeflateState.SlideHash | zlib/deflate.c:201-225 | every entry is reduced by the window size, or becomes nil |
| DeflateWindow.DeflateState.Slide | zlib/deflate.c:1514-1523 | the slide keeps window, chains and the positions in the input |
| DeflateWindow.DeflateState.ReadBuf | zlib/deflate.c:1164-1189 | the bytes behind the lookahead are the next bytes of the input, as many as fit |
| DeflateWindow.DeflateState.FillWindow | zlib/deflate.c:1482-1599 | afterwards there is enough lookahead or no input left, and as much as fits has been read; the window moves exactly if there is no room for a whole match; positions in the input are unchanged |
| DeflateWindow.DeflateState.InsertString | zlib/deflate.c:163-185 | the string at strstart heads its chain, under its three bytes shifted by six bits each; the previous head is the latest older string with the same hash |
| LongestMatch.ScanMatch | zlib/deflate.c:1344-1357 | the unrolled comparison returns only bytes that agree, up to 258 |
| LongestMatch.ThirdFollows | zlib/deflate.c:1335-1341 | the third byte of a candidate from the chain is equal without a comparison |
| LongestMatch.TryMatch | zlib/deflate.c:1330-1357 | a candidate gives a length only for a true repetition in the window |
| LongestMatch.NextCandidate | zlib/deflate.c:1324-1374 | one round of the search: what is left of the search on the input gives the same result as before |
| LongestMatch.FindLongest | zlib/deflate.c:1236-1377 | a result above prev_length is that of the search on the input: a true repetition within the lookahead; and no candidate repeats longer, unless the search stopped at nice_match; otherwise the search on the input finds nothing above prev_length |
| LazyParsing.SearchBest | zlib/deflate.c:1236-1377 | no candidate within reach agrees for longer than the result of the search, and none that is later for as long |
| LazyParsing.SearchSound | zlib/deflate.c:1236-1377 | what the search finds is a repetition within reach |
| LazyParsing.LookSound | zlib/deflate.c:1948-1983 | so is the match that is taken at a position |
| LazyParsing.LookBest | zlib/deflate.c:1948-1983 | no string in reach repeats longer than the larger of the pending and the new match, unless that reaches nice_match, or the repetition has at most five bytes of filtered data or three bytes more than 4096 back |
| LazyParsing.NextBest | zlib/deflate.c:1934-2035 | the same in every round of lazy evaluation, for every earlier position less than 32506 back with few enough strings of its hash between |
| LazyParsing.FoundIsUsed | zlib/deflate.c:1984-2034 | a match found becomes a token with its length and distance, unless the next position has a longer one; then its first byte does |
| LazyParsing.RunTokens | zlib/deflate.c:1926-2049 | 300 equal bytes give two literals and matches of 258 and 40 bytes |
| DeflateSlow.ChooseMatch | zlib/deflate.c:1948-1983 | the string at strstart is inserted, and the match is the one to be found on the input: the longest of the search, or none if it is too short to be worth its bits |
| DeflateSlow.EmitPrevious | zlib/deflate.c:1987-2012 | the pending match is tallied with its length and distance and its strings inserted; the tokens still stand for the input before strstart |
| DeflateSlow.Advance | zlib/deflate.c:2014-2034 | the byte held back is tallied, or one is held back from now on |
| DeflateSlow.FlushBlock | zlib/deflate.c:1602-1617 | the block takes over the tokens of a full buffer, and its raw bytes, if still in the window, are the input it stands for |
| DeflateSlow.Round | zlib/deflate.c:1934-2035 | every round is exactly one step of lazy evaluation on the input, in state and tokens |
| DeflateSlow.DeflateSlow | zlib/deflate.c:1926-2049 | the tokens of all blocks are exactly those of lazy evaluation on the input, and expand to it, across window slides; every block but the last fills the token buffer; each block's raw bytes are its part of the input |
| DeflateSlow.BlocksExpand | zlib/deflate.c:1926-2049 | blocks that cover the input one after the other expand to it |
| DeflateRle.ScanRun | zlib/deflate.c:2081-2094 | a run is found exactly if at least three bytes repeat, and is as long as they do |
| DeflateRle.DeflateRle | zlib/deflate.c:2057-2124 | the tokens of all blocks are exactly the runs of three or more and the bytes between them, and expand to the input |
| DeflateRle.DeflateHuff | zlib/deflate.c:2130-2163 | the tokens are one literal for each byte of the input |
| BitWriter.Writer.SendBits | zlib/trees.c:186-229 | the value is appended to all bits sent so far, also when it spills over the 16-bit buffer |
| BitWriter.Writer.BiFlush | zlib/trees.c:1173-1185 | whole bytes leave the buffer; the bits sent are the same |
| BitWriter.Writer.BiWindup | zlib/trees.c:1190-1203 | zero bits up to a byte boundary |
| BitReader.Reader.NeedBits | zlib/inflate.c:506-520 | takes in bytes until n bits are there, and fails only at the end of the input; the unread bits stay the same |
| BitReader.Reader.DropBits | zlib/inflate.c:527-531 | the unread bits lose their first n |
| BitReader.Reader.ByteBits | zlib/inflate.c:534-538 | drops the bits up to the next byte boundary of the input |
| TokenCodes.TrStaticInit | zlib/trees.c:232-316 | every length and distance is covered by its code: base plus extra bits |
| TokenCodes.DecoderAgrees | zlib/inftrees.c:54-74 | the decoder's base and extra tables are those of the encoder |
| CodeRuns.RunsRoundTrip | zlib/trees.c:748-793 | for all length arrays, the symbols for both trees, expanded as one sequence, give both arrays back without a repeat error |
| CodeRuns.ExpandRuns | zlib/inflate.c:959-1005 | the symbols of one tree expand to its lengths, whatever was expanded before |
| CodeRuns.RunsValid | zlib/trees.c:748-793 | all symbols lie in the code of 19 and their counts in their extra bits |
| TreeSender.ScanTree | zlib/trees.c:703-742 | counts exactly the symbols that send_tree sends |
| CodeItems.SendTree | zlib/trees.c:748-793 | sends exactly the runs of the lengths |
| DynamicHeader.SendAllTrees | zlib/trees.c:834-858 | sends the counts, the ordered bit lengths and both trees |
| DynamicHeader.OrderTable | zlib/trees.c:71-76 | the order in which bit lengths are sent |
| InflateLens.DecodeLens | zlib/inflate.c:959-1005 | on any input the CODELENS loop reads lengths exactly if the bits spell runs that expand to them; otherwise no such runs begin the input |
| InflateLens.LensUnique | zlib/inflate.c:959-1005 | bits spell the code lengths of a block in at most one way |
| InflateHeader.ReadHeader | zlib/inflate.c:920-1012 | on any input it gives the counts and lengths of the header that begins there, or there is none |
| InflateHeader.HeaderUnique | zlib/inflate.c:920-1012 | at most one header begins a bit string |
| BlockData.CompressBlock | zlib/trees.c:1064-1109 | sends the codes and extra bits of every token, then the end of the block |
| BlockCost.Tally | zlib/trees.c:1014-1039 | the counters hold how often each symbol occurs in the tokens |
| BlockCost.DataCost | zlib/trees.c:486-529 | frequency times length with extra bits, summed, is the number of bits that compress_block sends |
| BlockCost.RunsCost | zlib/trees.c:799-827 | the same for the bit length tree and send_tree |
| BlockTrees.BuildBlTree | zlib/trees.c:799-827 | the bit length tree codes every run, no more lengths of it are sent than needed, and opt_len grows by the length of the whole header |
| BlockTrees.BuildEncoding | zlib/trees.c:931-951 | for every token buffer opt_len is the number of bits of header and data; every symbol in use has a code; the last lengths that are told are not zero |
| StaticTrees.StaticLiterals | zlib/trees.c:289-302 | the static literal and length code is complete and canonical |
| StaticTrees.StaticDistances | zlib/trees.c:304-308 | so is the static distance code |
| StaticTrees.StaticCost | zlib/trees.c:486-529 | static_len is exactly the number of bits with the static codes |
| FlushBlocks.StoredBlock | zlib/trees.c:863-880 | three bits, padding, the length and its complement, and the bytes |
| FlushBlocks.FlushBlockBits | zlib/trees.c:911-1006 | both predictions, plus three, are the lengths of the compressed forms; the block is stored exactly if that takes no more bytes than either, otherwise sent in the shorter form, with precisely the bits of that form |
| Rfc1951.BlockHead | zlib/inflate.c:849-886 | the first bit of a block tells the last one, the next two are 0, 1 or 2 for the three kinds |
| Rfc1951.FormHead | zlib/trees.c:911-1006 | the three bits that the encoder sends before each form of a block |
| Rfc1951.Example | zlib/trees.c:572-605 | the codes of the example in section 3.2.2 of RFC 1951 |
| Rfc1951.FixedCodes | zlib/trees.c:289-308 | the fixed codes as the numbers of section 3.2.6 of RFC 1951 |
| Rfc1951.LengthTable | zlib/inftrees.c:54-66 | base and extra bits of the 29 length symbols, as numbers |
| Rfc1951.DistTable | zlib/inftrees.c:67-74 | base and extra bits of the 30 distance symbols, as numbers |
| Rfc1951.HeaderCounts | zlib/inflate.c:920-926 | the first fourteen bits of a dynamic header |
| Rfc1951.RepeatCodes | zlib/inflate.c:959-1005 | the repeat symbols 16, 17 and 18, with counts from 2, 3 and 7 bits |
| Rfc1951.OneRun | zlib/trees.c:748-793 | how a stretch of equal lengths is sent: repeats as soon as they are allowed |
| Rfc1951.KnownEmpty | zlib/inflate.c:622-1270 | the bytes 03 00 mean nothing at all |
| Rfc1951.KnownLetter | zlib/inflate.c:622-1270 | 4b 04 00 mean the letter a |
| Rfc1951.KnownStored | zlib/inflate.c:887-919 | a stored letter, with LEN and NLEN |
| Rfc1951.KnownRun | zlib/inflate.c:622-1270 | 4b 4c 1c 05 c4 02 00 mean 300 times the letter a |
| CodeSymbols.SymUnique | zlib/inftrees.c:102-144 | for every code that inflate_table accepts, bits begin with at most one symbol's code, or with a bit that starts none |
| InflateSymbols.FirstLook | zlib/inflate.c:1052-1066 | the first look-up gives the entry of what comes next, or a link to the sub-table that holds it; neither claims more bits than that |
| InflateSymbols.DecodeSymbol | zlib/inflate.c:1052-1072 | on any input, and for every code that inflate_table accepts: takes exactly the next symbol, or the bit that starts no code, and no more bytes than that; it fails only if the input ends before |
| InflateWindow.InflateState.UpdateWindow | zlib/inflate.c:396-444 | the circular window holds the last whave bytes of all output |
| InflateCopy.WindowBytes | zlib/inffast.c:201-245 | where in the window the bytes of a distance lie: contiguous, at the end, or wrapped |
| InflateCopy.FastCopy | zlib/inffast.c:169-264 | refuses exactly the distances that reach beyond window and output; otherwise every byte repeats the one dist back and nothing else changes |
| InflateCopy.CopiedIsMatch | zlib/inffast.c:169-264 | such a copy is the byte-by-byte copy of the token's meaning |
| InflateCopy.MatchStep | zlib/inflate.c:1146-1190 | copies a non-empty part of the match, from one source, with the same guarantee |
| InflateCopy.StepKeepsMatch | zlib/inflate.c:1146-1190 | what is left of the match continues the same copy |
| InflateCopy.ResumableCopy | zlib/inflate.c:1146-1190 | a match spread over any output buffers, with updatewindow between them, is one whole copy |
| InflateItems.ItemUnique | zlib/inffast.c:106-290 | bits spell at most one item: a literal, a match, a match without a valid distance, or a stop |
| InflateItems.DataUnique | zlib/inflate.c:1044-1195 | bits are the data of a block in at most one way, and it ends in one place |
| InflateItems.PairRange | zlib/inftrees.c:54-74 | a match that can be spelled has length 3 to 258 and distance 1 to 32768 |
| InflateBlock.InflateToken | zlib/inflate.c:1044-1195 | the LEN state on any input: reads one item and writes its meaning, or rejects an item without one, or the input ends inside the item, or its meaning does not fit the output |
| InflateFast.FastMatch | zlib/inffast.c:119-158 | length and distance take at most 48 bits with the length code, whatever the input; a distance bit that starts no code is rejected |
| InflateFast.FastRound | zlib/inffast.c:106-288 | on any input and with every accepted code one round reads one item, never holds more than 30 bits, writes its meaning, and refuses only symbols without meaning, bits that start no code, and distances out of reach |
| InflateFast.ReturnUnused | zlib/inffast.c:290-306 | whole unused bytes go back to the input; fewer than eight bits stay, and the unread bits are the same |
| InflateFast.RunFast | zlib/inffast.c:50-306 | for any input, accepted codes, window and output that meet the entry assumptions: reads and writes stay in bounds, the bits read spell the items, the output is continued by their meaning, and hold is the true unread bits |
| InflateFast.InflateData | zlib/inflate.c:1044-1195 | fast and slow path together, on any input: they succeed exactly if the bits spell items up to an end of block whose meaning after the history fits, and write that meaning |
| InflateStream.FixedTables | zlib/inflate.c:278-317 | the tables decode the static codes |
| InflateStream.ReadStored | zlib/inflate.c:887-919 | on any input a stored block gives its bytes; it fails exactly if its head is damaged or cut off, its bytes are missing, or they do not fit |
| InflateStream.ReadDynamic | zlib/inflate.c:920-1043 | on any input: tables that decode the block's two codes, or the input begins with no header of two usable codes with an end of block |
| InflateStream.ReadBlock | zlib/inflate.c:849-1195 | on any input it succeeds exactly if the bits ahead are a block of one of the three kinds whose meaning fits, and gives that meaning and the last-block flag |
| InflateStream.BlockUnique | zlib/inflate.c:849-1195 | at most one block begins a bit string, with one meaning |
| InflateStream.StreamUnique | zlib/inflate.c:622-1270 | a bit string begins with at most one stream, with one meaning and one end |
| InflateStream.DecodesUnique | zlib/inflate.c:622-1270 | bytes mean at most one output |
| InflateStream.Inflate | zlib/inflate.c:622-1270 | on any bytes: succeeds with the meaning of the stream that begins them, if there is one and it fits; otherwise there is none, or its meaning is longer than the output |
| TokenItems.TokensSpelled | zlib/trees.c:1064-1109 | the bits that compress_block sends spell the items that mean its tokens |
| EncodedBlocks.HeaderSent | zlib/trees.c:834-858 | what send_all_trees sends reads as the header of the two codes |
| EncodedBlocks.FormReads | zlib/trees.c:911-1006 | each of the three forms in which a block is sent reads as a block that means its tokens |
| ZlibRoundTrip.SentAndFollowing | zlib/deflate.c:763-1073 | what is sent up to a block and what follows make up the whole stream |
| ZlibRoundTrip.SendBlocks | zlib/trees.c:911-1006 | the bytes are the bits of all blocks, each in its chosen form, and padding |
| ZlibRoundTrip.Deflate | zlib/deflate.c:763-1073 | a whole stream under any of the four strategies at level 9 covers the data block by block, with exactly the tokens of the strategy, 32767 in every block but the last |
| ZlibRoundTrip.SentReads | zlib/deflate.c:763-1073 | from every block on, what is sent reads as a stream that means the rest of the data, whatever follows it |
| ZlibRoundTrip.RoundTrip | src/sector.cpp:176-207 | decoding what was encoded gives the data back, for all data and strategies, with any bytes behind the stream |
| Crc32.CrcJoin | zlib/crc32.c:372-425 | the CRC of a concatenation: the first CRC stepped over the second length, added to the second |
| Crc32.StepsXor | zlib/crc32.c:62-87 | the register is linear |
| Crc32.FeedBitsSteps | zlib/crc32.c:62-87 | feeding bits one by one is adding them all and then stepping |
| Crc32Tables.MakeCrcTable | zlib/crc32.c:88-127 | the tables hold the bytes followed by zero to three zero bytes, and the same swapped, for the polynomial built from its terms |
| Crc32Tables.MakePoly | zlib/crc32.c:93-106 | the loop over the terms builds the polynomial |
| Crc32Tables.PolyTerms | zlib/crc32.c:93-106 | the polynomial as the sum of its fourteen terms |
| Crc32Tables.KnownCrcs | zlib/crc32.c:202-231 | known answers: of nothing, of four bytes FF, and of FF FF FF 7F |
| Crc32Tables.FourLookUps | zlib/crc32.c:260-263 | 32 steps are four look-ups |
| Crc32ByFour.Crc32Little | zlib/crc32.c:266-297 | for every start value, length and alignment the word-wise CRC is the bit-wise one |
| Crc32ByFour.Crc32Big | zlib/crc32.c:306-337 | the same for the byte-swapped register of big-endian machines |
| Crc32Combine.MatrixTimes | zlib/crc32.c:344-358 | multiplying applies the operator for n zero bits |
| Crc32Combine.MatrixSquare | zlib/crc32.c:361-369 | squaring doubles the number of zero bits |
| Crc32Combine.Combine | zlib/crc32.c:372-425 | repeated squaring steps the first CRC over len2 zero bytes, and returns it unchanged for len2 of zero or less |
| Crc32Combine.CombineCrcs | zlib/crc32.c:428-434 | combining the CRCs of two byte strings gives the CRC of their concatenation |
| Checksum.ChecksumTask.HandleBuffer | src/checksum.cpp:107-140 | takes in the next sector and all waiting ones that follow it |
| Checksum.ChecksumTask.Receive | src/checksum.cpp:97-104 | a sector in any order keeps the CRC that of the image up to pos |
| Checksum.ChecksumTask.AllArrived | src/checksum.cpp:107-140 | once all sectors have arrived the CRC of the whole image has been reported, once |
| Checksum.ChecksumImage | src/checksum.cpp:83-140 | for every order of arrival the reported CRC is that of the image |
| Adler32.Adler32Z | zlib/adler32.c:63-131 | with reductions deferred over 5552 bytes and no 32-bit overflow, the result is the definition of section 8.2 of RFC 1950 |
| Adler32.KnownAdler | zlib/adler32.c:63-131 | a known answer: the checksum of Wikipedia is 11e60398 |
| Adler32.Mod28 | zlib/adler32.c:20-60 | the shift-based reduction is the remainder by 65521 |
| Adler32.Mod63 | zlib/adler32.c:36-44 | the same for 64-bit sums |
| Adler32.CombineJoins | zlib/adler32.c:143-169 | the formula on the sums of two parts gives the checksum of their concatenation |
| Adler32.Combine | zlib/adler32.c:143-169 | the conditional subtractions compute the formula; negative lengths give the error value |
| Adler32.CombineAdlers | zlib/adler32.c:172-178 | combining the checksums of two byte strings gives that of their concatenation |
| Sectors.SelectBound | src/sector.cpp:288-320 | for every order of trials the chosen size exceeds no trial by more than the two costs |
| Sectors.SelectSmallest | src/sector.cpp:288-320 | without costs the choice is the smallest of all |
| Sectors.FinalizeRecovers | src/sector.cpp:139-151 | the aligned size is below the block size if the block is compressed, and equal to it if not |
| Sectors.FinalizeKeeps | src/sector.cpp:139-151 | the choice is kept exactly if its aligned size is below the block size, and otherwise the block is stored |
| Sectors.FinalSmallest | src/sector.cpp:139-151 | without costs no trial, nor the block, would take less space after alignment |
| Sectors.Sector.Process | src/sector.cpp:87-137 | gathers sectors, queues the job when the block is complete, and refuses every misplaced sector, also one before its own |
| Sectors.Sector.SubmitTrial | src/sector.cpp:288-320 | keeps the trial exactly if it is better: smaller by more than the cost of leaving the format alone; LZ4 after deflate at most the LZ4 cost larger; deflate after LZ4 smaller by more than that cost |
| Sectors.Sector.CompressAndFinalize | src/sector.cpp:139-173 | the worker leaves the choice of all trials in their order if it still saves space after alignment, and no choice otherwise |
| IndexBound.ShiftLeast | src/output.cpp:57-72 | the shift is the least that fits the worst size in 31 bits |
| IndexBound.StartBelowWorst | src/output.cpp:113-120 | every block begins below the worst size in spite of alignment and padding |
| IndexBound.BlockStartFits | src/output.cpp:297-303 | block starts increase and fit 31 bits after the shift; position and flag are recovered from the entry |
| IndexBound.BlockLength | src/output.cpp:218-243 | the distance to the next block is exactly the aligned size, the block size exactly if stored |
| ContainerRoundTrip.HeaderFields | src/output.cpp:390-402 | the bytes of the header, with "CISO" or "ZISO" and the size of 24, and the fields read back as written |
| ContainerRoundTrip.Located | src/input.cpp:227-267 | the reader finds every block where the writer put it, but for the last one if the end does not fit |
| ContainerRoundTrip.FinalRepresents | README_CSO.md:30-81 | what the writer leaves is a container for the image exactly if the end position fits |
| CsoFields.DetectKind | src/input.cpp:62-68 | the kind of any file follows from its first four bytes, given as numbers, and the version |
| CsoFields.DetectContainer | src/input.cpp:62-118 | any file with such a beginning is accepted exactly if version, block size and image size are, and its index is there; the fields are little endian numbers |
| CsoFields.LocateBlock | README_CSO.md:36-81 | for any container, where the block of a sector is and how it is compressed, by the 31 lower bits, the next entry and the high bit |
| CsoFields.EntryFlag | src/output.cpp:297-331 | the high bit of the entries written: uncompressed, or LZ4 in version 2 |
| CsoFields.SmallestBlock | src/sector.cpp:288-320 | without costs no block takes more space in the file than any of its trials or than the block itself |
| ContainerLimits.RoundTripAhead | src/output.cpp:57-72 | with room for whole blocks below 2^31, or a shift, the round trip holds for all trials; otherwise it fails when no block compresses |
| ContainerLimits.EndMayNotFit | src/output.cpp:57-72 | an image for which the round trip fails |
| ContainerLimits.IsoFile | src/output.cpp:98-103 | decompressing writes exactly the image |
| Outputs.Output.constructor | src/output.cpp:40-96 | the writer begins with all sectors free, the least shift, and the first block behind header and index |
| Outputs.PickShift | src/output.cpp:57-72 | the loop over the bits of the worst size |
| Outputs.Output.UpdateIndex | src/output.cpp:297-331 | one entry is set, with the flag of the format; a format the container lacks is an error |
| Outputs.Output.Enqueue | src/output.cpp:122-176 | takes a sector in order, never from an empty free list, opens or continues its block, and pads the last one with zeros |
| Outputs.Output.Pad | src/output.cpp:160-175 | zero sectors complete the last block |
| Outputs.Output.JobDone | src/sector.cpp:124-133 | any finished job keeps the invariant, and the next block to write never waits without a job or write |
| Outputs.Output.CollectBatch | src/output.cpp:186-216 | the ready sectors that follow the first one are taken from the queue in order, until one is missing or there are sixteen |
| Outputs.Output.AssembleBatch | src/output.cpp:218-243 | the bytes of the batch are those the one-block writer would write, and so are its index entries |
| Outputs.Output.Launch | src/output.cpp:178-271 | starts the only data write, from the first block not yet written |
| Outputs.Output.HandleReady | src/output.cpp:178-271 | a ready sector is queued, or written with its followers if it is next |
| Outputs.Output.Written | src/output.cpp:273-288 | a completed write frees its sectors and moves on by its blocks |
| Outputs.Output.AfterProgress | src/output.cpp:288-295 | either everything is written or the next ready blocks are launched |
| Outputs.Output.CompleteIndex | src/output.cpp:245-260 | with the last block the index gets the end position and is handed to a write |
| Outputs.Output.FlushDone | src/output.cpp:412-429 | header and index are in the file |
| Outputs.Output.CheckFinish | src/output.cpp:482-486 | success is reported when data and index are both written |
| Inputs.SetupCache | src/input.cpp:193-202 | the least doubling of the block size that is at least 32768 |
| CsoFormat.CacheLeast | src/input.cpp:193-202 | the doubling loop ends at the first size of at least 32768 |
| Inputs.Input.NextRequest | src/input.cpp:217-305 | the sector from the cache, or a request for what is missing |
| Inputs.Input.ReadDone | src/input.cpp:303-324 | a read serves the sector or starts its decompression |
| Inputs.Input.UnpackDone | src/input.cpp:344-365 | the decompressed block, without padding, is that part of the image |
| Inputs.Input.Resume | src/input.cpp:397-403 | whether reading has to go on |
| Compression.CompressionTask.Deliver | src/compress.cpp:184-189 | the sector goes to the writer, and reading is paused exactly when no sector is free |
| Compression.CompressionTask.DeliverBlock | src/input.cpp:367-389 | the sectors of a block are delivered in order until reading is paused |
| Compression.CompressionTask.ReadSector | src/input.cpp:204-325 | ends with exactly one read chain: a request, a note to go on later, or the end |
| Compression.CompressionTask.StepRead | src/input.cpp:303-324 | a completed read keeps all invariants and makes progress |
| Compression.CompressionTask.StepUnpack | src/input.cpp:344-390 | so does a decompression |
| Compression.CompressionTask.StepJob | src/sector.cpp:124-133 | so does a compression job |
| Compression.CompressionTask.StepWrite | src/compress.cpp:153-157 | so does a data write, which resumes reading in its middle |
| Compression.CompressionTask.StepFlush | src/output.cpp:412-429 | so does the index write |
| Compression.CompressionTask.NeverStuck | src/compress.cpp:153-189 | in every state without success something is outstanding, even with a partly filled block and no free sector |
| Compression.CompressionTask.DoneIsDone | src/output.cpp:482-486 | after success, reported once, nothing is outstanding and the file is complete |
| Compression.CompressionTask.Run | src/compress.cpp:137-190 | every order of completions ends with one success and the same file |
| Compression.Begin | src/compress.cpp:137-190 | both handlers are set up and reading has begun, with the invariant |
| Compression.Convert | src/compress.cpp:137-190 | converting a container for an image gives the one-block writer's file, which is a container for it exactly if the end position fits |

## Left out

- DeflateWindow.DeflateState.FillWindow: no `insert` and no zeroing behind the window (`high_water`), which serve later calls and reads whose result is not used; each stream has all its input and enough room in one finishing call, so deflate with little output space, several input pieces or other flush modes is not modelled.
- deflate_fast, deflate_stored, level changes, preset dictionaries, zlib and gzip headers, inflateSync: not on the path of maxcso's streams.
- BlockCost.Tally: `_tr_tally` is called while matches are found, but its counters are modelled when the block is flushed, from the tokens of the block; blocks are turned into bits after the token run and not between its rounds.
- BlockTrees.BuildEncoding: the literal, distance and bit length trees live in three builder objects with their own heap arrays, where the source shares one.
- The detection of text or binary data, which does not affect the output bits of a raw stream.
- InflateStream.Inflate: one call with the whole input and output; inflate returning for more input or output in the middle of a stream, except for InflateCopy.ResumableCopy, which has buffers of any sizes.
- The window of 32768 bytes is allocated at once; `updatewindow` allocates it on first use.
- The codecs in the pipeline (`Plan.trials`, `Codec`) are abstract and lossless: zopfli, libdeflate, 7-zip and LZ4 are not modelled, and ZlibRoundTrip.RoundTrip stands beside the pipeline as a method and is not its codec.
- DAX reading and writing, and its NC areas: other size rules; plans are CSO1, CSO2, ZSO or decompression.
- CsoFormat.Detect: errors are one value, without their texts; the buffer pool's size limits are not modelled.
- Failing reads, writes and compression jobs, and running without an output file (`file_` below zero): all I/O succeeds.
- The callbacks of reader and writer are direct calls in the order in which the event loop makes them; file contents change when a write completes.
- Outputs.Output.Written: HandleWrittenSectors is split at its progress callback, since reading is resumed there.
- Buffers are sequences, so ownership in the buffer pool (who releases what) is not captured.
- Sectors.Sector.SubmitTrial: sizes and costs are unbounded numbers; the 32-bit sums of the source do not overflow for blocks up to 0x40000 bytes.
- Percentages are taken as the resulting integer costs.
- Images whose index takes 2^32 bytes or more, and shifts above 11, which the source itself excludes in a comment.
- The index is written once and its 32-bit entries are little endian, as on the machines maxcso is built for.
- The file may also be refused when decompressing a plain image that begins with a container's magic: Compression.Convert excludes it by IsMagic.
- Tables of crc32.h, trees.h and inffixed.h as data: they come from the loops that generate them.
