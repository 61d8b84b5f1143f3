# The bundled compressors, modelled and proved

The repository carries two compression libraries: bzip2 1.0.6 under `dep/bzip2` and zlib 1.2.11 under `dep/zlib`. This project
models their algorithms in Dafny, in the form the C code has (loops over arrays, state machines over fields), and proves what
they are for.

bzip2, both directions:

- `RunLength`, `Compressor`: the run-length front end and `BZ2_bzCompress` over any run of calls
- `Rotations`, `FallbackQSort`, `FallbackSort`, `MainOrder`, `MainQSort`, `MainBuckets`, `MainRadix`, `MainScan`, `MainSort`,
  `BlockSort`: block sorting; `InverseBwt`: its inverse, fast and small
- `MtfSpec`, `MtfEncoder`, `MtfDecoder`: move-to-front with zero runs
- `HuffmanForest`, `HuffmanOptimal`, `HuffmanLengths`, `HuffmanCodes`, `TableChoice`: code lengths, codes, tables
- `Bits`, `BitIO`, `BlockFormat`, `BlockWriter`, `SymbolReader`, `SymbolMaps`, `BlockReader`, `BlockCodec`, `BlockBound`,
  `BlockEncoder`, `BlockCrc`, `StreamFormat`: the bits of blocks and streams
- `UnRle`, `Decompressor`: output, and `BZ2_bzDecompress` over any run of calls

The main results meet in `Compressor.EState.BzCompress` and `Decompressor.Decompress`: what the one puts out at the end of a stream
decodes to exactly its input (`StreamFormat.GetStream`), and the other computes exactly that decoding, however the calls of
either cut input and output.

zlib:

- `Crc32`, `Crc32Loops`, `Crc32Combine`, `Adler32`: the checksums and their combination
- `Lz77`, `DeflateHash`, `HashChains`, `MatcherSteps`, `ChainSearch`, `Deflate`: hash chains, matching and token output of
  `deflate`; `MatcherSteps` says what each matcher's step puts out, and `ChainSearch` what a search of the chains comes to
- `CanonicalCode`, `TableCells`, `TableSpace`, `InflateTable`: the decoding tables (section 3.2.2 of RFC 1951)
- `InflateSpec`, `InflateWindow`, `Inflate`, `InflateEntry`, `InflateSync`: decoding a block, slow and fast, through the circular
  window
- `TokenBits`, `InflateBlock`: the bits of deflate's tokens, and their decoding

`Deflate.DeflateState.Deflate` says that its tokens stand for its input, and that they are those of `MatcherSteps.Step`, one step
after the other; `TokenBits.BlockBack` and `InflateBlock.Call` say that inflate, given their bits under any code lengths, puts out
what they stand for.

`Permutations`, `Counting`, `ByteOverlay`, `Octets`, `Words` and `WordBits` (the number and the bits of a 32-bit word) are
shared. I/O, allocation and clocks are not modelled; input and room for output are parameters of the calls.

## Model

| member | source | states |
|---|---|---|
| `Rotations.SortedMeans` | dep/bzip2/blocksort.c:751-1006 | a block is sorted, as both sorts promise it, exactly when its rotations written out as strings are listed in dictionary order |
| `FallbackQSort.SimpleSort` | dep/bzip2/blocksort.c:32-70 | the insertion sort with its 4-step pass leaves fmap[lo..hi] sorted by class and only rearranged |
| `FallbackQSort.QSort3` | dep/bzip2/blocksort.c:93-180 | three-way quicksort with an explicit stack: fmap[lo..hi] sorted by class, rearranged, it stops, and the stack never passes log2 of the size plus a constant, so assertion 1004 cannot fire |
| `FallbackSort.Radix` | dep/bzip2/blocksort.c:231-257 | the first pass: ranks sorted by one byte, header bits exactly at the classes of rotations that begin with the same byte, the sentinel bits behind |
| `FallbackSort.AssignClasses` | dep/bzip2/blocksort.c:265-271 | each position gets the head of the bucket of the rotation H bytes later, going round |
| `FallbackSort.Pass` | dep/bzip2/blocksort.c:273-309 | from ranks sorted by H bytes, with header bits exactly where rotations differ in their first H bytes, to the same for 2H |
| `FallbackSort.Restore` | dep/bzip2/blocksort.c:315-327 | the block's bytes come back, from the byte counts and the sorted ranks, for every block |
| `FallbackSort.Sort` | dep/bzip2/blocksort.c:212-329 | for every non-empty block fmap becomes a permutation listing its rotations in order, and the block's bytes are as before |
| `MainOrder.GtU` | dep/bzip2/blocksort.c:347-469 | decides the cyclic order of two rotations, by bytes and the quadrant cache, reading nothing past the 34 bytes of overshoot |
| `MainQSort.SimpleSort` | dep/bzip2/blocksort.c:485-547 | the shell sort of a range whose rotations agree on d bytes: rearranged, and sorted unless the budget runs out |
| `MainQSort.QSort3` | dep/bzip2/blocksort.c:621-711 | the three-way radix quicksort of a small bucket: rearranged, and sorted unless the budget runs out; the stack of 100 is enough |
| `MainRadix.Prepare` | dep/bzip2/blocksort.c:769-830 | the two-byte radix sort: every rotation in its small bucket, ftab the bucket starts, the overshoot a copy of the block's beginning |
| `MainRadix.RunningOrder` | dep/bzip2/blocksort.c:832-860 | the big buckets listed once each, the least full first |
| `MainScan.Synthesise` | dep/bzip2/blocksort.c:911-944 | step 2: scanning the big bucket [ss] from both ends leaves every small bucket [t, ss] that is not done sorted, [ss, ss] too, for every block including one of a single byte; the two scans meet, which is assertion 1007 |
| `MainSort.FinishSmall` | dep/bzip2/blocksort.c:886-907 | one small bucket of step 1: sorted and marked unless the budget runs out |
| `MainSort.Describe` | dep/bzip2/blocksort.c:989-1004 | step 3: a smaller quadrant in a finished big bucket means a rotation that is not greater, in the overshoot too; that it means a smaller one holds if and only if no equal rotations of the bucket are given different quadrants |
| `MainSort.UnshiftedExactly` | dep/bzip2/blocksort.c:964-985 | with at most 65534 rotations in the bucket that is: if and only if no two different rotations of it are equal |
| `MainSort.NotStrict` | dep/bzip2/blocksort.c:964-985 | a block of two equal halves for which it fails |
| `MainSort.BigBucket` | dep/bzip2/blocksort.c:868-1006 | steps 1, 2 and 3 keep what is known of every bucket: the marked ones are sorted, and the quadrant cache is right |
| `MainSort.Sort` | dep/bzip2/blocksort.c:751-1013 | if it ends with budget >= 0, ptr is a permutation listing all rotations in order; the block is unchanged either way |
| `BlockSort.Budget` | dep/bzip2/blocksort.c:1063-1065 | for every work factor and block the budget is a number of 32 bits |
| `BlockSort.TryMainSort` | dep/bzip2/blocksort.c:1046-1068 | the block and quadrant, with their overshoots, lie apart inside arr2, and if the budget lasts the rotations are in order |
| `BlockSort.BlockSort` | dep/bzip2/blocksort.c:1031-1085 | whichever sort ran, ptr lists the rotations in order and origPtr is where rotation 0 is; assertion 1003 cannot fire |
| `InverseBwt.IndexIntoF` | dep/bzip2/bzlib.c:687-698 | the binary search finds the byte whose stretch of the sorted column holds the index |
| `InverseBwt.LinkFast` | dep/bzip2/decompress.c:560-564 | tt carries the inverse of the sort's permutation above the column's bytes |
| `InverseBwt.SmallReader.Reverse` | dep/bzip2/decompress.c:537-546 | the pointer reversal turns the links of the whole cycle through origPtr round, and leaves the others |
| `InverseBwt.ReadFast` | dep/bzip2/decompress.c:555-576 | n bytes read by way of tt are the walk along the inverse permutation from origPtr, for every column, with one cycle or many |
| `InverseBwt.ReadSmall` | dep/bzip2/decompress.c:515-553 | n bytes read by way of ll16, ll4 and indexIntoF are the same walk |
| `InverseBwt.WalkSpellsBlock` | dep/bzip2/decompress.c:494-576 | the walk over the column of any sorting of a block, ties in any order, spells the block |
| `InverseBwt.RoundTrip` | dep/bzip2/decompress.c:494-576 | sorting and the fast inverse give back the block |
| `MtfEncoder.GenerateMTFValues` | dep/bzip2/compress.c:120-230 | the symbols written are the move-to-front and zero-run coding of the column and the end mark, though mtfv overwrites ptr in place |
| `MtfSpec.EncodeThenDecode` | dep/bzip2/compress.c:163-230 | positions with bijective base-2 zero runs decode to the same column, for every column and list |
| `MtfDecoder.MtfList.Move` | dep/bzip2/decompress.c:423-474 | the sliding 16 by 16 array answers index nn with entry nn of a plain list and then is that list with the entry moved to the front, for every nn below 256, through every compaction |
| `MtfDecoder.DecodeColumn` | dep/bzip2/decompress.c:353-486 | the symbols up to the end mark give exactly the column, its byte counts, or the error the coding calls for: a run too long, a block too long, or no more symbols |
| `HuffmanForest.HeightBound` | dep/bzip2/huffman.c:91-128 | a tree in which lighter roots are merged first is lower than k when its weight is below the Fibonacci number k + 2 |
| `HuffmanLengths.TooLongShrinks` | dep/bzip2/huffman.c:130-147 | when a code is longer than 17 bits the rescaled frequencies have a smaller sum: rescaling comes to an end |
| `HuffmanOptimal.LightestDeepest` | dep/bzip2/huffman.c:91-128 | lengths for the roots of a forest that fit the code space can be changed, without costing more, so that the two lightest roots are the two deepest |
| `HuffmanOptimal.MergeCheaper` | dep/bzip2/huffman.c:91-128 | merging the two lightest roots keeps it that whatever lengths fit the symbols cost at least what the inner nodes so far count for and some fitting lengths of the roots |
| `HuffmanOptimal.TreeBest` | dep/bzip2/huffman.c:91-142 | the depths of the finished tree's leaves are optimal: no lengths that fit the code space, of any greatest length, have a smaller sum of count times length |
| `HuffmanLengths.MakeCodeLengths` | dep/bzip2/huffman.c:63-148 | stops for every frequency table, with lengths from 1 to maxLen >= 17 whose Kraft sum is exactly 1, and which are optimal for the frequencies after some number of rescalings; before each of these there were optimal lengths above maxLen, so when there are none they are optimal for the frequencies themselves |
| `HuffmanCodes.AssignCodes` | dep/bzip2/huffman.c:152-166 | symbol s gets the canonical code: the first of its length plus the number of earlier symbols of that length |
| `HuffmanCodes.PrefixFree` | dep/bzip2/huffman.c:152-166 | no string of bits begins with the codes of two symbols |
| `HuffmanCodes.Complete` | dep/bzip2/huffman.c:152-166 | when the Kraft sum is 1 every long enough string of bits begins with some code |
| `HuffmanCodes.CreateDecodeTables` | dep/bzip2/huffman.c:170-200 | limit, base and perm are those that invert the canonical code |
| `SymbolReader.LookUp` | dep/bzip2/decompress.c:88-102 | GET_MTF_VAL's bit-by-bit search yields exactly the symbol whose code the bits begin with, or stops for want of bits, or fails when there is none |
| `SymbolReader.SymbolReader.Next` | dep/bzip2/decompress.c:74-102 | fifty symbols to a selector, and an error when the selectors are used up |
| `TableChoice.TableCount` | dep/bzip2/compress.c:271-278 | two tables, and one more for each of the four limits that the number of symbols reaches |
| `TableChoice.FirstGuess` | dep/bzip2/compress.c:280-319 | table after table, from the last one down, favours a stretch of the alphabet that begins where the one before ended and is as long as its share of what is left needs, but for every second one a symbol shorter |
| `TableChoice.GuessApart` | dep/bzip2/compress.c:280-319 | no symbol is favoured by two tables |
| `TableChoice.ChooseTables` | dep/bzip2/compress.c:310-455 | four rounds from the first guess: in each, the selectors pick, group by group, the cheapest of the tables of the round before, and every table becomes a complete prefix code of at most 17 bits, optimal, as far as rescaling allows, for how often the groups that picked it use each symbol |
| `BlockWriter.SendMTFValues` | dep/bzip2/compress.c:239-596 | what is written is exactly the map, the selectors, the tables and the coded symbols, with the tables and selectors that four rounds from the first guess come to; no more selectors than the decoder has room for |
| `BitIO.BitWriter.W` | dep/bzip2/compress.c:57-78 | through the 32-bit buffer the n bits of v go out after all earlier ones, most significant first |
| `BitIO.BitWriter.FinishWrite` | dep/bzip2/compress.c:46-54 | the bytes are all the bits written and fewer than 8 zeros |
| `BitIO.BitReader.GetBits` | dep/bzip2/decompress.c:43-65 | the next n bits, as soon as this call's and later calls' input has that many |
| `BitIO.SplitFree` | dep/bzip2/decompress.c:43-65 | the bits are the same however the bytes are cut into calls |
| `BlockReader.ReadBody` | dep/bzip2/decompress.c:266-351 | map, selectors, tables: exactly what the bits say, with the same errors, within arrays of 18002 selectors |
| `BlockReader.BodyBack` | dep/bzip2/compress.c:460-590 | map, selectors and tables as sent are read back |
| `BlockReader.OverrunExactly` | dep/bzip2/decompress.c:286-318 | a write past the end of selectorMtf happens if and only if the count is above 18002 and at least 18003 selectors follow |
| `BlockReader.OverrunThere` | dep/bzip2/decompress.c:286-301 | with 2 tables, a count of 18003 and 18003 zero bits it does happen |
| `StreamFormat.OverrunStream` | dep/bzip2/decompress.c:196-318 | a whole stream, from its header on, whose reading writes out of bounds, for every block size, checksum, pointer and continuation |
| `BlockCodec.BlockOverruns` | dep/bzip2/decompress.c:241-318 | a block's decoding writes out of bounds exactly when its header and map are good and its selectors are too many: nothing else in the block can cause it |
| `BlockCodec.DecompressBlock` | dep/bzip2/decompress.c:241-576 | the outcome, the block and two bytes behind it are a function of the bits alone, the same for both forms of the inverse |
| `BlockCodec.BlockBack` | dep/bzip2/compress.c:602-664 | the bits of a block, for any order among equal rotations, any tables and any selectors, are read back as its checksum and bytes |
| `BlockBound.BlockFits` | dep/bzip2/compress.c:617-622 | the bits of any block fit behind it in arr2, with what is still in the buffer, the stream header and the trailer |
| `BlockEncoder.CompressBlock` | dep/bzip2/compress.c:602-655 | from bytes in arr2 to bits: what is written is the coding of that block for some good choices, with the tables and selectors that its symbols call for |
| `BlockCrc.TableDivides` | dep/bzip2/bzlib_private.h:167-172 | a step of the table is 8 steps of division by the polynomial |
| `StreamFormat.ByteNumber` | dep/bzip2/bzlib_private.h:167-172 | a byte goes into the checksum as the number that it is |
| `StreamFormat.FinalisedBits` | dep/bzip2/bzlib_private.h:162-165 | the checksum sent has every bit of the register the other way round |
| `StreamFormat.CheckValue` | dep/bzip2/bzlib_private.h:157-172 | the block checksum of the digits 1 to 9 is 0xfc891918 |
| `StreamFormat.CombineTurns` | dep/bzip2/compress.c:607-608 | bit j of the combined checksum is the sum of the next bit of the one before, going round, and bit j of the block's |
| `StreamFormat.CombinedBits` | dep/bzip2/compress.c:607-608 | so over any blocks it is the sum of their checksums, each turned by one bit for every block that follows |
| `RunLength.DecodeRuns` | dep/bzip2/bzlib.c:216-248 | a block built from runs decodes to the bytes the runs stand for |
| `UnRle.OutputStage.Fast` | dep/bzip2/bzlib.c:589-682 | into any room, in any number of calls: what has come out, the run in hand and the bytes not read make up the block, with its checksum; a block that breaks off inside a run is found out after exactly what it hands out |
| `UnRle.OutputStage.Small` | dep/bzip2/bzlib.c:759-804 | the same for the form that reads by indexIntoF |
| `StreamFormat.BlocksOverrun` | dep/bzip2/decompress.c:196-318 | reading a stream ends with a write out of bounds exactly when, after good blocks, there comes one with too many selectors |
| `StreamFormat.StreamBack` | dep/bzip2/compress.c:602-664 | header, blocks, combined checksum and trailer are read back as exactly the blocks' data, whatever follows |
| `StreamFormat.EmptyStream` | dep/bzip2/compress.c:625-662 | the stream of no data is fourteen given bytes |
| `Compressor.EState.AddChar` | dep/bzip2/bzlib.c:261-284 | one byte of input is in the pending run or the block, and nothing else changes |
| `Compressor.EState.CopyInput` | dep/bzip2/bzlib.c:289-329 | input moves into the block until it is full or there is no more; avail_in_expect follows avail_in |
| `Compressor.EState.CompressBlock` | dep/bzip2/compress.c:602-664 | the block's bits join the stream, with the tables and selectors that its symbols call for; the data of the blocks sent grows by the block's, and zbits stays within arr2 |
| `Compressor.EState.HandleCompress` | dep/bzip2/bzlib.c:361-402 | stops, exactly where the next byte of output has no room, the input is used up, or the flush or the stream is complete; its result tells whether anything moved |
| `Compressor.EState.BzCompress` | dep/bzip2/bzlib.c:407-464 | over every run of calls nothing is lost or read twice: a finished flush has sent all input, a finished stream decodes to all input; blocks go out full, but for the last one of a flush or of the stream; a call in order goes on until input or room is used up; a flush in order is answered with BZ_RUN_OK if and only if no input is left, no run is pending and everything is handed out, and else with BZ_FLUSH_OK; a call is refused if and only if it is out of order, or it is to finish, brings no room, and either brings no input or finds bytes still waiting to be handed out |
| `Compressor.RefusedForRoom` | dep/bzip2/bzlib.c:452-458 | a new stream's first call, to finish, with no input and no room: in order, and refused |
| `Decompressor.WriteBlock` | dep/bzip2/bzlib.c:808-845 | a block's bytes go out through any rooms, all of each room used before the next |
| `Decompressor.Decompress` | dep/bzip2/bzlib.c:808-858 | for every string of bits, however cut, and any rooms: the end and the bytes are what the bits say, and it leaves off before the end only when all the room is used |
| `Crc32.MakeCrcTable` | dep/zlib/crc32.c:88-162 | entry n of table k is n followed by k zero bytes, divided bit by bit |
| `Crc32Loops.LittleEndian` | dep/zlib/crc32.c:266-297 | word at a time, for any start value, alignment and length, the same as bit by bit |
| `Crc32Loops.BigEndian` | dep/zlib/crc32.c:306-337 | the same on byte-swapped words |
| `Crc32Loops.Crc32Z` | dep/zlib/crc32.c:202-234 | whichever way is taken |
| `Crc32Loops.RegisterLaw` | dep/zlib/crc32.c:266-297 | the checksum and the register that began with all ones differ in every bit |
| `Crc32Loops.Residue` | dep/zlib/crc32.c:202-234 | any string with its own checksum behind it, lowest byte first, has the checksum 0x2144df1c |
| `Crc32Loops.CrcAppend` | dep/zlib/crc32.c:202-234 | the checksum of a string goes on to that of a longer one |
| `Crc32Combine.MatrixTimes` | dep/zlib/crc32.c:344-358 | the matrix of k zero bits times a register is k steps of division |
| `Crc32Combine.MatrixSquare` | dep/zlib/crc32.c:361-369 | the square of the matrix of k zero bits is that of 2k |
| `Crc32Combine.Combine` | dep/zlib/crc32.c:372-425 | from the checksums of two strings and the second's length, the checksum of both together, for all strings |
| `Adler32.NoOverflow` | dep/zlib/adler32.c:99-110 | in a block of NMAX bytes neither sum passes 32 bits |
| `Adler32.NMaxExact` | dep/zlib/adler32.c:13-14 | and NMAX is the largest number of bytes for which sums that begin below the base stay within 32 bits |
| `Adler32.Adler32Z` | dep/zlib/adler32.c:63-131 | the packed sums mod 65521 for every start and length; the upper half is left unreduced exactly for one byte from a start that is no checksum, when the sum is at least twice the base |
| `Adler32.LeftOver` | dep/zlib/adler32.c:73-80 | a start value for which that happens |
| `Adler32.GoesOn` | dep/zlib/adler32.c:63-131 | from a checksum it goes on to the checksum of the longer string, a byte at a time too |
| `Adler32.Combine` | dep/zlib/adler32.c:143-169 | for any arguments; from the checksums of two strings and the second's length, the checksum of both together |
| `Lz77.MatchToken` | dep/zlib/deflate.h:326-342 | a match in the data is a token that expands to it, overlapping itself or not |
| `DeflateHash.HashIs` | dep/zlib/deflate.c:156-163 | updated with three bytes, the hash is their sum without carry, each shifted by a third of the hash's bits, rounded up, for every byte that follows it |
| `HashChains.ChainsSlide` | dep/zlib/deflate.c:201-225 | sliding the hash keeps every chain: the links that are left are to earlier strings with the same hash within reach, and none of these is skipped |
| `Deflate.DeflateState.constructor` | dep/zlib/deflate.c:240-351 | the state a stream begins with meets what every call keeps |
| `Deflate.DeflateState.SlideWindow` | dep/zlib/deflate.c:1507-1523 | a slide keeps the window's bytes, the chains and the pending distance, though match_start may wrap modulo 2^32 |
| `Deflate.DeflateState.FillWindow` | dep/zlib/deflate.c:1482-1599 | reads input into the window, slides it when needed, loses nothing, puts the strings into the hash that were not complete before, and leaves enough lookahead or no input |
| `Deflate.DeflateState.InsertString` | dep/zlib/deflate.c:182-185 | the chain for the string grows by it, and the head returned is the latest earlier string in reach with the same hash |
| `ChainSearch.PlacesVisited` | dep/zlib/deflate.c:1236-1377 | following the links from that head, max_chain_length at most, visits exactly the strings of the table with the same hash within MAX_DIST, the nearest first, and skips none |
| `Deflate.DeflateState.LongestMatch` | dep/zlib/deflate.c:1236-1377 | a length above prev_length is a real match of the data, no further than MAX_DIST and no longer than the lookahead, read without passing the window; the result is that of comparing the strings of the chain one after the other: the first that is nice_match or more, or else the first of the longest |
| `ChainSearch.PlacesAre` | dep/zlib/deflate.c:1236-1377 | what a search looks at: inserted strings with the same hash, the nearest first, each within MAX_DIST; none in reach is left out but for those further away than max_chain_length others |
| `ChainSearch.ScanFinds` | dep/zlib/deflate.c:1236-1377 | comparing them one after the other finds the first of those with the most bytes in common, unless one before is good enough |
| `ChainSearch.BestIs` | dep/zlib/deflate.c:1236-1377 | a search finds something if and only if one of its places repeats more than prev_length bytes of the data; it is the nearest of those that repeat as much, and unless it is good enough none repeats more |
| `ChainSearch.GreedyTakes` | dep/zlib/deflate.c:1824-1918 | deflate_fast puts out a literal if and only if no place that it looks at repeats three bytes, and otherwise the nearest of the longest matches, unless one is good enough |
| `ChainSearch.LazilyTakes` | dep/zlib/deflate.c:1926-2049 | deflate_slow puts out the match held back if and only if it has one and the string has no longer one, or none that is not poor, or is not searched for one; and holds back the nearest of the longest matches of the string otherwise |
| `MatcherSteps.RunFilled` | dep/zlib/deflate.c:1482-1599 | more input changes nothing about the steps taken so far |
| `Deflate.DeflateState.Fast` | dep/zlib/deflate.c:1824-1918 | the tokens are those of the greedy steps, one after the other, each with MIN_LOOKAHEAD bytes ahead of it or, for a flush, all the input; they expand to the data so far, in every state it returns; it asks for more only when a flushed block found no room, or nothing is to be flushed, all input is read and less than MIN_LOOKAHEAD of it is left |
| `Deflate.DeflateState.Slow` | dep/zlib/deflate.c:1926-2049 | the same with the lazy steps, but for the one byte that waits |
| `Deflate.DeflateState.Runs` | dep/zlib/deflate.c:2057-2163 | the same for the run-length and Huffman-only strategies: a match exactly where the byte before repeats three times or more, as long as it repeats and a match may be; or no match at all |
| `Deflate.DeflateState.Deflate` | dep/zlib/deflate.c:994-1015 | at a fixed level from 1 to 9, over any run of calls: the tokens are those of the matcher's steps from the start, which see enough ahead of them or, for a flush, all input, and forget everything at a full flush; they expand to exactly the bytes read but the lookahead and the waiting byte, every distance within MAX_DIST; it asks for more only for want of room or of input, so with room throughout all input is read, and after a flush the tokens expand to all of it |
| `InflateTable.SubSize` | dep/zlib/inftrees.c:266-274 | a sub-table gets exactly as many index bits as its longest code has left |
| `InflateTable.InflateTable` | dep/zlib/inftrees.c:32-304 | accepts exactly the complete, empty or, but for code lengths, single 1-bit sets of lengths; then every look-up of any bits gives the symbol of the canonical code they begin with. The entries used are those of the root table and of a sub-table for each start that longer codes share; too large a table is reported if and only if that number is above the space limit; the root's bits are those asked for, but no fewer than the shortest and no more than the longest length |
| `InflateSpec.DecodesOk` | dep/zlib/inftrees.c:32-304 | such a table never leads a look-up outside itself, and an entry depends on no more bits than it stands for |
| `InflateSpec.SameEnd` | dep/zlib/inflate.c:1044-1196 | two ways of taking the decoder's steps that both come to a block's end come to the same one: mode, unread bits and output |
| `InflateSpec.KnowsRun` | dep/zlib/inflate.c:1146-1190 | output that is out of reach makes no difference to any number of steps while no copy comes from there |
| `InflateWindow.CircularWindow.Update` | dep/zlib/inflate.c:396-444 | the window holds exactly the last bytes of all output so far, oldest first, as many as it has room for, after any run of updates |
| `InflateWindow.CircularWindow.Slice` | dep/zlib/inflate.c:1153-1166 | where MATCH reads is where the byte that far back is |
| `InflateWindow.CircularWindow.GetDictionary` | dep/zlib/inflate.c:1291-1312 | the dictionary is the window's content, oldest first |
| `Inflate.InflateState.LookUp` | dep/zlib/inflate.c:1052-1066 | the table's entry for the unread bits, pulling bytes only while it is not certain, within the input |
| `Inflate.InflateState.MatchState` | dep/zlib/inflate.c:1146-1190 | as many steps of the copy as are made, from the window or from this call's output |
| `Inflate.InflateState.Slow` | dep/zlib/inflate.c:1044-1196 | the states LEN to LIT take the machine's steps and stop only at the block's end, for want of input, or for want of room |
| `Inflate.InflateState.FastCopy` | dep/zlib/inffast.c:175-262 | the copy in up to three pieces, out of a window that may wrap, is the byte-by-byte copy |
| `Inflate.InflateState.FastSymbol` | dep/zlib/inffast.c:95-290 | one turn, with 6 bytes of input and 258 of room and no other check: the machine's steps for one symbol, past neither buffer's end |
| `Inflate.InflateState.InflateFast` | dep/zlib/inffast.c:50-307 | takes the machine's steps, uses no bit that it does not account for, and gives back the bytes it has not used |
| `Inflate.InflateState.Inflate` | dep/zlib/inflate.c:1044-1275 | over any run of calls, however input and room are cut and whichever way is fast: one and the same machine over all the input, as long as no distance is greater than the window; and in any case each call takes the steps of the machine that has the window's content for all earlier output |
| `InflateEntry.SevenHeld` | dep/zlib/inffast.c:23-29 | where no code of the table is longer than 8 bits, inflate_fast is entered with fewer than 8 held |
| `InflateEntry.EightHeld` | dep/zlib/inffast.c:23-29 | where some code is longer, a call that has one byte of it leaves 8 bits held, and the next call meets all other conditions of inflate_fast |
| `InflateEntry.NineBitCode` | dep/zlib/inffast.c:23-29 | such a table, as inflate_table builds it, and such calls: the byte 255 first |
| `TokenBits.LengthSymbol` | dep/zlib/inftrees.c:60-65 | what each of the 288 symbols stands for: a literal, the end, a length with the base and the extra bits that section 3.2.5 of RFC 1951 gives it, or nothing |
| `TokenBits.LengthGap` | dep/zlib/trees.c:252-268 | two bases of lengths are as far apart as the extra bits of the first can count, but for the last, which is one less |
| `TokenBits.DistSymbol` | dep/zlib/inftrees.c:66-73 | what each of the 32 distance symbols stands for |
| `TokenBits.LengthExtra` | dep/zlib/trees.c:252-268 | the code of a match length has enough extra bits for what its base leaves |
| `TokenBits.DistExtra` | dep/zlib/trees.c:270-287 | so has the code of a distance |
| `TokenBits.BlockBack` | dep/zlib/inflate.c:1044-1196 | the round trip: for any tokens of proper matches and any two accepted sets of lengths that give their symbols codes, the decoder on the tokens' canonical code bits comes to the block's end, with exactly the bytes that the tokens stand for, and every bit used |
| `TokenBits.AnySteps` | dep/zlib/inflate.c:1044-1196 | however many steps it has taken: a block of tokens is never taken to be bad, no copy goes further back than the tokens do, and where it ends the bytes are those of the tokens |
| `InflateBlock.Call` | dep/zlib/inflate.c:1044-1275 | the same of inflate, call after call, however input and room are cut and whichever way is fast: at the block's end all output so far is what the tokens so far stand for |
| `InflateSync.SyncSearch` | dep/zlib/inflate.c:1377-1398 | stops right behind the first 00 00 FF FF in all that has been searched, wherever the pieces were cut |
| `InflateSync.HeldBytes` | dep/zlib/inflate.c:1414-1423 | which bytes are taken out of the bit buffer |
| `InflateSync.WrongByte` | dep/zlib/inflate.c:1414-1423 | 9 bits held, the second set: 4 is searched where the stream has 1 |
| `InflateSync.RightExactly` | dep/zlib/inflate.c:1414-1423 | for a given number of bits the bytes searched are the stream's, whatever is held, if and only if it is a multiple of 8 |

## Findings

Where the code does other than its documentation, or its use, asks:

| finding | source | members |
|---|---|---|
| The decoder reads a count of up to 32767 selectors and stores that many in arrays of 18002: a stream that goes on to more makes it write past their end. | dep/bzip2/decompress.c:286-318 | `BlockReader.OverrunExactly`, `BlockReader.OverrunThere`, `BlockCodec.BlockOverruns`, `StreamFormat.BlocksOverrun`, `StreamFormat.OverrunStream` |
| adler32_z with one byte subtracts the base once: from a register that is no checksum the upper half may stay unreduced. | dep/zlib/adler32.c:73-80 | `Adler32.Adler32Z`, `Adler32.LeftOver` |
| inflateSync shifts the odd bits of its buffer up instead of out, so the bytes it searches first are not the stream's unless whole bytes are held. | dep/zlib/inflate.c:1414-1423 | `InflateSync.WrongByte`, `InflateSync.RightExactly` |
| inflate_fast's comment assumes fewer than 8 bits held on entry. A call that ran out of input inside a code may leave more. The assumption holds for every run of calls if and only if no code of the table of literals and lengths is longer than 8 bits; what holds always, and is enough, is that the bits held are fewer than 8 or fewer than the next code's. | dep/zlib/inffast.c:23-29 | `InflateEntry.SevenHeld`, `InflateEntry.EightHeld`, `InflateEntry.NineBitCode`, `Inflate.InflateState.InflateFast` |
| mainSort's comment says that a smaller quadrant means a smaller rotation. Equal rotations may have different quadrants: it means a rotation that is not greater. The comment's reading holds if and only if no equal rotations of the bucket are given different quadrants: with at most 65534 rotations in it, if and only if no two are equal. | dep/bzip2/blocksort.c:964-985 | `MainSort.Describe`, `MainSort.UnshiftedExactly`, `MainSort.NotStrict` |
| BZ2_bzCompress answers a finishing call that can move nothing, for want of room, with a sequence error, though the calls were in order: if and only if the call brings no room, and either brings no input or finds bytes still waiting to be handed out. A caller who brings room never sees it. | dep/bzip2/bzlib.c:452-458 | `Compressor.EState.BzCompress`, `Compressor.RefusedForRoom` |

## Left out

- Compressor.EState.BzCompress: the 64-bit totals total_in and total_out, verbosity and the null checks of the stream pointer are not modelled; workFactor 0 means 30, as at initialisation.
- BlockSort.TryMainSort: block and quadrant, which overlay arr2, are arrays of their own; that the two regions lie apart inside arr2 is stated, that nothing else shares them is not.
- BlockEncoder.CompressBlock: zbits, which overlays arr2 behind the block, is a sequence of its own; BlockBound.BlockFits and Compressor.EState.CompressBlock say that it fits.
- FallbackSort.Sort: the bits of bhtab are booleans, a word of them 32 in a row, and ftab's two uses are two arrays.
- FallbackQSort.QSort3: stackLo and stackHi are a sequence of frames whose length is bounded by the stack's size; so in MainQSort.QSort3.
- InverseBwt.ReadFast: tt's entries are numbers with the byte below and the link above, not 32-bit words; the test against the block size is kept.
- SymbolReader.SymbolReader.Next: the decoder's 40-state switch, which saves and restores every local variable, is a reader that goes on with a later call's input.
- BlockReader.ReadBody: what the program does after a write past the end of an array is not modelled; reading ends there.
- Decompressor.Decompress: the pieces of input and the rooms for output are two lists, each used up in its order; in the program each call brings one of both, and room that is left when a call's input runs out is gone with the call. Blocks of the old randomised kind are recognised and end the model's reading; the encoder never makes them.
- HuffmanLengths.MakeCodeLengths: a frequency of 0 counts as 1, here as in the code; the frequencies must sum to less than 2^23, which is what the packed 24-bit weights hold; a block has at most 900001 symbols.
- TableChoice.ChooseTables: mtfFreq is counted in a pass of its own; each table is optimal for its groups, that the division into groups is the best possible is not claimed.
- Crc32.MakeCrcTable: the tables are built by their rule, not compared with the literal ones of crc32.h; register and argument are 32 bits wide.
- Adler32.Combine: the result is a number of 64 bits, as with a long of 64 bits; a long of 32 bits would cut it when a half of an argument is not below the base.
- Deflate.DeflateState.Deflate: output ends at the buffered tokens; whether a flushed block found room for its bytes is an input. Level 0 (deflate_stored), deflateParams, deflateSetDictionary, deflatePrime, gzip header fields and how trees.c chooses code lengths, stored blocks and the end of a block are left out; of trees.c there are the bits of a block's tokens under given lengths (TokenBits).
- InflateTable.InflateTable: codes and lens are passed directly; the pointer into the array shared by both tables is not modelled, and that ENOUGH is the least sufficient size is not claimed.
- Inflate.InflateState.Inflate: begins where a block's tables have been read and ends with the block; the header, stored-block and table-reading states, back and was, the checks, the lazily allocated window and the option that allows distances too far back are left out.
- InflateSync.SyncSearch: the reset that follows a find is left out.
- gz*.c, infback.c, compress.c and uncompr.c of zlib, and bzip2's file interface: file descriptors and error texts around the same codecs.
- The game server, its scripts and its generated web service code, which share no code with the compressors.
