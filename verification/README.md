# Verification of the repository's algorithmic core

This project models, in Dafny, the parts of the repository whose correctness is
hard to see from the code, and proves what they promise.

**The queues** (`MpscNonIntrusive`, `MpscIntrusive`). Both Vyukov queues of
`src/common/Threading/MPSCQueue.h` are machines whose steps are the single atomic
operations of Enqueue and Dequeue. Any number of producers run beside one
consumer; the theorems hold in every interleaving. Steps are sequentially
consistent.

**DEFLATE, the encoder.** `HashChains`, `LongestMatch`, `DeflateState` and
`Deflate` are the sliding window, the hash chains, and the greedy and lazy choice
of matches of `deps/zlib/deflate.c`; the state is a class over the source's three
buffers, with ghost positions in the stream. `Matching` gives every token its
reason, a record of what the dictionary held and what the search found there;
`EqualBytes` draws a bound on the number of tokens from the reasons alone. `HuffmanHeap`, `HuffmanTree`,
`BitLengths`, `GenCodes` and `BuildTree` are build_tree and its parts, with
`HuffmanOptimal` for why the result is optimal. `CodeLengths`, `SendTree`,
`Header`, `SymbolTables`, `StaticTrees`, `Block`, `BlockCost`, `BitIo` and
`FlushBlock` are the way of a block into bits, and `KnownBlock` is a block whose
bytes are known.

**DEFLATE, the decoder.** `InflateSpec`, `InflateOrder` and `InflateTable` build
the decoding tables, and `InflateSpace` shows that the space reserved for them is
enough; `InflateLookup`, `InflateHeader`, `Inflate` and `InflateWindow` are the
resumable states of `deps/zlib/inflate.c`, its circular window and inflate_fast;
`InflateProgress` shows that they get to the end. `RoundTrip` and `EndToEnd` put
both sides together.
`Canonical`, `Lz77` and `Bits` are what both sides are measured against: codes
from lengths (section 3.2.2 of RFC 1951), tokens over an unbounded history, and
bits of numbers.

**Checksums** (`CrcPoly`, `CrcCycle`, `Crc32`, `CrcCheck`, `Adler32`). The braided CRC and
the combination of CRCs against polynomial division one bit at a time; the
deferred reductions of Adler-32 against its definition.

**Random numbers** (`Sfmt`) and **UTF conversion** (`Utf8`, `Utf8Order`, `Utf8Checked`). Bulk
generation against single draws, for any recursion and any sizes; the validating
decoder against the encoder, and the repair of damaged text.

Machine words are natural numbers and every truncation the code relies on is
written out. The unions Freq/Code and Dad/Len of `deps/zlib/deflate.h` are single
arrays, as in the source. Input, output space and the moments at which output is
full are parameters or free choices, so that statements about runs cover all of
them.

Places where the code and its comments differ: `deps/zlib/inffast.c:292` says
that fewer than eight bits are held on entry, which fails when a call resumes in
the middle of a code; all whole bytes can be given back all the same, since that
code is used up first (`BitIo.PutBack`, `Inflate.Inflater.InflateFast`).
`deps/zlib/trees.c:651` says that a forced node is 0 or 1, but it is 2 when symbol
1 alone occurs; it has no extra bits either (`BuildTree.ForceStep`). And the
exception of `deps/utf8cpp/utf8/checked.h:152-153` means to name the invalid code
point but always names 0, since none is stored on an error (`Utf8Checked.Next`).


## Model

| member | source | states |
|---|---|---|
| `MpscNonIntrusive.StepKeepsInv` | src/common/Threading/MPSCQueue.h:32-66 | every atomic step of every thread keeps the invariant: one chain of distinct nodes from the tail, broken at most where a producer still owes its link |
| `MpscNonIntrusive.Fifo` | src/common/Threading/MPSCQueue.h:32-66 | after any interleaving of any number of producers with the consumer, the items in the order of the exchanges on _head are those dequeued followed by those in the chain: first in first out, nothing lost or doubled |
| `MpscNonIntrusive.MemorySafe` | src/common/Threading/MPSCQueue.h:32-66 | in no run does a step touch a node that was deleted, also when its address was handed out again since |
| `MpscNonIntrusive.DeletedOnlyAfterLink` | src/common/Threading/MPSCQueue.h:48-66 | a producer that got a node from its exchange still finds it allocated until its own link store is done |
| `MpscNonIntrusive.FalseMeansEmptyOrPending` | src/common/Threading/MPSCQueue.h:55-66 | Dequeue returns false only if the queue is empty or the link behind the tail is still owed |
| `MpscNonIntrusive.QuietDequeue` | src/common/Threading/MPSCQueue.h:55-66 | with no producer between exchange and link, Dequeue delivers the oldest item whenever there is one |
| `MpscNonIntrusive.DestructorDrains` | src/common/Threading/MPSCQueue.h:38-46 | from any reachable quiescent state the destructor's calls of Dequeue deliver all items in order, the last call returns false, and deleting the front leaves no node allocated |
| `MpscIntrusive.StepKeepsInv` | src/common/Threading/MPSCQueue.h:94-150 | every atomic step, also those by which the consumer enqueues the dummy itself, keeps the invariant: the dummy stands in the chain at most once and at most one thread owes each link |
| `MpscIntrusive.Fifo` | src/common/Threading/MPSCQueue.h:94-150 | in every run the items in the order of the exchanges on _head, without the dummy, are those dequeued followed by those still in the chain; the dummy is in the chain at most once |
| `MpscIntrusive.OwnershipSafe` | src/common/Threading/MPSCQueue.h:94-150 | while a client has an item no step of the queue reads or writes its link |
| `MpscIntrusive.QuietDequeueIsExact` | src/common/Threading/MPSCQueue.h:116-150 | with no producer between exchange and link, Dequeue fails exactly when no item is in the chain |
| `CrcPoly.MulComm` | deps/zlib/crc32.c:534-560 | multiplication modulo the CRC polynomial is commutative |
| `CrcPoly.MulAssoc` | deps/zlib/crc32.c:534-560 | and associative |
| `CrcPoly.MulByX` | deps/zlib/crc32.c:534-560 | and multiplying by x^n is shifting n bits through the register |
| `CrcPoly.XNonZero` | deps/zlib/crc32.c:289-293 | no power of x is zero, so that the unbounded loop of multmodp ends at every call |
| `Crc32.CrcIsPolynomial` | deps/zlib/crc32.c:273-287 | the bit-at-a-time CRC of a buffer is its polynomial, the register added at the front, times x^(8 n) |
| `Crc32.MakeByteTable` | deps/zlib/crc32.c:273-287 | entry i is i after eight shifts: the byte table of the definition |
| `Crc32.Multmodp` | deps/zlib/crc32.c:542-560 | the loop returns the product of its operands modulo the polynomial |
| `Crc32.MakePowerTable` | deps/zlib/crc32.c:289-293 | entry n is x^(2^n) |
| `CrcCycle.SquaringsCycle` | deps/zlib/crc32.c:566-580 | 32 squarings of x modulo the CRC polynomial come back to x, so that an index of the table of squarings may be taken modulo 32 |
| `Crc32.X2nmodp` | deps/zlib/crc32.c:566-580 | x2nmodp(n, k) is x^(n 2^k) for every n and k, also where the exponents run past the table |
| `Crc32.MakeBraidTable` | deps/zlib/crc32.c:505-522 | table k advances a byte over the distance from its place in a word to the next word of its braid |
| `Crc32.CrcWord` | deps/zlib/crc32.c:717-724 | the CRC of one word by the byte table |
| `Crc32.MergeIsCrc` | deps/zlib/crc32.c:846-906 | the last block merges the braids: folding the registers one after another gives the CRC of everything so far |
| `Crc32.NextBraids` | deps/zlib/crc32.c:780-845 | after each block every register is its own words advanced over N words: the invariant of the braided loops |
| `Crc32.Crc32Z` | deps/zlib/crc32.c:739-1057 | the braided little-endian CRC of any buffer at any alignment, for N in 1..6 and W in {4, 8}, is the bit-at-a-time CRC with the complement taken before and after, whose constants the next two rows fix |
| `CrcCheck.Residue` | deps/zlib/crc32.c:752-1057 | whatever the buffer and the CRC before it, the CRC of the buffer followed by its own CRC, low byte first, is 0x2144df1c |
| `CrcCheck.CheckValue` | deps/zlib/crc32.c:752-1057 | the CRC of the digits 1 to 9 is 0xcbf43926 |
| `Crc32.CombineLaw` | deps/zlib/crc32.c:1072-1081 | the CRC continued over a second buffer is the first CRC advanced over its length plus the CRC of the second alone |
| `Crc32.Combine` | deps/zlib/crc32.c:1072-1081 | crc32_combine64 gives the CRC of the concatenation from the CRCs of its parts, for every length of the second |
| `Canonical.PrefixFree` | deps/zlib/trees.c:564-605 | no stream of bits starts with the codes of two different symbols |
| `Canonical.Decodable` | deps/zlib/inftrees.c:130-138 | with a complete set of lengths every stream starts with a code |
| `GenCodes.BiReverse` | deps/zlib/trees.c:1137-1147 | the loop reverses the first len bits |
| `GenCodes.GenCodes` | deps/zlib/trees.c:572-605 | every symbol with a length gets its canonical code as it stands in the stream; the 16-bit counters do not wrap; other entries of the shared array stay as they were |
| `InflateTable.SortSymbols` | deps/zlib/inftrees.c:140-147 | the symbols with a length, by length and then by number |
| `InflateOrder.BackIncIsIncrement` | deps/zlib/inftrees.c:239-248 | the backwards increment of a reversed code is the increment of the code |
| `InflateSpace.TableInBudget` | deps/zlib/inftrees.c:266-280 | a second-level table that is no larger than its codes need takes one entry for each of them and an excess that no later table can have again |
| `InflateSpace.EnoughForLens` | deps/zlib/inftrees.h:38-51 | 852 entries are enough for every complete code of at most 286 symbols with a root table of 9 bits: what the source found by exhaustive search |
| `InflateSpace.EnoughForDists` | deps/zlib/inftrees.h:38-51 | and 592 for at most 30 symbols with a root table of 6 bits |
| `InflateTable.SubTableBits` | deps/zlib/inftrees.c:266-274 | the size chosen for a second-level table holds all codes of its root entry, and no smaller one would |
| `InflateTable.InflateTable` | deps/zlib/inftrees.c:32-304 | returns -1 exactly for over-subscribed sets and for incomplete ones that are not a single one-bit code, and never +1 for the tables inflate asks for; on 0 the two-level table looks up, for every stream that starts with a code, that code's entry and length, and answers "invalid" to all others |
| `InflateTable.SentCodeIsFound` | deps/zlib/inflate.c:1071-1089 | what gen_codes sends for a symbol, followed by anything, is looked up as that symbol, dropping exactly its bits |
| `InflateTable.EveryStreamDecodes` | deps/zlib/inflate.c:1071-1089 | with a complete set every lookup ends at the one symbol whose code the stream starts with |
| `HuffmanHeap.RootIsLeast` | deps/zlib/trees.c:437-450 | the first element of the heap is the least by frequency and depth |
| `HuffmanHeap.PqDownHeap` | deps/zlib/trees.c:451-474 | restores the order, moving nodes only at the places below k |
| `HuffmanTree.JoinKeepsForest` | deps/zlib/trees.c:660-686 | each join keeps the forest: every node once, sons in pairs behind their father |
| `HuffmanOptimal.JoinStep` | deps/zlib/trees.c:660-686 | joining the two lightest nodes loses nothing: any code for the list before yields one for the list after that is cheaper by their weight |
| `HuffmanTree.JoinLeast` | deps/zlib/trees.c:660-686 | one turn of the loop of build_tree takes the two least nodes, keeps heap and forest, and keeps the lower bound on every prefix code |
| `BitLengths.SomeShorter` | deps/zlib/trees.c:531-537 | the downward search for a length that can increase always finds one |
| `BitLengths.RepairStep` | deps/zlib/trees.c:532-542 | each repair removes exactly one unit of excess and keeps the number of codes |
| `BitLengths.FirstPass` | deps/zlib/trees.c:503-525 | the overflow is twice the excess of the Kraft sum; lengths are the depths in the tree, cut off at the maximum |
| `BitLengths.KraftOneIsComplete` | deps/zlib/trees.c:528-562 | a Kraft sum of exactly one makes a complete prefix code |
| `BitLengths.Repair` | deps/zlib/trees.c:531-543 | every repair takes the deepest leaf that can move down, and nothing is left in excess |
| `BitLengths.GenBitlen` | deps/zlib/trees.c:486-562 | for a tree of at most 2^m leaves all symbols that occur get lengths from 1 to m that form a complete prefix code, and opt_len and static_len grow by exactly their cost; the lengths are the depths, or come from the depths cut off at m by repairs and then do not decrease from the root of the tree's list to its end |
| `BuildTree.TwoSymbols` | deps/zlib/trees.c:641-652 | with two codes each has one bit, which is what the forced codes take off opt_len in advance |
| `BuildTree.DepthsOptimal` | deps/zlib/trees.c:607-614 | the depths of the tree are a prefix code and no prefix code is cheaper |
| `BuildTree.OptimalCost` | deps/zlib/trees.c:607-614 | in bits of the block, extra bits included |
| `BuildTree.DescendsStep` | deps/zlib/trees.c:656-690 | the nodes are joined from the lightest up, and all roots are no lighter than any node joined |
| `BuildTree.GradedEnd` | deps/zlib/trees.c:545-562 | so a rarer symbol never gets a shorter code than a more frequent one: with optimal lengths, or else the two could be exchanged, and with lengths handed out after repairs |
| `BuildTree.BuildTree` | deps/zlib/trees.c:615-697 | from any frequencies with at most 2^m used symbols: a complete prefix code of lengths up to m for exactly the symbols that occur (or two, if fewer), its codes in the stream's bit order, exact costs, optimal lengths unless the tree is deeper than m, and in every case no shorter code for a rarer symbol |
| `HashChains.ThirdByte` | deps/zlib/deflate.c:1375-1380 | equal hashes and equal first two bytes make the third bytes equal, so longest_match may skip them |
| `HashChains.PrimedStep` | deps/zlib/deflate.c:157-163 | the running hash of any consecutive updates is the hash of the last three bytes |
| `HashChains.InsertKeeps` | deps/zlib/deflate.c:166-185 | INSERT_STRING keeps the chains: links lead to earlier strings with the same hash, and between a string and the next of its chain there is no other one with that hash |
| `HashChains.SlideKeeps` | deps/zlib/deflate.c:204-228 | slide_hash keeps them while the window slides |
| `LongestMatch.LongestMatch` | deps/zlib/deflate.c:1276-1417 | the longest string among those visited along the chain, all of them with the hash of the current one; an improved result is a true match, not longer than the lookahead, at a distance of at most MAX_DIST |
| `Matching.WalkedIs` | deps/zlib/deflate.c:1276-1417 | in terms of the input: the strings visited are the latest ones with the hash, without a gap; the result is no shorter than what any of them offers; and the walk ends before the last one in reach only on a nice match, at the end of what was read, or after max_chain_length strings (a quarter behind a good match) |
| `DeflateState.SlideKeepsDistance` | deps/zlib/deflate.c:1550-1554 | match_start may wrap below zero in a slide, and the emitted distance stays right |
| `Deflate.Deflater.FillWindow` | deps/zlib/deflate.c:1522-1641 | reads until there is enough ahead or no input, sliding and inserting what was left over; position, input and pending match stay what they were |
| `Deflate.Deflater.DeflateFast` | deps/zlib/deflate.c:1872-1966 | the tokens tallied stand for the input up to the current string, for every flush mode and every stop for want of output space; and every one of them has its reason: a literal only where the search found nothing, a match only the one it found |
| `Deflate.Deflater.DeflateSlow` | deps/zlib/deflate.c:1974-2097 | the same, less the one byte held back while a better match is looked for; a literal only where the search found no match of three bytes or a longer one at the next byte, a match only if the next byte has none that is longer |
| `Matching.LiteralMeans` | deps/zlib/deflate.c:2009-2080 | a literal is tallied only if every earlier string that can be found and agrees for three bytes or more was not reached by the search, or the match found is of the kind that is dropped (filtered, or three bytes from more than 4096 away), or a match longer than both starts at the next byte |
| `Matching.CopyMeans` | deps/zlib/deflate.c:2009-2062 | a match is the longest that can be found at its place, and with lazy matching none that can be found at the next byte is longer, unless it is of the kind that is dropped or the match is as long as max_lazy |
| `Matching.EverythingKnown` | deps/zlib/deflate.c:1996-2001 | without a full flush and without a full output, strings at all earlier positions within MAX_DIST can be found, but for the first of all and those at the largest distance |
| `EqualBytes.LazyRun` | deps/zlib/deflate.c:1974-2097 | n equal bytes come to at most n / 258 + 8 tokens |
| `EqualBytes.GreedyRun` | deps/zlib/deflate.c:1872-1966 | and without lazy matching to at most 2 (n / 258) + 9 |
| `Deflate.Deflater.Deflate` | deps/zlib/deflate.c:1037-1087 | one call of deflate, including the full flush that forgets history, keeps this account |
| `Deflate.Compress` | deps/zlib/deflate.c:804-1090 | over every run of calls with any chunks and flush modes the tokens expand to a prefix of the input, and to all of it when the last call was to flush and its output was ample; every distance stays in reach; every token has its reason; and equal bytes, however divided into calls with one flush at the end, come to no more tokens than that |
| `Lz77.CopyIsMatch` | deps/zlib/deflate.c:1485-1500 | copying from a distance at which the input agrees with itself continues the input |
| `BitIo.BitWriter.SendBits` | deps/zlib/trees.c:211-223 | appends the value's bits; bits above bi_valid are zero |
| `BitIo.BitWriter.BiFlush` | deps/zlib/trees.c:1152-1164 | moves whole bytes out and leaves at most seven bits |
| `BitIo.BitWriter.BiWindup` | deps/zlib/trees.c:1169-1182 | pads with zeros to a byte boundary |
| `BitIo.ReadFields` | deps/zlib/inflate.c:507-532 | NEEDBITS, BITS and DROPBITS over the bytes yield the fields of the stream, and fail exactly when there are too few; for widths up to 16 the accumulator holds less than 24 bits |
| `BitIo.SendAndRead` | deps/zlib/trees.c:211-223 | for every sequence of values and widths up to 16, what is sent and aligned is read back |
| `BitIo.PutBack` | deps/zlib/inffast.c:292-296 | if fewer than eight of the bits held on entry are still there, which is so when fewer than eight were held, then all whole bytes that are held were pulled since, and giving them back leaves the stream the same |
| `Inflate.Inflater.ReturnBytes` | deps/zlib/inffast.c:292-305 | after bytes are given back next_in, hold and bits are those that reading byte by byte leaves at this place of the stream, and no others are |
| `CodeLengths.RoundTrip` | deps/zlib/trees.c:703-793 | two sequences of code lengths sent one after the other come back as their concatenation; repeat counts are in range and no repeat reaches back before its own sequence |
| `CodeLengths.ScanTree` | deps/zlib/trees.c:703-742 | adds to each symbol's frequency the number of times send_tree will send it |
| `SendTree.SendTree` | deps/zlib/trees.c:748-793 | sends exactly the items of the compressed lengths |
| `SymbolTables.LengthTables` | deps/zlib/trees.c:255-268 | every normalized length has the symbol whose range contains it; 255 has the last one |
| `SymbolTables.DistTables` | deps/zlib/trees.c:270-286 | and every normalized distance |
| `StaticTrees.StaticCodes` | deps/zlib/trees.c:288-305 | the array holds the table of section 3.2.6 of RFC 1951, each code with its first bit lowest: 0x30 + s in 8 bits below 144, 0x190 + (s - 144) in 9 bits below 256, s - 256 in 7 bits below 280, 0xc0 + (s - 280) in 8 bits below 288; distances are their symbol in 5 bits |
| `StaticTrees.StaticTable` | deps/zlib/trees.c:288-305 | these are the canonical codes of the fixed lengths |
| `EndToEnd.FixedCodesRead` | deps/zlib/inflate.c:291-309 | and the tables that inflate builds for the fixed codes look up every symbol from exactly these bits |
| `StaticTrees.StaticComplete` | deps/zlib/trees.c:288-299 | the fixed literal/length code is complete |
| `Block.LengthSymbolMeans` | deps/zlib/inftrees.c:60-65 | encoder's and decoder's tables agree: base plus extra bits is the length |
| `Block.DistSymbolMeans` | deps/zlib/inftrees.c:66-73 | and the distance |
| `Block.CompressBlock` | deps/zlib/trees.c:1043-1088 | sends the fields of the tokens in sym_buf and the end of block |
| `Block.TokenRead` | deps/zlib/inflate.c:1061-1165 | every token sent is read by the LEN, LENEXT, DIST and DISTEXT states, and nothing behind it is touched |
| `Block.BlockRead` | deps/zlib/inflate.c:1061-1165 | so is a whole block |
| `BlockCost.TallyDist` | deps/zlib/trees.c:1015-1038 | the tally is the frequencies of the tokens in the buffer |
| `BlockCost.BlockWidth` | deps/zlib/trees.c:503-523 | the bits of the tokens are what their frequencies cost |
| `BlockCost.ItemsWidth` | deps/zlib/trees.c:799-823 | the bits of the code lengths are what scan_tree's counts cost |
| `FlushBlock.FlushBlock` | deps/zlib/trees.c:912-1009 | stored, fixed or dynamic exactly as the lengths in bytes compare; 3 + opt_len and 3 + static_len are the numbers of bits of the dynamic and of the fixed block, whichever is sent; both trees and the code length code are as good as build_tree makes them, and no trailing zero length of the latter is sent beyond the four that must be |
| `Header.SendAllTrees` | deps/zlib/trees.c:834-858 | the three counts, the lengths of the code length code in their own order, which the next rows give, and both trees run-length coded |
| `Header.BlPlaces` | deps/zlib/inflate.c:643-644 | the order of section 3.2.7 of RFC 1951 in closed form, as it is sent and as it is read: 16, 17, 18, 0 and 8 come first, then 8 - k at place 3 + 2 k and 8 + k at place 4 + 2 k |
| `Header.BlShorter` | deps/zlib/inflate.c:951-959 | fewer fields are the first of them, and lengths that are not sent are zeros |
| `Header.OrderPlaces` | deps/zlib/trees.c:71-72 | the same of bl_order |
| `Header.HeaderRead` | deps/zlib/inflate.c:933-1020 | the TABLE, LENLENS and CODELENS states recover the lengths of both trees |
| `InflateHeader.CodeLens` | deps/zlib/inflate.c:974-1020 | reading lengths, wherever input runs out, keeps the lengths the whole stream stands for, waits only if fewer bits are held than the next item takes, and reports an error only when the stream has one |
| `InflateHeader.ReadTrees` | deps/zlib/inflate.c:933-1029 | the header of a dynamic block as a whole: what is read is what the stream says, and a valid header that ends within the input is read to its end |
| `InflateLookup.CompleteUsable` | deps/zlib/inflate.c:1071-1086 | a lookup with few bits is right as soon as the code is among them, and only then |
| `Inflate.Inflater.ReadSymbol` | deps/zlib/inflate.c:1071-1089 | the symbol of the whole stream, leaving fewer than eight bits; or no input and a code longer than the bits held |
| `InflateWindow.UpdateWindow` | deps/zlib/inflate.c:397-445 | the circular window holds the last min(total, wsize) bytes written |
| `InflateWindow.WindowCopy` | deps/zlib/inflate.c:1167-1199 | bytes taken from the window are those at the distance in the unbounded history |
| `InflateWindow.FastCopy` | deps/zlib/inffast.c:169-264 | the three window cases and the overlapping copy are the simple copy |
| `Inflate.FromMatch` | deps/zlib/inflate.c:1167-1210 | a match cut into parts by the output buffer is still the same match |
| `Inflate.Inflater.DoMatch` | deps/zlib/inflate.c:1167-1210 | one visit of the MATCH state |
| `Inflate.Inflater.FastToken` | deps/zlib/inffast.c:103-290 | each turn of inflate_fast reads at most six bytes and writes at most 258, and is one token of the stream |
| `Inflate.Inflater.InflateFast` | deps/zlib/inffast.c:50-307 | after giving back unused bytes it stands where the slow states would stand |
| `Inflate.Inflater.Call` | deps/zlib/inflate.c:1061-1289 | one call inside a block, stopped by input or output anywhere, keeps history, window and place in the stream; it stops only at the end of the block, on an error, on a full output, or with all input used and fewer bits held than the next step takes |
| `Inflate.Inflater.StoredCall` | deps/zlib/inflate.c:916-932 | one call in a stored block |
| `Inflate.BlockDone` | deps/zlib/inflate.c:1061-1217 | at the end of a block its whole expansion is written and the stream stands right behind it; decoding never fails on distances within window and history |
| `InflateProgress.DoesNotWait` | deps/zlib/inflate.c:1061-1165 | with the whole of a block at hand no state waits for more input |
| `RoundTrip.InflateRun` | deps/zlib/inflate.c:623-1289 | over every division of input and output into calls the output is a beginning of the block's expansion, and all of it at its end; if the block ends within the input, the last call gets there unless it fills its output |
| `RoundTrip.DynamicBlockRead` | deps/zlib/inflate.c:859-1217 | what _tr_flush_block sends as a dynamic block is read as the same tokens |
| `RoundTrip.FixedBlockRead` | deps/zlib/inflate.c:859-1217 | and as a fixed block |
| `EndToEnd.SendAll` | deps/zlib/trees.c:912-1009 | tokens sent in blocks, the last one marked and aligned, make a stream of exactly those blocks |
| `EndToEnd.ReadBlock` | deps/zlib/inflate.c:859-1217 | header, tables and data of a block that was sent are read without failing, to the expansion of its tokens over what came before, and no bit behind the block is taken |
| `EndToEnd.DeflateThenInflate` | deps/zlib/deflate.c:804-1090 | compressing and decompressing gives back every input of any length, for the tuning of every level above zero, every window size and block size, with fixed codes or codes of their own |
| `Adler32.RawIsReference` | deps/zlib/adler32.c:63-131 | sums without any reduction are, modulo 65521, the sums reduced after every byte |
| `Adler32.NmaxIsLargest` | deps/zlib/adler32.c:12-14 | n bytes can be added to every pair of reduced sums without leaving 32 bits exactly if n is at most NMAX |
| `Adler32.Mod32Is` | deps/zlib/adler32.c:26-43 | MOD without a division is the remainder for every 32-bit value |
| `Adler32.Mod63Is` | deps/zlib/adler32.c:44-55 | and MOD63 for every length that is not negative |
| `Adler32.AddBytes` | deps/zlib/adler32.c:16-20 | the 32-bit sums do not wrap around as long as the final ones fit |
| `Adler32.Adler32Z` | deps/zlib/adler32.c:63-131 | for every length the checksum is the one defined byte by byte |
| `Adler32.CombineLaw` | deps/zlib/adler32.c:143-169 | the sums of a concatenation are a function of the sums of its parts and the length of the second |
| `Adler32.Combine` | deps/zlib/adler32.c:143-169 | adler32_combine_ gives the checksum of the concatenation, and the invalid value for a negative length |
| `Sfmt.Generator.GenRandAll` | deps/SFMT/SFMT.c:245-263 | rewriting the state in place gives the next n words of the sequence |
| `Sfmt.Generator.GenRandArray` | deps/SFMT/SFMT.c:95-128 | the array gets the words after the state, and its last n become the state, also where the state is part copied and part generated |
| `Sfmt.Generator.GenrandUint32` | deps/SFMT/SFMT.h:139-149 | each draw is the next 32-bit word |
| `Sfmt.Generator.GenrandUint64` | deps/SFMT/SFMT.h:159-183 | and a 64-bit draw the next two |
| `Sfmt.Generator.FillArray32` | deps/SFMT/SFMT.c:293-300 | the array holds the next words in order |
| `Sfmt.Generator.FillArray64` | deps/SFMT/SFMT.c:329-336 | and so does an array of 64-bit words, each of two of them |
| `Sfmt.FillAgainstDraws` | deps/SFMT/SFMT.c:293-300 | filling an array and drawing its words one by one give the same words and leave generators that draw the same ever after |
| `Utf8.ParseEncode` | deps/utf8cpp/utf8/core.h:239-292 | validate_next reads every code point that append wrote, whatever follows it |
| `Utf8.ParseExact` | deps/utf8cpp/utf8/core.h:239-292 | and accepts nothing else |
| `Utf8.ValidateNext` | deps/utf8cpp/utf8/core.h:239-292 | the octet by octet reader finds what stands at the front of a text: a code point or the error in the order of its checks; on an error nothing moves |
| `Utf8Order.EncodeOrder` | deps/utf8cpp/utf8/checked.h:73-95 | of two code points the smaller one is written as the octets that come first in order, octet by octet |
| `Utf8Order.RangeEnds` | deps/utf8cpp/utf8/checked.h:73-95 | the ends of the ranges in section 3 of RFC 3629, from 7f and c2 80 to f4 8f bf bf |
| `Utf8Order.TextOrder` | deps/utf8cpp/utf8/checked.h:73-95 | and whole texts keep their order |
| `Utf8Checked.DecodeExact` | deps/utf8cpp/utf8/checked.h:255-262 | the valid texts are exactly those that some code points encode |
| `Utf8Checked.FindInvalid` | deps/utf8cpp/utf8/core.h:307-317 | the end of the longest valid prefix |
| `Utf8Checked.IsValid` | deps/utf8cpp/utf8/core.h:319-323 | true exactly for valid texts |
| `Utf8Checked.Next` | deps/utf8cpp/utf8/checked.h:138-156 | the code point, or the exception of the error; invalid_code_point always names code point 0 |
| `Utf8Checked.Utf32To8` | deps/utf8cpp/utf8/checked.h:246-253 | the encoding, or an exception for the first number that is no code point |
| `Utf8Checked.Utf8To32` | deps/utf8cpp/utf8/checked.h:255-262 | the code points of a valid text, or the exception of its first error |
| `Utf8Checked.Utf16To8` | deps/utf8cpp/utf8/checked.h:204-229 | pairs of surrogates are joined in 32-bit arithmetic, a lone one throws; otherwise the octets of the same code points |
| `Utf8Checked.Utf8To16` | deps/utf8cpp/utf8/checked.h:231-244 | and back |
| `Utf8Checked.RoundTrips` | deps/utf8cpp/utf8/checked.h:204-244 | the two conversions are inverse to each other, each on all valid texts |
| `Utf8Checked.RepairIsProjection` | deps/utf8cpp/utf8/checked.h:98-129 | repairing changes a text if and only if it is damaged, and a repaired text stays as it is |
| `Utf8Checked.RepairKeeps` | deps/utf8cpp/utf8/checked.h:98-129 | valid text stays as it is, whatever damage follows it |
| `Utf8Checked.ReplaceInvalid` | deps/utf8cpp/utf8/checked.h:98-129 | ends for every text with the repaired text; an invalid replacement throws exactly if the text is damaged |
| `Utf8Checked.PriorOfWritten` | deps/utf8cpp/utf8/checked.h:164-176 | prior steps back over the code point that append wrote last |
| `Utf8Checked.PriorStepsOverStrays` | deps/utf8cpp/utf8/checked.h:164-176 | prior accepts a text that is not valid exactly if more trails follow than the lead calls for |
| `Utf8Checked.StrayExample` | deps/utf8cpp/utf8/checked.h:164-176 | such a text: a letter and a stray trail |
| `CodeLengths.RunIs` | deps/zlib/trees.c:704-790 | every maximal run of n equal lengths is sent as the code of such a run: zeros 138 at a time, other lengths once and then six at a time, at most n / 138 + 2 or n / 6 + 3 items |
| `SymbolTables.LengthFormula` | deps/zlib/inftrees.c:60-65 | the length table of section 3.2.5 of RFC 1951 in closed form: (c - 4) / 4 extra bits and base 3 + (4 + c % 4) 2^((c - 4) / 4) from the ninth symbol on, 258 for the last |
| `SymbolTables.DistFormula` | deps/zlib/inftrees.c:66-73 | the distance table: c / 2 - 1 extra bits and base 1 + (2 + c % 2) 2^(c / 2 - 1) from the fifth symbol on |
| `KnownBlock.TenLetters` | deps/zlib/trees.c:1043-1088 | a last block with the fixed codes that stands for ten letters a is the bytes 4b 4c 84 01 00: which bit comes first, the type of the block, and the order of length and distance |
| `Adler32.ExampleValue` | deps/zlib/adler32.c:63-131 | the checksum of "Wikipedia" is 0x11e60398: it starts from 1 and has the sum of sums in its upper half |
| `Sfmt.FirstLag` | deps/SFMT/SFMT.c:95-128 | the first word that the recursion is given lies n words back: with a recursion that returns it the sequence repeats the seed |
| `Sfmt.SecondLag` | deps/SFMT/SFMT.c:95-128 | the second one n - pos1 words |
| `Sfmt.LastLags` | deps/SFMT/SFMT.c:95-128 | and the other two are the two words before |
| `Utf8Checked.RangeEnds16` | deps/utf8cpp/utf8/checked.h:232-248 | code points up to 0xffff are their own unit, U+10000 is d800 dc00, U+10FFFF is dbff dfff, and from each pair to the next the trail counts up with a carry into the lead |

## Left out

- Weak memory: the queues' atomic operations are sequentially consistent steps.
- Crc32: the tables of `crc32.h` (that file is not part of this model; make_crc_table defines them), the big-endian branch and the ARM code.
- Adler32.Adler32Z: a null buffer, which asks for the initial value; `|` of the two sums is written as their sum with the second shifted.
- Sfmt: the recursion itself, which is a parameter, seeding and period certification, and the SSE2, AltiVec and NEON variants.
- Utf8: octets that are signed characters; the advance and distance loops and the iterator class; octets already written when a conversion throws.
- Deflate: deflate_stored, deflate_rle, deflate_huff, preset dictionaries, deflateParams, deflateTune and deflatePrime; the zeroing of the window beyond the input (deps/zlib/deflate.c:1605-1637), which no result depends on; the window is allocated with arbitrary contents; tokens are one sequence for the whole stream, divided into blocks in `EndToEnd.SendAll`.
- FlushBlock.FlushBlock: decides for a stored block but does not send it; scratch arrays are allocated per call instead of being reused; no bound on the compressed size.
- EndToEnd.DeflateThenInflate: no stored blocks among the blocks sent, one call of deflate with all input, and all bytes available to the decoder at once; runs of many calls are `Deflate.Compress` and `RoundTrip.InflateRun`.
- Inflate: gzip and zlib headers and trailers, inflateSync, inflatePrime, the switch to a stored block inside a run; the window is updated after every call, also where the source skips it at the end of a stream; `sane` is always set.
- BuildTree.BuildTree: optimality is stated for frequencies that sum to less than 2^16, which the size of the symbol buffer guarantees.
- gzip file functions, infback.c, wrappers over OpenSSL, logging, configuration and the rest of the bot: plumbing without algorithmic content.
