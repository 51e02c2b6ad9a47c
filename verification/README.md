# Proofs about a persistent key-value store and its image codec

This project models, in Dafny 4.11, the three components of the key-value store that carry its hard promises, and proves
them.

1. **The allocator over a memory-mapped file** (`src/lib/file_backed_buffer.cpp`). `Heap` is the abstract state: blocks
   that tile the buffer, a sorted coalesced free list, a used list. `Links` and `HeapMemory` say how little-endian headers
   in one flat byte array represent such a state, and the class `FileBackedBuffer` performs the pointer surgery on that
   array. Its real layout is used: 16 bytes of list heads, 24 bytes of overhead per block, a split threshold of 124.
2. **The hash table.** `HashTable` is the table over those bytes without concurrency: put and get implement a finite map,
   and the table can be rebuilt from the used list. The `Concurrent*` modules are a transition system with any number of
   threads, arbitrary interleaving and explicit reference counts: linearizability, ownership of blocks, safety of accesses,
   progress. `ConcurrentHeap` runs it together with the first-fit heap.
3. **The image codec** (`external_libs/fpng/src/fpng.cpp`), as methods over arrays that are proved against definitions:
   code lengths in place, length limiting, canonical codes, the decoder's two-symbol table, packing of code lengths, the
   bit buffers of both sides, the two-pass encoder, both pixel decoders, stored blocks, CRC-32 and Adler-32. They are
   composed: what `ImageEncoder.CompressImage` makes of an image, `Decompressor.Decompress` turns back into it. `Zlib` and
   `PngRows` are a reference reader, written from RFC 1950, RFC 1951 and the PNG Specification with tables of its own: it
   finds the image in the same bytes.

Buffers are sequences or arrays of numbers below 256; a stream of bits is the number its bytes form, lowest byte first.

## Findings

Where the code does not do what its comments, asserts or callers suggest, the model follows the code, and there are an
input and the exact condition.

- **Stale links after a split.** Inserting into an empty free list stores only the list head
  (`src/lib/file_backed_buffer.cpp:170-174`), and the header of the block that a split creates lies in former payload
  bytes which nobody clears (`src/lib/file_backed_buffer.cpp:101-103`). `HeapMemory.CleanSplit` is the condition, on the
  state before the call: if the split block is the only free block, the sixteen bytes at the place of the new header are
  zero. After a successful `alloc` the bytes are those of a heap if and only if it holds (`FileBackedBuffer.Alloc`); so
  they are after everything `put` does before it releases a replaced block (`HashTable.Place`).
  `StaleSplit.LargeFillFreeSmall` (allocate all, fill, free, allocate a little) and `StaleTable.LongLongShort` (put a
  long value, put another one for the same key, put a short pair) end in bytes that are not those of any heap.
- **Scaled frequencies may exceed 16 bits in sum.** The loop that should bring the sum below 65536 shrinks the unscaled
  array (`external_libs/fpng/src/fpng.cpp:895-906`), so the result is the scaled shares whatever their sum
  (`Frequencies.AdjustFrequencies`). With T the sum of the frequencies f, the sum of the results is at most 65535 if and
  only if T times the number of used symbols with 65535 f < T is at most the sum of the remainders of 65535 f by T
  (`Frequencies.SumFitsWhen`); it is if there are no such symbols, as when T is at most 65535
  (`Frequencies.NoRareFits`). For 288 symbols with the frequencies 200000, 1, 1, 1, 0, ... it is 65537
  (`Frequencies.SumTooLarge`). It never exceeds 65535 plus the number of used symbols, which keeps all code lengths
  below 24, so the length counters are not overrun (`HuffmanTables.DepthLimit`).
- **Fields without bits.** `GET_BITS_NE` asserts that it reads at least one bit
  (`external_libs/fpng/src/fpng.cpp:1941-1946`), and both pixel loops call it for the extra bits of every length symbol
  from 265 on (`2291-2297`, `2669-2675`). The assert fails if and only if the symbol is 285, 286 or 287
  (`RunAsserts.EmptyField`). The encoder makes none of them. With asserts off a run has no bytes if and only if the
  symbol is 286 or 287 (`RunAsserts.RunOfNothing`); in four channels the loop then draws one pixel unless it copies
  (`2683-2760`), and the reader of one symbol at a time is defined to do the same.
- **Runs of parts of pixels.** The loop for three channels asserts that the bytes of a run are a multiple of three
  (`external_libs/fpng/src/fpng.cpp:2303`). That depends on the stream. The assert holds if and only if the reader of
  one symbol at a time accepts the token (`RunAsserts.WholePixels`); with asserts off the loop turns the others down.
  `RunAsserts.OneBitRuns` has a stream for either assert.
- **Distances are not looked at.** Both pixel loops skip the bit of a distance, taking it to be always the same
  (`external_libs/fpng/src/fpng.cpp:2299-2300`, `2677-2678`), and so the pixels they make do not depend on it
  (`RunAsserts.RunBlind`). The encoder writes 0 (`HeaderWriter.DistancesShort`). For every header that is accepted and
  whose distance code other readers accept, these find the distance of one pixel there if and only if the bit is 0
  (`RunAsserts.SkippedDistance`); with a 1 they copy from further back.
- **Sizes beyond 32 bits.** The encoder accepts images whose buffer sizes wrap around
  (`external_libs/fpng/src/fpng.cpp:1670-1705`), such as 65535 by 32768 pixels of four bytes
  (`ImageEncoder.AcceptedTooLarge`). All buffers get the room they need if and only if the file of stored blocks would
  stay below 2^32 bytes (`ImageEncoder.RoomWhen`).
- **Adler-32 of nothing.** The 16-lane form reduces the starting value even if there is no input, the definition and the
  scalar form do not. It agrees with the definition if and only if the input is not empty or the start is reduced
  (`AdlerLanes.AdlerSixteen`); it does not for no bytes and 65521 (`AdlerLanes.NothingReduced`).

## Model

| member | source | states |
|---|---|---|
| Heap.AllocOk | src/lib/file_backed_buffer.cpp:93-112 | first-fit allocation with its split keeps the blocks tiling the buffer without gap or overlap, the lists disjoint, the free list rising and without neighbours that touch, and the size of every used block |
| Heap.FreeOk | src/lib/file_backed_buffer.cpp:125-131 | a release with its three-way merge keeps the same, and removes exactly that block from the used list |
| Heap.RunOk | src/lib/file_backed_buffer.cpp:86-131 | so every state of every run of abstract allocations and releases is well formed |
| Heap.AllocateFirstFit | src/lib/file_backed_buffer.cpp:90-122 | an allocation takes the lowest free block that fits, or changes nothing if none fits; a block of less than 124 bytes more than asked for goes out whole, and the free list just loses it; of a larger one exactly the bytes asked for go out, and a free block of the rest, at least 100 bytes, lies right behind them |
| Heap.Canonical | src/lib/file_backed_buffer.cpp:152-238 | two well-formed heaps with the same used blocks have the same tiling and the same free list |
| Heap.FreeOrder | src/lib/file_backed_buffer.cpp:125-238 | releasing the same blocks in any order leads to the same tiling and free list |
| Heap.FreeEverything | src/lib/file_backed_buffer.cpp:62-73 | releasing all used blocks leads back to the one block of a fresh buffer |
| Heap.FewFree | src/lib/file_backed_buffer.cpp:152-238 | there is at most one more free block than used blocks |
| FileBackedBuffers.FileBackedBuffer.constructor | src/lib/file_backed_buffer.cpp:62-73 | formatting a zeroed file gives the bytes of the heap with one free block |
| FileBackedBuffers.FileBackedBuffer.RemoveBlock | src/lib/file_backed_buffer.cpp:133-149 | memory is changed by exactly the unlinking of the block and the clearing of its links |
| FileBackedBuffers.FileBackedBuffer.PushUsed | src/lib/file_backed_buffer.cpp:152-163 | memory is changed by exactly the linking of the block at the front of the used list |
| FileBackedBuffers.FileBackedBuffer.InsertFree | src/lib/file_backed_buffer.cpp:166-238 | the walk ends with the asserts holding; into a non-empty list the block is inserted in order and merged, touching no header but those of the list and no payload; into an empty list only the head is written |
| FileBackedBuffers.FileBackedBuffer.Alloc | src/lib/file_backed_buffer.cpp:86-123 | null if and only if no free block is large enough, and then nothing has changed; otherwise the lowest block that fits is taken, whole or split as the threshold of 124 bytes says, all used payloads keep their bytes, and the bytes are those of a heap if and only if the split was clean |
| FileBackedBuffers.FileBackedBuffer.Free | src/lib/file_backed_buffer.cpp:125-131 | the bytes become those of the heap without the block, and no payload changes, not even that of the block released |
| HeapMemory.RepresentsOnce | src/lib/file_backed_buffer.cpp:86-238 | bytes determine the heap they stand for |
| HeapMemory.BytesOf | src/lib/file_backed_buffer.hpp:53-65 | where the bytes of a heap are: the offsets of the first free and the first used block in the words at 0 and 8, lowest byte first, and from 16 on blocks one right behind the other, each with the offsets of the block before it and after it in its list, its size, and its payload |
| HeapMemory.ReadableWhen | src/lib/file_backed_buffer.cpp:170-174 | given the used list, bytes stand for some heap only if they stand for the expected one |
| HeapMemory.PayloadWritten | src/lib/hash_table.cpp:95-110 | a client that writes inside the payload it holds changes no header and no other payload, and neither breaks nor mends the lists |
| StaleSplit.LargeFillFreeSmall | src/lib/file_backed_buffer.cpp:101-103 | a run of four calls after which the bytes are not those of any heap |
| HashTables.HashTable.Place | src/lib/hash_table.cpp:30-51 | everything put does before a replaced block is released: fails, changing nothing, if and only if no free block is large enough; otherwise the map gets the value, payloads that were in use keep their bytes, lookups are right, and the bytes are those of a heap if and only if the split was clean |
| HashTables.HashTable.Release | src/lib/hash_table.hpp:23-31 | releasing the replaced block, which no bucket owns, on a well-formed free list keeps the table and all payloads, even that of the block |
| HashTables.HashTable.Put | src/lib/hash_table.cpp:30-51 | both together: the table is well formed afterwards if and only if the split was clean, for every new key, and for every key if it was |
| HashTables.HashTable.Get | src/lib/hash_table.cpp:53-60 | the value last put for the key, or the empty string |
| HashTables.HashTable.FindBucket | src/lib/hash_table.cpp:62-80 | the one bucket with the key, or none |
| HashTables.HashTable.constructor | src/lib/hash_table.cpp:15-28 | rebuilding from a used list whose blocks hold pairs with different keys gives exactly the map of these pairs, for any hash function and number of slots |
| HashTables.Reopen | src/lib/hash_table.cpp:15-28 | opening the buffer of a quiescent table again, with any hash, gives a table with the same contents |
| HashTables.ChainsGrow | src/lib/hash_table.cpp:88-92 | putting a bucket in front of its chain keeps every chain the buckets of its slot from newest to oldest |
| StaleTable.LongLongShort | src/lib/hash_table.cpp:30-51 | a run of three puts after which lookups are right but the bytes are not those of any heap |
| ConcurrentSteps.GetReloadInv | src/lib/hash_table.cpp:53-60 | the second payload load, where a get that found its key takes effect, keeps the invariant |
| ConcurrentSteps.GetHeadInv | src/lib/hash_table.cpp:62-70 | so does the head load, where a get that will miss takes effect |
| ConcurrentSteps.PutStoreOldInv | src/lib/hash_table.cpp:112-117 | so does the payload store, where an overwriting put takes effect |
| ConcurrentSteps.PutPublishInv | src/lib/hash_table.cpp:88-92 | so does the head store, where a put of a new key takes effect |
| ConcurrentSteps.FreeInv | src/lib/hash_table.hpp:23-31 | so does the deleter of a payload that nobody refers to any more |
| ConcurrentReload.LoadKeeps | src/lib/hash_table.cpp:15-28 | a bucket for one more stored pair with a new key leads from a state in which runs may start to another one, with that pair added to the map |
| ConcurrentTheorems.Linearizable | src/lib/hash_table.cpp:30-92 | in every interleaving from every quiescent table, each answered operation took effect at one point between its invocation and its answer, and all answers are those of a sequential map in the order of these points |
| ConcurrentTheorems.ContentsAreAbs | src/lib/hash_table.cpp:30-92 | at every moment the published buckets hold exactly that sequential map |
| ConcurrentTheorems.UsedIffOwned | src/lib/hash_table.hpp:23-56 | at every moment a block is in use if and only if a bucket, a thread's reference, a put that has not handed it over, or a thread about to free it accounts for it |
| ConcurrentTheorems.FreedOnce | src/lib/hash_table.hpp:23-31 | a block about to be freed is in use, nothing refers to it, and no other thread is about to free it |
| ConcurrentTheorems.SafeAccess | src/lib/hash_table.cpp:62-124 | every bucket and payload a thread is about to look at is there and is a live pair |
| ConcurrentTheorems.Quiescent | src/lib/hash_table.hpp:23-56 | when nobody is active, blocks in use and buckets are in one-to-one correspondence and all counts are one |
| ConcurrentProgress.OnlyMutexBlocks | src/lib/hash_table.cpp:30-60 | a thread can move if and only if it is not waiting for the mutex |
| ConcurrentProgress.HolderMoves | src/lib/hash_table.cpp:30-51 | whenever a thread waits, another one holds the mutex and can move |
| ConcurrentProgress.BoundedSteps | src/lib/hash_table.cpp:62-80 | after its head load a get, and with the mutex a put, takes at most eleven steps of its own and three more for every bucket older than the one it is at, whatever the others do |
| ConcurrentHeap.StaysBacked | src/lib/hash_table.cpp:30-60 | in every run in which put takes its blocks first-fit and deleters release them, the heap stays well formed and its used blocks are the blocks in use |
| ConcurrentHeap.ListedIffOwned | src/lib/hash_table.hpp:23-56 | so a block is on the used list if and only if a bucket, a thread's reference, a put or a thread about to free it accounts for it |
| ConcurrentHeap.PairsFit | src/lib/hash_table.cpp:36-46 | at every moment of such a run the block of every stored pair has the bytes of its key, of its value and of two NULs |
| ConcurrentHeap.FailsWhen | src/lib/hash_table.cpp:36-40 | a step logs a failed put if and only if it is the allocation of that put and no free block has as many bytes as its key, its value and two NULs |
| ConcurrentHeap.OnlyMutexBlocksJointly | src/lib/hash_table.cpp:30-60 | with that allocator, too, a thread can move if and only if it is not waiting for the mutex |
| MinimumRedundancy.CalculateMinimumRedundancy | external_libs/fpng/src/fpng.cpp:639-659 | in place and in bounds for any counts: lengths never rise and have Kraft sum exactly one; for sorted counts none of whose inner nodes but the root wraps at 16 bits, the total cost is minimal over all prefix codes and every length is bounded by Fibonacci numbers |
| MinimumRedundancy.SmallIsTame | external_libs/fpng/src/fpng.cpp:639-659 | no inner node but the root wraps if the sum of sorted counts is below 98304 |
| MinimumRedundancy.FourLarge | external_libs/fpng/src/fpng.cpp:639-659 | four counts of 30000 have a larger sum, and only the root wraps |
| HuffmanTrees.NoneCheaper | external_libs/fpng/src/fpng.cpp:639-659 | no code for the items not yet joined is cheaper than joining them greedily |
| HuffmanTrees.TreeShallow | external_libs/fpng/src/fpng.cpp:639-659 | a code length of n needs counts that add up to the Fibonacci number n + 2 |
| HuffmanTables.DepthLimit | external_libs/fpng/src/fpng.cpp:678-692 | no code is longer than 23 bits, nor than 22 if the sum is below 75025, as every sum of 16 bits is; the length counters go up to 32 |
| CodeLimits.EnforceMaxCodeSize | external_libs/fpng/src/fpng.cpp:663-674 | from the counts of a complete code: as many codes, none longer than the limit, none negative, Kraft sum exactly one, always a shorter code to lengthen; exactly what as many rounds as there is too much room taken make of the counts cut off at the limit; a code that is short enough stays |
| RadixSort.RadixSort | external_libs/fpng/src/fpng.cpp:622-636 | the symbols sorted by count, a permutation, in one of the two arrays; symbols with equal counts stay in order |
| HuffmanTables.OptimizeTable | external_libs/fpng/src/fpng.cpp:676-709 | lengths for exactly the used symbols, not above the limit, no longer for the more frequent of two, nor for the later of two that are equally frequent, complete if there are two, and the canonical codes with their bits reversed; no canonical code for the symbols makes the text shorter, unless the one found had codes beyond the limit, and then the lengths are those that limiting it leads to |
| HuffmanTables.CheapestWhen | external_libs/fpng/src/fpng.cpp:676-709 | the code is a cheapest one whenever the sum of the counts is below the Fibonacci number of the limit |
| CheapestCodes.PickedCheapest | external_libs/fpng/src/fpng.cpp:676-699 | a code that is optimal for the list of used symbols is one for the whole alphabet |
| Frequencies.AdjustFrequencies | external_libs/fpng/src/fpng.cpp:868-907 | every result is the share of 65535 rounded down, or one for a used symbol that would get none; it fits 16 bits, and the sum is at most 65535 plus the number of used symbols |
| Frequencies.SumFitsWhen | external_libs/fpng/src/fpng.cpp:895-906 | the sum fits 16 bits if and only if the total times the number of rare symbols is at most the sum of the remainders |
| Frequencies.NoRareFits | external_libs/fpng/src/fpng.cpp:880-906 | it does without rare symbols, and if the total fits 16 bits itself |
| Frequencies.SumTooLarge | external_libs/fpng/src/fpng.cpp:880-906 | called for 288 symbols with frequencies 200000, 1, 1, 1, 0, ... the scaling gives a sum of 65537 |
| PixelEncoder.CountsAre | external_libs/fpng/src/fpng.cpp:1092-1094 | scaled this way, the counts of any image are within what the code-length algorithm can take, and every symbol the tokens need is used |
| CanonicalCodes.CodeBound | external_libs/fpng/src/fpng.cpp:701-708 | canonical codes fit their lengths |
| CanonicalCodes.MatchUnique | external_libs/fpng/src/fpng.cpp:1868-1892 | no window starts with two codes: every table entry is written at most once |
| CanonicalCodes.MatchExists | external_libs/fpng/src/fpng.cpp:1868-1892 | with a complete code every window starts with one: every entry is written |
| DecoderTable.BuildDecoderTable | external_libs/fpng/src/fpng.cpp:1836-1895 | accepts exactly the complete codes and those of one symbol, and then each of the 4096 entries names the symbol and length of the code its window starts with, or is empty |
| TwoSymbolTable.AddSecondSymbols | external_libs/fpng/src/fpng.cpp:2079-2102 | in place, every entry gets the pairing that the original entries give |
| TwoSymbolTable.TwoLookups | external_libs/fpng/src/fpng.cpp:2079-2102 | for every stream, an entry's halves are what two successive single lookups give, and the upper half is there if the first symbol is a literal and both codes fit the window |
| CodeLengthRuns.PackCodeSizes | external_libs/fpng/src/fpng.cpp:711-794 | expanding the packed lengths gives them back, symbol 16 only repeats the nonzero length before it, the counts are those of the symbols, and the packed form is no longer than the lengths and the one in which every stretch of equal lengths is cut into runs as long as can be |
| HeaderWriter.DistancesShort | external_libs/fpng/src/fpng.cpp:1096-1104 | the two distances get codes of one bit, and that of the one in use is 0 |
| HeaderWriter.StartDynamicBlock | external_libs/fpng/src/fpng.cpp:746-816 | makes a code for exactly the literals counted and appends the bits of a header for it, leaving at most 7 bits buffered; fails only if the bits do not fit; any reader of zlib data finds in these bits the lengths of whole codes, those of the code length code in the order of the standard, and no length or run is sent that need not be |
| DynamicHeader.HeaderBack | external_libs/fpng/src/fpng.cpp:1954-2077 | what describes a code is read back as that code, with all its bits consumed |
| HeaderReader.PrepareDynamicBlock | external_libs/fpng/src/fpng.cpp:1954-2105 | succeeds with the code a stream's header says and its two-symbol table; fails only if there is none or it reaches beyond the end less 56 bits; never takes bits that are not buffered; any reader of zlib data finds the same lengths in these bits |
| DynamicHeader.HeaderMeans | external_libs/fpng/src/fpng.cpp:1954-2077 | every header that is accepted announces, by the standard, the lengths that are read from it and takes as many bits |
| BitWriter.Writer.Flush | external_libs/fpng/src/fpng.cpp:567-576 | eight bytes are stored if and only if there is room, and no bit is lost or added |
| BitWriter.Writer.ForceFlush | external_libs/fpng/src/fpng.cpp:578-588 | all bits are stored, with zeros up to a byte; fails only if they do not fit |
| BitReader.Reader.Ensure | external_libs/fpng/src/fpng.cpp:1919-1924 | 32 bits are buffered afterwards, or fewer than 56 bits of the input are left; the position stays |
| BitReader.Reader.SkipNe | external_libs/fpng/src/fpng.cpp:1948-1952 | the position moves by bits that are buffered |
| Filters.FilterImage | external_libs/fpng/src/fpng.cpp:1699-1711 | the first row unfiltered, every other the byte-wise difference from the row above |
| PixelTokens.Unfilter | external_libs/fpng/src/fpng.cpp:1592-1660 | playing a pixel of the filtered row gives the pixel of the row |
| MatchLengths.LengthBack | external_libs/fpng/src/fpng.cpp:498-512 | symbol and extra bits of every match length from 3 to 258 lead back to it by the tables of the decoder |
| Tokenizer.RunLength | external_libs/fpng/src/fpng.cpp:1047-1061 | the greatest number of equal pixels that the row and the longest match allow |
| Tokenizer.Tokenize | external_libs/fpng/src/fpng.cpp:1021-1090 | the tokens play to the image, spell the filtered bytes as copies and literals, and the counts are those of the symbols they need; no pixel repeats the one before it, and a run is only followed by a run if it is as long as one can be |
| TokenCoding.PlaysBack | external_libs/fpng/src/fpng.cpp:1105-1145 | reading the bits of tokens one symbol at a time gives the tokens back |
| ZlibEncoding.TokensData | external_libs/fpng/src/fpng.cpp:1105-1145 | any reader of zlib data finds in the bits of tokens the bytes they spell, every run being a copy of bytes one pixel back |
| Conversion.PlayConverted | external_libs/fpng/src/fpng.cpp:2280-2550 | the tokens of an image played with the other number of channels give it with alpha dropped or 255 |
| PixelEncoder.PutPixelBits | external_libs/fpng/src/fpng.cpp:1110-1122 | appends the codes of a pixel without the 64-bit buffer getting full |
| PixelEncoder.EncodeTwoPass | external_libs/fpng/src/fpng.cpp:990-1161 | a result other than 0 is the size of a stream of zlib header, block header, tokens of the image, end of block, padding and checksum, whose last four bytes are the checksum of the filtered image, highest byte first; 0 only if the stream has less than 13 bytes to spare; all runs are found, the code is a cheapest one for the scaled counts, or one that limiting it leads to, and the header is as short as can be |
| PixelReader.ThreeChannels | external_libs/fpng/src/fpng.cpp:2390-2470 | the literals taken from halves of entries and from lookups, in any mixture, are those that the reader of one symbol at a time finds; failure only if that reader finds none or is beyond the end; only buffered bits are taken |
| PixelReader.SpeculativePixel | external_libs/fpng/src/fpng.cpp:2472-2545 | the same for the pixel whose first literal is the upper half of the entry before |
| PixelReader.FourChannels | external_libs/fpng/src/fpng.cpp:2762-2869 | the same for pixels of four literals |
| PixelReader.RunLength | external_libs/fpng/src/fpng.cpp:2668-2684 | the run length is what the reader of one symbol at a time finds, in pixels if it is a whole number of them |
| RunAsserts.EmptyField | external_libs/fpng/src/fpng.cpp:2669-2675 | the field of extra bits is read and has no bits if and only if the symbol is 285, 286 or 287 |
| RunAsserts.WholePixels | external_libs/fpng/src/fpng.cpp:2303-2303 | the bytes of a run are a multiple of three if and only if the reader of one symbol at a time accepts it in three channels |
| RunAsserts.RunOfNothing | external_libs/fpng/src/fpng.cpp:2666-2684 | a run has no bytes if and only if its symbol is 286 or 287 |
| RunAsserts.OneBitRuns | external_libs/fpng/src/fpng.cpp:2283-2303 | a stream with a run of no bytes in four channels, and one with a run of four bytes in three channels |
| RunAsserts.RunBlind | external_libs/fpng/src/fpng.cpp:2299-2300 | a run is the same whatever the bit of its distance |
| RunAsserts.SkippedDistance | external_libs/fpng/src/fpng.cpp:2299-2300 | for every header that is accepted, a reader of zlib data that accepts its distance code finds the distance of one pixel in the bit that is skipped if and only if it is 0 |
| PixelDecoder.Round3 | external_libs/fpng/src/fpng.cpp:2268-2552 | one round of the pixel loop moves the one-symbol-at-a-time reader on, the pixels written are the ones it has read, and at least twelve bits stay buffered; failure only if no image can be decoded |
| PixelDecoder.Round4 | external_libs/fpng/src/fpng.cpp:2646-2869 | the same for four channels |
| PixelDecoder.DrawRun | external_libs/fpng/src/fpng.cpp:2686-2760 | copying from the row above or adding the last difference, a run writes what that many pixels would |
| PixelDecoder.FinishBlock | external_libs/fpng/src/fpng.cpp:2556-2585 | accepts if and only if the end of the block follows and exactly four bytes are left of the stream after the byte it ends in, whatever has been read ahead |
| PixelDecoder.DecodeBlock | external_libs/fpng/src/fpng.cpp:2587-2901 | for every stream of bytes, succeeds with the image if and only if the reader of one symbol at a time ends with it |
| Decompressor.Decompress | external_libs/fpng/src/fpng.cpp:2209-2901 | for all bytes, accepts exactly the streams that decode to an image, and writes that image |
| Decompressor.DecodesOnce | external_libs/fpng/src/fpng.cpp:2209-2901 | there is at most one such image |
| RoundTrip.TwoPassRoundTrip | external_libs/fpng/src/fpng.cpp:990-1447 | a stream of the two-pass encoder, whatever follows it, decodes to the image in three or four channels, and its end is accounted for exactly |
| RoundTrip.StoredDecompresses | external_libs/fpng/src/fpng.cpp:818-866 | so does a stream of stored blocks |
| ZlibStreams.TwoPassContent | external_libs/fpng/src/fpng.cpp:990-1161 | any reader of zlib data finds the filtered image in a stream of the two-pass encoder, and its checksum matches |
| ZlibStreams.StoredContent | external_libs/fpng/src/fpng.cpp:818-866 | the same for any bytes in stored blocks |
| ZlibStreams.CodeBit | external_libs/fpng/src/fpng.cpp:701-708 | a code begins with its highest bit |
| ZlibStreams.BitOf | external_libs/fpng/src/fpng.cpp:563-576 | the bits of a byte come into the stream from the lowest up |
| ZlibStreams.FieldBits | external_libs/fpng/src/fpng.cpp:563-565 | a field has its lowest bit first |
| PngRows.ImageRestored | external_libs/fpng/src/fpng.cpp:1592-1660 | any reader of PNG images restores the image from the filtered rows, and from the rows without a filter |
| ImageEncoder.CompressImage | external_libs/fpng/src/fpng.cpp:1662-1762 | succeeds for exactly the dimensions and channels accepted, with data that decode to the image, and in which any reader of zlib data and PNG rows finds it; with the flag, exactly the rows in stored blocks; without it, exactly what two passes make of the image, or the stored blocks if the stream had less than 13 bytes to spare in the room of the rows, up to a multiple of eight in the file; the sizes must not wrap around |
| ImageEncoder.RoomWhen | external_libs/fpng/src/fpng.cpp:1685-1747 | computed in 32 bits, all three buffers have the room needed if and only if the file of stored blocks stays below 2^32 bytes |
| ImageEncoder.AcceptedTooLarge | external_libs/fpng/src/fpng.cpp:1670-1686 | 65535 by 32768 pixels of four bytes are accepted, and the first buffer is smaller than the rows |
| ImageEncoder.DecompressorAccepts | external_libs/fpng/src/fpng.cpp:3113-3131 | hence any outcome that the contract of the decompressor allows on such data is success with the image |
| StoredBlocks.StoredExact | external_libs/fpng/src/fpng.cpp:1747-1747 | the room made for stored blocks is exactly their size |
| StoredBlocks.WriteRawBlock | external_libs/fpng/src/fpng.cpp:818-866 | fails if and only if the buffer is smaller than that, and otherwise writes exactly the blocks and the checksum, which is the number made of the last four bytes, highest first |
| StoredDecoder.StoredRoundTrip | external_libs/fpng/src/fpng.cpp:2107-2207 | stored blocks of an image decode to it across block boundaries, converted to the channels wanted |
| StoredDecoder.RawDecompress | external_libs/fpng/src/fpng.cpp:2107-2207 | for all bytes, accepts exactly what decodes to an image, and writes that image |
| Crc32.FourBytes | external_libs/fpng/src/fpng.cpp:239-243 | four byte steps are 32 bit steps on the register with all four bytes put in at once |
| Crc32.CrcSliceBy4 | external_libs/fpng/src/fpng.cpp:234-249 | with tables that follow the byte-step recurrence, the checksum of the bit-by-bit definition |
| Crc32.PolynomialIs | external_libs/fpng/src/fpng.cpp:199-232 | the word for the polynomial has a one for exactly the powers of x that the PNG Specification lists |
| Crc32.RegisterConcat | external_libs/fpng/src/fpng.cpp:234-249 | checksumming a concatenation is chaining the checksums |
| Adler32.NoOverflow | external_libs/fpng/src/fpng.cpp:465-478 | within a block of 5552 bytes no 32-bit sum overflows, from any starting values of 16 bits |
| Adler32.AdlerScalar | external_libs/fpng/src/fpng.cpp:465-478 | the checksum of the byte-by-byte definition, from any starting value |
| AdlerLanes.CombineLanes | external_libs/fpng/src/fpng.cpp:426-453 | the weighted sum over the lanes, in 64 bits without overflow or underflow |
| AdlerLanes.AdlerSixteen | external_libs/fpng/src/fpng.cpp:407-461 | the checksum of the definition if and only if the input is not empty or the starting value is reduced |
| AdlerLanes.NothingReduced | external_libs/fpng/src/fpng.cpp:407-461 | for no bytes and 65521 the definition gives 65521 and the lanes 0 |

## Left out

- Heap.RunOk: is about the abstract heap; for the bytes each call of `FileBackedBuffer.Alloc` and `FileBackedBuffer.Free` says what it keeps, and which allocations break the free list.
- HashTables.HashTable.Put: requires a clean split when the key is there already, because the old block is then freed on the malformed list, and the walk of that free follows offsets made of payload bytes; `HashTable.Place` has everything up to there.
- HashTables.HashTable.constructor: requires the used blocks to hold different keys, as they do when no put is under way.
- ConcurrentHeap.StaysBacked: the heap is the abstract one, in which every split is clean; for the bytes see `FileBackedBuffer.Alloc`.
- ImageEncoder.CompressImage: requires that the sizes of an accepted image do not wrap around, because the code then writes outside its buffers.
- HashTables.Reopen: is about a table at rest; after a stop in the middle of a put two used blocks may hold the same key, and the constructor does not choose between them.
- PixelEncoder.EncodeTwoPass: that 0 means little room is one way only; with less than 13 bytes to spare the result may also be a stream, as whether the last 64-bit store fits depends on where the bits end.
- Decompressor.Decompress: is exact with respect to the reader of one symbol at a time; on streams the encoder does not make this reader is not a general one, as it skips distances and takes a run right after a filter type to be of zeros.
- Zlib: blocks with the fixed codes are not read, as the encoder makes none.
- Opening, sizing, mapping and syncing the file, durability and torn writes: the model starts from a zeroed or an already well-formed buffer.
- C++ weak memory and the inside of atomic shared pointers: steps are sequentially consistent and reference counts explicit. The allocator's own lock makes each of its calls one step, which returns any block that is not in use.
- Keys and values with a NUL inside: the storage format cuts them off, so operations of the concurrent model take NUL-free strings, as those of the sequential one do.
- The hash function: an uninterpreted function to slots.
- Destruction of the table, iteration over it, and `print_stats`: no properties beyond those of the lists.
- The one-pass encoders and their literal tables, and the literal CRC tables: finite data; CRC tables are parameters constrained by their recurrence, the tables of match lengths are written as formulas and lists.
- The static-table branch of the code optimizer and the generator of one-pass tables: not reached by the two-pass encoders.
- CRC by carry-less multiplication, unaligned loads and endianness: hardware specifics. A 64-bit store or a block copy is a loop over bytes.
- PNG chunks around the image data, and whole files: many easy branches. The header keeps only 16 bits of width and height.
- Other 32-bit counters of the codec: total frequencies and offsets stay below the sizes that `ImageEncoder.CompressImage` bounds, and are unbounded numbers. Counters and sums inside the algorithms have their width in the model.
