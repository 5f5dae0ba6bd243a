# Verified models of the synchronisation and memory exercises

This project models eight small programs of the repository in Dafny and proves what they are for.

- **Boundary-tag allocator** (`ChunkList`, `HeapRuns`, `Allocator`): a byte buffer tiled by chunks
  `[marker][head size][payload][tail size]`, first fit with splitting, release with joining in both
  directions. `ChunkList` is the list of chunks the bytes stand for, `HeapRuns` whole runs of calls on it,
  `Allocator` the stores to the buffer, proved to decode to that list at all times.
- **Chunked decoder** (`ChunkedMachine`, `ChunkedCoding`, `ChunkedLanguage`, `ChunkedDecoder`): chunked
  transfer coding of section 4.1 of RFC 7230. A machine that reads one byte at a time is the reference; the
  decoder that works in place on whole buffers refines it; an encoder is its inverse, and its encodings say
  exactly which inputs are complete, incomplete and malformed.
- **Header parser** (`HeaderGrammar`, `HeaderResume`, `HeaderPrint`, `HeaderLanguage`, `HeaderParser`): header
  fields of section 3.2 of RFC 7230. Plain recursive scans are the reference, the loops over the buffer refine
  them; a printer is their inverse, and what it prints says exactly which inputs are complete, incomplete and
  malformed.
- **Slab cache** (`SlabLayout`, `SlabState`, `SlabLists`, `SlabCache`): addresses, the three lists and the
  free chains by value, the same as words of memory, and the operations that rewrite those words.
- **In-place list sort** (`ByteStrings`, `ListSort`): one pass of the sorting thread, by relinking nodes.
- **Three-mutex hand-off** (`HandOff`): two threads round a ring of three mutexes, as interleaved steps.
- **Round-robin scheduler** (`ReadyQueue`, `Scheduler`): the doubly linked list of threads refines a
  first-in first-out queue with bounded waiting.
- **Wait-die lock** (`WaitDie`, `WaitDieRuns`, `WaitDieExclusion`, `WaitDieProgress`, `WaitDieReleases`):
  sleeping and waking, and exactly when the lock excludes, when nobody is left asleep, and when releases
  end and leave nothing owned, for any number of contexts and locks.
- **Dining philosophers** (`Philosophers`): for any number of philosophers and any amount of food.

`Common` and `Sequences` hold what several of them share.

## How the code is modelled

- Pointers into a buffer are offsets into it, and null is `None`; in the slab cache addresses are numbers
  and null is 0. Nodes of linked lists are objects. Machine words are integers with the wrap-around, or the
  conversion between signed and unsigned, written out where the code depends on it.
- Code whose loop or switch has several parts is split into one method per part, each with a contract that
  ties the state after it to the state before. A function that takes a pointer to a list head takes and
  returns the head. Parameters marked `ghost` only name positions for the proofs.
- The eight-fold unrolled part of `get_token_to_eol` is a counted inner loop of eight turns.
- Storing a size word of the allocator is eight byte stores, least significant first.
- The mask of `GET_SLAB_START_PTR` is modelled as rounding down to a multiple of the slab size, which is a
  power of two.
- `cache_alloc` is given the address that `alloc_slab` would return; `free_slab` makes the words of a slab
  unusable, so that a read after it could not be verified.
- In the programs with threads, each lock, unlock, wait, notify and access to shared data is one step, the
  scheduler picks any thread that can take a step, and memory is sequentially consistent. A wait on a
  condition may also end spuriously. The spinning of `main` on the flag is no step while the flag is unset.
- States carry some history that no step looks at: the lines printed, the dishes handed out and eaten, and the
  locks that a context has been told it holds.
- `FOOD`, `PHILO` and `ITERATIONS` are parameters.

Preconditions are those of the code's callers: a buffer of 17 bytes to below 2^63, released pointers that
are current chunks or live objects, and `wake_thread` only for a blocked thread (or with no thread at all).
`cache_setup` takes every object size of which the order fits an `int` and is not negative (`HasOrder`), as all
below 2^43 less a page do; the operations after it need two objects in a slab, and `TwoObjectsPerSlab` says
for which sizes that is so.

Where a promise does not hold for all inputs, the condition is part of the statement: a resumed
`phr_parse_headers` differs from a fresh one on some blocks without headers (`ResumedOnEmptyBlock`), a lone
philosopher deadlocks (`NoDeadlock`), the hand-off without iterations never ends (`NoRoundsNoEnd`), and the
wait-die lock lets two contexts hold a lock unless no call waits and each context takes one lock at a time
(`ExcludesExactlyWhen`). It fails in two ways: who wakes does not look at the owner again, and
`wdlock_unlock` reads `next` of a lock that it has already let go. The second can also leave a context asleep
when all others have released their locks (`NeverStrandsExactlyWhen`) or leave a lock owned by a context that
has released all (`ReleasesFreeExactlyWhen`); both can make a list a ring, of which the release never ends
(`NeverRingsExactlyWhen`, `ReleaseEndsExactlyWhen`).

## Model

| member | source | states |
|---|---|---|
| Allocator.StoreThenLoad | os-internals/allocator/src/allocator.h:15 | a size word stored as eight little-endian bytes and read back is the same value, for every 64-bit value |
| Allocator.DecodingIsUnique | os-internals/allocator/src/allocator.h:9-24 | the bytes of a buffer decode to at most one list of chunks that tiles it: equal head and tail sizes, markers 0 or 1 |
| Allocator.TilesSpan | os-internals/allocator/src/allocator.h:9-24 | the chunks the bytes decode to cover the buffer exactly: their sizes, with 17 bytes more for each, add up to its size |
| Allocator.MarkerIs | os-internals/allocator/src/allocator.h:6-14 | the byte nine in front of a payload is 0 when the chunk is free and 1 when it is not |
| Allocator.PayloadByteStored | os-internals/allocator/src/allocator.h:9-24 | a byte stored inside a live payload does not change what the bytes decode to |
| Allocator.Heap.constructor | os-internals/allocator/src/allocator.c:8-18 | after mysetup the bytes decode to one free chunk of the buffer's size less 17 |
| Allocator.Heap.SetSize | os-internals/allocator/src/allocator.h:15-17 | an assignment through GET_SIZE sets that word and leaves every byte outside it, and every word that does not overlap it |
| Allocator.Heap.Malloc | os-internals/allocator/src/allocator.c:21-62 | null, with no byte changed, exactly when no free chunk holds the request; else the lowest such chunk, split or whole; the bytes still decode to the chunk list, which is that of the run model, and every live payload keeps its bytes |
| Allocator.Heap.Search | os-internals/allocator/src/allocator.c:28-59 | the search loop stops at the first free chunk in address order that holds the request, or finds none |
| Allocator.Heap.Take | os-internals/allocator/src/allocator.c:33-52 | marking the found chunk and splitting it gives the list with the chunk taken, and changes no live payload |
| Allocator.Heap.Split | os-internals/allocator/src/allocator.c:35-51 | the stores of a split make an allocated chunk of the requested size and a free one over the rest, and touch nothing outside the found chunk |
| Allocator.Heap.Free | os-internals/allocator/src/allocator.c:65-121 | a null or already free pointer changes nothing; else the chunk and its free neighbours become one free chunk in the bytes, and every other live payload keeps its bytes |
| Allocator.Heap.CallerWrite | os-internals/allocator/src/main.c:35-36 | a byte that the caller stores in a payload it holds leaves the chunk list and every other live payload as they are |
| Allocator.Heap.Coalesce | os-internals/allocator/src/allocator.c:75-120 | the joining loop ends because each pass that does not return lowers the chunk count, and leaves the chunk merged with both free neighbours |
| Allocator.Heap.OnePass | os-internals/allocator/src/allocator.c:75-120 | one pass of the loop either ends the release or joins at least one neighbour, with fewer chunks left, and keeps what the whole release needs |
| Allocator.Heap.JoinPass | os-internals/allocator/src/allocator.c:99-119 | one joining pass merges the free neighbours on both sides into one chunk, still marked, without a free neighbour left, and changes only bytes of that block |
| Allocator.Heap.Connect | os-internals/allocator/src/allocator.c:100-118 | joining two neighbours replaces the two chunks by one of their sizes plus 17 and leaves every byte outside them |
| Allocator.Heap.LookBack | os-internals/allocator/src/allocator.c:80-85 | the marker and payload address read through the previous chunk's tail size are those of the previous chunk in the list, or none for the first |
| Allocator.Heap.LookAhead | os-internals/allocator/src/allocator.c:86-92 | the marker and payload address read through the head size are those of the next chunk, or none for the last |
| Allocator.Heap.MarkFree | os-internals/allocator/src/allocator.c:93-98 | storing the free mark ends the release: the bytes decode to the list with the whole block as one free chunk |
| ChunkList.AllocatedMeaning | os-internals/allocator/src/allocator.c:28-61 | an allocation keeps the tiling and the absence of adjacent free chunks, adds one live payload of at least the requested size at an address that was not live, and changes no other |
| ChunkList.ReleasedMeaning | os-internals/allocator/src/allocator.c:65-121 | a release keeps the tiling and the absence of adjacent free chunks and takes away exactly the released payload |
| ChunkList.ReleaseUndoesAllocate | os-internals/allocator/src/allocator.c:21-121 | releasing what was just allocated restores the exact chunk list, split or not |
| ChunkList.LiveDisjoint | os-internals/allocator/src/allocator.h:11-24 | two live payloads never share a byte; 17 bytes of bookkeeping lie between them |
| ChunkList.LiveBounds | os-internals/allocator/src/allocator.h:9-24 | every live payload lies inside the buffer, clear of the bookkeeping at both ends |
| ChunkList.NothingLiveMeansOneChunk | os-internals/allocator/src/allocator.c:75-120 | a heap without adjacent free chunks and without live payloads is one free chunk |
| HeapRuns.RunKeeps | os-internals/allocator/src/allocator.c:8-121 | after any run of calls the chunks tile the buffer and no two adjacent ones are free |
| HeapRuns.FreeLive | os-internals/allocator/src/allocator.c:65-121 | a live pointer is always accepted by myfree, which takes away that pointer and no other |
| HeapRuns.FreeAll | os-internals/allocator/src/allocator.c:65-121 | releasing all live payloads, in any order, leaves one free chunk of the total less 17 |
| HeapRuns.AnyRunThenFreeAll | os-internals/allocator/src/main.c:14-28 | after any run on a fresh buffer, releasing what is live in any order restores the fresh heap exactly |
| HeapRuns.FinalRequest | os-internals/allocator/src/main.c:30-34 | the demo's last request, for 8/9 of a defragmented buffer, succeeds exactly for totals of at least 145 bytes, also where size * 8 wraps |
| ChunkedMachine.DecodeHex | pthreads/laboratory_work_#29/lib/picohttpparser/picohttpparser.c:535-545 | a digit's value is below 16, and exactly the bytes that are no hexadecimal digit give -1; which value is in `ChunkedCoding.DecodeHexMeans` |
| ChunkedCoding.DecodeHexMeans | pthreads/laboratory_work_#29/lib/picohttpparser/picohttpparser.c:535-545 | a byte's value is its place in 0123456789abcdef or 0123456789ABCDEF, and -1 when it is in neither |
| ChunkedCoding.DigitsInOrder | pthreads/laboratory_work_#29/lib/picohttpparser/picohttpparser.c:535-545 | the sixteen digits in their order are worth 0 to 15, in lower and in upper case |
| ChunkedMachine.SizeNeverWraps | pthreads/laboratory_work_#29/lib/picohttpparser/picohttpparser.c:559-571 | while digits are read the size is below 16 to their number, so with at most 16 digits it never wraps a 64-bit word |
| ChunkedMachine.RunKeeps | pthreads/laboratory_work_#29/lib/picohttpparser/picohttpparser.c:547-660 | the bounds on the decoder's fields hold after any number of bytes |
| ChunkedMachine.RunBounds | pthreads/laboratory_work_#29/lib/picohttpparser/picohttpparser.c:547-660 | output never runs ahead of input, and -2 means that all input was used up |
| ChunkedMachine.SplittingDoesNotMatter | pthreads/laboratory_work_#29/lib/picohttpparser/picohttpparser.c:547-660 | decoding a, and after -2 then b, gives the output, final decoder, verdict and length of decoding a+b |
| ChunkedMachine.AnyCutIsOneCall | pthreads/laboratory_work_#29/lib/picohttpparser/picohttpparser.c:547-660 | the same for any cut of an input into any number of calls |
| ChunkedMachine.RunAllData | pthreads/laboratory_work_#29/lib/picohttpparser/picohttpparser.c:595-611 | the bulk copy of the rest of a chunk is what the byte machine does one byte at a time |
| ChunkedMachine.RunPartOfData | pthreads/laboratory_work_#29/lib/picohttpparser/picohttpparser.c:595-604 | the bulk copy of part of a chunk is what the byte machine does one byte at a time |
| ChunkedDecoder.PhrChunkedDecoder.Decode | pthreads/laboratory_work_#29/lib/picohttpparser/picohttpparser.c:547-660 | the in-place decoder leaves the machine's output and then the undecoded bytes at the front of the buffer, the machine's state in its fields and the C return value of the machine's verdict |
| ChunkedDecoder.PhrChunkedDecoder.Scan | pthreads/laboratory_work_#29/lib/picohttpparser/picohttpparser.c:552-651 | the outer loop ends, each pass using up a byte, with output and position those of the machine |
| ChunkedDecoder.PhrChunkedDecoder.InChunkData | pthreads/laboratory_work_#29/lib/picohttpparser/picohttpparser.c:595-611 | the memmove of chunk data within the buffer yields the machine's output, with dst never past src |
| ChunkedDecoder.PhrChunkedDecoder.InChunkSize | pthreads/laboratory_work_#29/lib/picohttpparser/picohttpparser.c:554-574 | the size digits are read as the machine reads them, with -1 for no digit or more than 16 |
| ChunkedDecoder.PhrChunkedDecoder.InChunkCrlf | pthreads/laboratory_work_#29/lib/picohttpparser/picohttpparser.c:613-626 | the line end after chunk data is read as the machine reads it |
| ChunkedDecoder.MoveDown | pthreads/laboratory_work_#29/lib/picohttpparser/picohttpparser.c:598-606 | memmove towards the front of one buffer copies the bytes as they were before, also where source and target overlap |
| ChunkedCoding.DecodingUndoesEncoding | pthreads/laboratory_work_#29/lib/picohttpparser/picohttpparser.c:576-657 | for any body, chunking, spelling of the sizes by digits in either case, rest of size lines, carriage returns at line ends, trailer and following bytes, decoding an encoding (section 4.1 of RFC 7230 and what the decoder allows beyond it) yields the body and stops after the zero-chunk line, or after the trailer's empty line with consume_trailer |
| ChunkedCoding.ToHexSpells | pthreads/laboratory_work_#29/lib/picohttpparser/picohttpparser.c:559-571 | every 64-bit size has a spelling of at most 16 digits that is read back as that size |
| ChunkedCoding.PlainIsValid | pthreads/laboratory_work_#29/lib/picohttpparser/picohttpparser.c:576-657 | every cut of a body into non-empty chunks has an encoding that the round trip covers |
| ChunkedLanguage.CompleteExactlyWhen | pthreads/laboratory_work_#29/lib/picohttpparser/picohttpparser.c:547-660 | the decoder is done if and only if the input begins with the encoding of some message, with that message's body and length |
| ChunkedLanguage.FailedExactlyWhen | pthreads/laboratory_work_#29/lib/picohttpparser/picohttpparser.c:547-660 | the decoder says -1 if and only if no bytes after the input could make it begin with the encoding of a message |
| ChunkedLanguage.IncompleteExactlyWhen | pthreads/laboratory_work_#29/lib/picohttpparser/picohttpparser.c:547-660 | the decoder says -2 if and only if the input does not begin with the encoding of a message and some bytes after it make it do so |
| HeaderParser.GetTokenToEol | pthreads/laboratory_work_#29/lib/picohttpparser/picohttpparser.c:138-204 | the scan that looks at eight bytes per turn returns what the plain byte-by-byte scan returns |
| HeaderParser.IsComplete | pthreads/laboratory_work_#29/lib/picohttpparser/picohttpparser.c:206-232 | the loop finds the end of the first two line ends in a row from last_len - 3 on |
| HeaderParser.ParseHeader | pthreads/laboratory_work_#29/lib/picohttpparser/picohttpparser.c:290-349 | one header line is read as the header grammar says, a line that starts with a blank as a continuation |
| HeaderParser.ParseHeaders | pthreads/laboratory_work_#29/lib/picohttpparser/picohttpparser.c:272-352 | result code, number and slices of the headers are those of the plain parse |
| HeaderParser.PhrParseHeaders | pthreads/laboratory_work_#29/lib/picohttpparser/picohttpparser.c:503-524 | the completeness check gates the parse when last_len is not 0, and the result is that of the plain definition |
| HeaderResume.HeadersMore | pthreads/laboratory_work_#29/lib/picohttpparser/picohttpparser.c:272-352 | a success or -1 never changes when bytes are appended |
| HeaderResume.StrictPrefixIsPartial | pthreads/laboratory_work_#29/lib/picohttpparser/picohttpparser.c:272-352 | every strict prefix of a complete block gives -2 |
| HeaderResume.SearchFromInside | pthreads/laboratory_work_#29/lib/picohttpparser/picohttpparser.c:206-232 | started before the last two bytes of the block, the completeness check neither misses nor mistakes its end |
| HeaderResume.SearchInPartial | pthreads/laboratory_work_#29/lib/picohttpparser/picohttpparser.c:206-232 | on an incomplete block the completeness check gives -2 wherever it starts |
| HeaderResume.ResumedAgrees | pthreads/laboratory_work_#29/lib/picohttpparser/picohttpparser.c:503-524 | if the first last_len bytes held no complete block and the block has a header, the resumed call succeeds exactly when the fresh one does, with the same headers and length; on an incomplete block it says incomplete, and on a malformed one malformed exactly when a blank line, or a stray CR, ends the search from last_len - 3 on |
| HeaderResume.ResumedOnEmptyBlock | pthreads/laboratory_work_#29/lib/picohttpparser/picohttpparser.c:503-524 | on a block that starts with its empty line, exactly when the resumed call differs from a fresh one |
| HeaderResume.ResumedCanDiffer | pthreads/laboratory_work_#29/lib/picohttpparser/picohttpparser.c:206-232 | CR then LF: the fresh call accepts the empty block, the call resumed after CR says incomplete |
| HeaderResume.AnyArrivalAgrees | pthreads/laboratory_work_#29/lib/picohttpparser/picohttpparser.c:503-524 | however a block with a header arrives in pieces, the last call says what one fresh call on all of it says, or, if that is malformed, incomplete exactly while the search from last_len - 3 on finds no end |
| HeaderResume.AnyArrivalOfEmptyBlock | pthreads/laboratory_work_#29/lib/picohttpparser/picohttpparser.c:503-524 | however a block that starts with its empty line arrives in pieces, the last call says what one fresh call says if and only if that line is incomplete or malformed, or the search from last_len - 3 on finds a blank line |
| HeaderPrint.ParsingUndoesPrinting | pthreads/laboratory_work_#29/lib/picohttpparser/picohttpparser.c:272-352 | printing headers as name: value lines (section 3.2 of RFC 7230) with any blanks around values, either line end, continuation lines and any bytes after them, and parsing, returns the names, values and length |
| HeaderPrint.ClassesAre | pthreads/laboratory_work_#29/lib/picohttpparser/picohttpparser.c:86-94 | name bytes are visible ASCII without the seventeen separators, blanks are space and tab, and value bytes are tab, printable ASCII and bytes beyond ASCII |
| HeaderLanguage.FoundExactlyWhen | pthreads/laboratory_work_#29/lib/picohttpparser/picohttpparser.c:503-524 | a fresh parse succeeds if and only if the input begins with some printed block of at most max headers, with that block's names, values and length |
| HeaderLanguage.BadExactlyWhen | pthreads/laboratory_work_#29/lib/picohttpparser/picohttpparser.c:503-524 | a fresh parse says -1 if and only if no bytes after the input could make it begin with a printed block |
| HeaderLanguage.PartialExactlyWhen | pthreads/laboratory_work_#29/lib/picohttpparser/picohttpparser.c:503-524 | a fresh parse says -2 if and only if the input does not begin with a printed block and some bytes after it make it do so |
| SlabLayout.TwoObjectsPerSlab | os-internals/slab/src/slab.c:36-55 | a slab holds the two objects that the list transitions rely on exactly for the sizes up to 2032, 4097 to 8176 and 8193 to 2097136, also where the order wraps in its int |
| SlabLayout.SetupIsWellShaped | os-internals/slab/src/slab.c:36-54 | for every size with an order that fits an int the objects end before the slab's header and hold a pointer |
| SlabLayout.SlabIsFull | os-internals/slab/src/slab.c:52-54 | a slab holds as many objects as fit in front of its header: one more would not fit |
| SlabLayout.SetupBySize | os-internals/slab/src/slab.c:36-51 | the order for every size below 2^43: 0 below a page, the pages one object needs up to 9, and 10 from there on |
| SlabLayout.LaidOut | os-internals/slab/src/slab.h:8-25 | objects lie in a row from the start of the slab, and the four header words in a row up to its end |
| SlabLayout.ObjectsApart | os-internals/slab/src/slab.h:24-25 | different objects never overlap, and no object overlaps a slab header |
| SlabLayout.WordsApart | os-internals/slab/src/slab.h:13-25 | no two words that the cache uses overlap |
| SlabLayout.SlabStartRecovers | os-internals/slab/src/slab.h:27-28 | from any address inside a slab, clearing the low bits gives the slab |
| SlabState.AllocKeeps | os-internals/slab/src/slab.c:119-159 | the object handed out was not live, it is the only one that becomes live, and each slab stays in the one list its free count selects |
| SlabState.FreeKeeps | os-internals/slab/src/slab.c:162-181 | exactly the released object stops being live, and its slab is in the list its new free count selects |
| SlabState.ShrinkKeeps | os-internals/slab/src/slab.c:184-188 | shrinking drops only slabs without live objects and no live object |
| SlabState.RunIsSafe | os-internals/slab/src/slab.c:119-188 | over any run of alloc, free and shrink the invariant holds, the live objects are those the caller holds, and no object is handed out while it is still held |
| SlabState.EveryCacheIsSafe | os-internals/slab/src/slab.c:36-188 | the same for every run that starts from what cache_setup leaves, so for every reachable cache |
| SlabState.NothingLost | os-internals/slab/src/slab.c:19-33 | in each slab live and free objects add up to slab_objects |
| SlabState.Conservation | os-internals/slab/src/slab.c:119-188 | every slab is in exactly one list once, and live plus free objects are slabs times slab_objects |
| SlabState.ChainLength | os-internals/slab/src/slab.c:127-137 | a chain without repeats is never longer than its slab, and one as long holds every object of it |
| SlabLists.MovedIsLinked | os-internals/slab/src/slab.c:88-116 | unlinking a slab from one doubly linked list and putting it in front of another keeps both well linked and a third untouched |
| SlabLists.TakenIsChained | os-internals/slab/src/slab.c:124-137 | taking an object leaves the words chaining exactly the rest, also when the free pointer goes stale with the last one |
| SlabLists.PutBackIsChained | os-internals/slab/src/slab.c:167-169 | putting an object back makes it the first of the chain, also on a full slab with a stale free pointer |
| SlabLists.CallerMayWrite | os-internals/slab/src/slab.c:119-181 | whatever becomes of the first word of an object that the caller holds, also when it is no word any more, lists and chains are as before |
| SlabLists.WordsElsewhere | os-internals/slab/src/slab.h:24-25 | every other word of the cache lies outside every byte of a live object |
| SlabLists.LiveObjectsApart | os-internals/slab/src/slab.h:24-28 | live objects never overlap each other or any header, and the mask gives the slab of each |
| SlabCache.Cache.constructor | os-internals/slab/src/slab.c:36-60 | for every object size with an order that fits an int, after cache_setup there is one free slab, filled with objects, linked to nothing, with all its objects counted and chained from last to first; from two objects on the cache is in order |
| SlabCache.Cache.InitializeNewFreeSlab | os-internals/slab/src/slab.c:19-33 | header words and chain of a new slab: all objects, each once, and no word of another slab changed |
| SlabCache.Cache.DeleteSlabFromList | os-internals/slab/src/slab.c:88-103 | the neighbours are linked to each other, or the beginning of the list moves on |
| SlabCache.Cache.InsertSlabToList | os-internals/slab/src/slab.c:106-116 | the slab is linked in front of the old beginning, where there is one |
| SlabCache.Cache.CacheAlloc | os-internals/slab/src/slab.c:119-159 | words, list heads and returned address are those of the abstract allocation, from a partly used, a free or a new slab |
| SlabCache.Cache.CacheFree | os-internals/slab/src/slab.c:162-181 | words and list heads are those of the abstract release, with the slab found by the mask |
| SlabCache.Cache.CallerWrite | os-internals/slab/src/slab.c:119-181 | a word that the caller stores anywhere inside an object it holds leaves the cache in order, with the same lists and chains |
| SlabCache.Cache.FreeSlabChain | os-internals/slab/src/slab.c:63-74 | exactly the slabs of the list are given back, the next one read before its predecessor goes |
| SlabCache.Cache.CacheShrink | os-internals/slab/src/slab.c:184-188 | the words that remain are those of the abstract shrink |
| SlabCache.Cache.CacheRelease | os-internals/slab/src/slab.c:77-85 | all slabs of the three lists are given back and no word remains in use |
| ByteStrings.ZeroMeansEqual | pthreads/laboratory_work_#16/src/linked_list.c:121 | strcmp gives 0 exactly for equal strings |
| ByteStrings.StrCmpMeans | pthreads/laboratory_work_#16/src/linked_list.c:121-132 | strcmp is negative exactly when the first string is a proper prefix of the second or has the smaller byte where they first differ, positive exactly when it is the other way round |
| ByteStrings.Transitive | pthreads/laboratory_work_#16/src/linked_list.c:121 | the order of strcmp is transitive |
| ByteStrings.OneAscendingOrder | pthreads/laboratory_work_#16/src/linked_list.c:116-149 | given strings have only one arrangement in which none comes before one to its left in dictionary order |
| ListSort.SwapAfter | pthreads/laboratory_work_#16/src/linked_list.c:76-91 | the children of two nodes at least two places apart change places in the list and nothing else does; with a missing node nothing changes |
| ListSort.SwapAfterNeighbours | pthreads/laboratory_work_#16/src/linked_list.c:93-100 | a node and its successor change places; if the two parents are not neighbours nothing changes |
| ListSort.SelectLeast | pthreads/laboratory_work_#16/src/linked_list.c:119-129 | the inner loop brings the least of the nodes behind out right behind it, relinking the same nodes |
| ListSort.SortBehind | pthreads/laboratory_work_#16/src/linked_list.c:117-130 | the outer loop sorts everything behind the head |
| ListSort.LinkedList.PlaceHead | pthreads/laboratory_work_#16/src/linked_list.c:130-148 | the head is relinked where it belongs, also as the only node or as the greatest |
| ListSort.LinkedList.SortPass | pthreads/laboratory_work_#16/src/linked_list.c:116-149 | one pass leaves the same node objects, null-terminated without a cycle, in dictionary order of their bytes |
| ListSort.LinkedList.PushFront | pthreads/laboratory_work_#16/src/linked_list.c:57-61 | a new node with the text stands in front of the old list |
| ListSort.OneOutcome | pthreads/laboratory_work_#16/src/linked_list.c:116-149 | the order the nodes started in does not matter to the sorted text, so a second pass changes none of it |
| HandOff.StepKeeps | pthreads/laboratory_work_#10/main.c:12-30 | every step of either thread keeps the invariant: who holds which mutex, how far ahead the child is and what is printed |
| HandOff.Safety | pthreads/laboratory_work_#10/main.c:12-49 | on every interleaving threads unlock only what they hold, lines alternate from the child on, and in the loops the child is one or two places ahead |
| HandOff.NoDeadlock | pthreads/laboratory_work_#10/main.c:12-49 | for any positive number of iterations the only state without a next step is the one where both threads have ended |
| HandOff.CompleteRuns | pthreads/laboratory_work_#10/main.c:12-49 | a run that cannot go on has printed child, parent and so on, each line exactly iterations times |
| HandOff.Outcome | pthreads/laboratory_work_#10/main.c:12-30 | at the end both threads have printed one line per iteration and all mutexes are free |
| HandOff.EveryRunEnds | pthreads/laboratory_work_#10/main.c:12-49 | no schedule has more than 30 steps per iteration and 13 more |
| HandOff.NoRoundsNoEnd | pthreads/laboratory_work_#10/main.c:45-47 | without iterations the flag is never set and main waits for ever |
| ReadyQueue.StepKeeps | os-internals/round_robin/src/scheduler.c:14-160 | every call keeps: at most one running thread, quanta 0 for the others, its quanta below the timeslice, idle only if all are blocked |
| ReadyQueue.Refines | os-internals/round_robin/src/scheduler.c:14-160 | every call on the mixed list is the call on a first-in first-out queue of ready threads, one running thread and a bag of blocked ones |
| ReadyQueue.RunRefines | os-internals/round_robin/src/scheduler.c:14-160 | the same for whole runs |
| ReadyQueue.SameThread | os-internals/round_robin/src/scheduler.c:14-160 | a ready thread is never overtaken |
| ReadyQueue.WholeTimeslice | os-internals/round_robin/src/scheduler.c:146-160 | between other calls a thread that has just begun to run keeps the processor for its whole timeslice, and the tick that ends it hands over to the next ready thread and queues it last |
| ReadyQueue.BoundedWaiting | os-internals/round_robin/src/scheduler.c:14-160 | a thread with k ready threads ahead runs within (k + 1) timeslices of ticks, whatever calls come between |
| ReadyQueue.ReadyThreadsRun | os-internals/round_robin/src/scheduler.c:9-160 | the same from every state that any calls lead to from the empty scheduler |
| Scheduler.Scheduler.NewThread | os-internals/round_robin/src/scheduler.c:14-45 | the new thread is the last node, running if no other is, in a consistent doubly linked list |
| Scheduler.Scheduler.FindReady | os-internals/round_robin/src/scheduler.c:47-58 | the loop finds the first ready thread in list order, or none |
| Scheduler.Scheduler.ChooseReadyThread | os-internals/round_robin/src/scheduler.c:47-63 | the first ready thread runs |
| Scheduler.Scheduler.ExitThread | os-internals/round_robin/src/scheduler.c:65-90 | the running thread is unlinked and the first ready one runs |
| Scheduler.Scheduler.PushThreadToTail | os-internals/round_robin/src/scheduler.c:92-113 | the thread becomes the last node and the others keep their order, with next, prev, head and tail consistent |
| Scheduler.Scheduler.BlockThread | os-internals/round_robin/src/scheduler.c:115-125 | the running thread is blocked with no quanta in its place and the first ready one runs |
| Scheduler.Scheduler.FindBlocked | os-internals/round_robin/src/scheduler.c:129-138 | the loop finds the first blocked thread with the id, or none |
| Scheduler.Scheduler.WakeThread | os-internals/round_robin/src/scheduler.c:127-144 | the first blocked thread with the id becomes ready and last, and runs if the processor is idle |
| Scheduler.Scheduler.TimerTick | os-internals/round_robin/src/scheduler.c:146-160 | the running thread uses a quantum, or, its timeslice used up, becomes ready and last and the first ready one runs |
| WaitDie.StepKeeps | os-internals/wait-die/src/wd_lock.c:22-67 | every step of every context keeps the invariant: who holds which mutex, and that whoever sleeps on a lock without owner is about to be notified |
| WaitDie.NoLostWakeUp | os-internals/wait-die/src/wd_lock.c:24-34 | in every reachable state a context asleep on a lock, or holding the inner mutex on its way to sleep, sees an owner, unless it is asleep and another has cleared the owner and notifies with its next step |
| WaitDie.MutexesExclude | os-internals/wait-die/src/wd_lock.c:22-67 | no two contexts are inside the same guard or inner mutex, and a context unlocks only what it has locked |
| WaitDie.OnlyOwnersAwaited | os-internals/wait-die/src/wd_lock.c:22-67 | the guard and inner mutexes never deadlock: when no call can go on, every context is outside or asleep on a lock that has an owner |
| WaitDie.OnlySleepersOverwrite | os-internals/wait-die/src/wd_lock.c:26-41 | in one step an owner is replaced by another context only when that one comes back from its sleep on the lock, which then always replaces it; a context that has not slept finds the lock without owner |
| WaitDie.WaitOrDie | os-internals/wait-die/src/wd_lock.c:24-38 | in every reachable state a context on its way to sleep sees an owner with a later timestamp, one that gives up sees an owner whose timestamp is not later, and one that takes the lock without sleeping sees none; the test decides by these timestamps |
| WaitDie.GivesUp | os-internals/wait-die/src/wd_lock.c:35-38 | a context that gives up holds the guard, and its step frees that and changes nothing else of lock or list |
| WaitDieExclusion.ExcludesExactlyWhen | os-internals/wait-die/src/wd_lock.c:22-67 | with distinct timestamps, no run of callers that keep to given rules ever has two contexts hold a lock if and only if there are not two contexts or no lock, or the rules forbid calls that wait and there is one lock or the rules forbid asking for a second one |
| WaitDieExclusion.NoExclusion | os-internals/wait-die/src/wd_lock.c:22-67 | with distinct timestamps and callers that keep to no rule, exclusion holds in every reachable state exactly with at most one context or no lock |
| WaitDieExclusion.CarefulCallers | os-internals/wait-die/src/wd_lock.c:22-67 | in every run without waiting in which contexts ask for a lock only while they have no other, who has been told that it holds a lock owns it, no lock has two holders, a context whose release has ended owns no lock, and no lock has a successor, so a release ends behind the first |
| WaitDieExclusion.BackFromSleep | os-internals/wait-die/src/wd_lock.c:26-41 | for any two contexts with different timestamps a run with waiting, each asking with an empty list, after which both hold a lock: the owner is not tested again after waking |
| WaitDieExclusion.StaleNext | os-internals/wait-die/src/wd_lock.c:51-66 | from two contexts and two locks on, a run without waiting after which two contexts hold a lock: the release follows `next` of a lock that another has taken meanwhile, and clears that one's other lock |
| WaitDieExclusion.LeftOwned | os-internals/wait-die/src/wd_lock.c:51-66 | for any two contexts, from two locks on, a run without waiting after which the release of one has ended, its list is empty and a lock still has it as owner |
| WaitDieProgress.NeverStrandsExactlyWhen | os-internals/wait-die/src/wd_lock.c:22-67 | with distinct timestamps, no run of callers that keep to given rules comes to rest with a context asleep though every context outside has released its locks, if and only if there are not two contexts or not two locks, or the rules forbid calls that wait or asking for a second lock |
| WaitDieProgress.SleepersAwaitCallers | os-internals/wait-die/src/wd_lock.c:22-67 | when contexts ask for a lock only while they have no other, waiting or not, and no call can go on, every sleeper's lock is owned by a context that is outside and has it in its list |
| WaitDieProgress.LeftAsleep | os-internals/wait-die/src/wd_lock.c:26-66 | for any two contexts with different timestamps, from two locks on, a run after which one sleeps on a lock of the other and both have released all their locks |
| WaitDieReleases.ReleasesFreeExactlyWhen | os-internals/wait-die/src/wd_lock.c:22-67 | in every run of callers that keep to given rules a context that is outside with an empty list, as after a release, owns no lock, if and only if there are not two contexts or not two locks, or the rules forbid asking for a second lock; waiting makes no difference |
| WaitDieReleases.NeverRingsExactlyWhen | os-internals/wait-die/src/wd_lock.c:36-66 | with distinct timestamps, no run of callers that keep to given rules makes a context's list a ring, if and only if the lock excludes: there are not two contexts or no lock, or no call waits and there is one lock or none asks for a second one |
| WaitDieReleases.ReleaseEndsExactlyWhen | os-internals/wait-die/src/wd_lock.c:51-66 | a release that is in progress and that no other context disturbs comes to its end if and only if the list it follows has one |
| WaitDieReleases.ListIsReleased | os-internals/wait-die/src/wd_lock.c:51-66 | an undisturbed release of a list with an end leaves its context outside with an empty list |
| WaitDieReleases.AloneListEnds | os-internals/wait-die/src/wd_lock.c:22-67 | the list of a context that is alone always has an end, and with an empty list it owns no lock |
| WaitDieReleases.TakesTwice | os-internals/wait-die/src/wd_lock.c:26-46 | for any two contexts with different timestamps and one lock a run with waiting after which the lock is its own successor in a list |
| WaitDieReleases.TakesClearedAgain | os-internals/wait-die/src/wd_lock.c:36-66 | from two contexts and two locks on, a run without waiting after which two locks are each other's successors in a list |
| Philosophers.StepKeeps | pthreads/laboratory_work_#9/main.c:48-106 | every step keeps who holds which fork and the food lock, and the count of dishes |
| Philosophers.Safety | pthreads/laboratory_work_#9/main.c:70-80 | philosophers put down only forks they hold, no fork is with two of them, one that eats has the fork of its own number and the next one, and so neighbours never eat at the same time |
| Philosophers.ForksOf | pthreads/laboratory_work_#9/main.c:54-78 | the forks of philosopher p are p and (p + 1) modulo their number, the lower one first |
| Philosophers.NobodySharesADish | pthreads/laboratory_work_#9/main.c:62-96 | whoever holds a dish, up to putting down the forks, has one that was handed out, and no two have the same |
| Philosophers.Climb | pthreads/laboratory_work_#9/main.c:72-75 | from a philosopher waiting with one fork, following holders to ever higher forks reaches one who can go on |
| Philosophers.NoDeadlock | pthreads/laboratory_work_#9/main.c:48-106 | some philosopher can go on until all are done exactly when there are not just one philosopher and a dish |
| Philosophers.DishesServed | pthreads/laboratory_work_#9/main.c:85-96 | the dishes handed out are the numbers below FOOD counting down, each once, and at the end all of them |
| Philosophers.EveryDishEatenOnce | pthreads/laboratory_work_#9/main.c:62-96 | no dish is ever eaten twice, and when all philosophers are done exactly the dishes below FOOD have been eaten |
| Philosophers.EveryRunEnds | pthreads/laboratory_work_#9/main.c:48-106 | no schedule has more steps than eight per unit of food and three per philosopher |

## Left out

- WaitDie.OnlyOwnersAwaited: says that the mutexes inside a lock never deadlock, not that the owner of a
  lock ever releases it: its caller may not, and its release may miss the lock (`LeftOwned`).
- WaitDieReleases.ReleaseEndsExactlyWhen: speaks of a release that no other context disturbs; what others that
  take and release locks meanwhile do to its way is in the runs of `WaitDieExclusion` only.
- Scheduler.Scheduler.WakeThread: a call for an id that no blocked thread has, while other threads exist, is
  excluded, because the code then follows a null pointer.
- Object sizes from 2^43 less a page on whose order overflows its `int` or is negative, as the shift by it is
  then undefined.
- Operations of slab caches with fewer than two objects per slab, whose slabs would skip the list of partly used
  ones; setting one up is modelled.
- `parse_request` and `parse_response`, whose space-skipping loops do not test for the end of the buffer, and
  the SSE4.2 branch of `findchar_fast`.
- The conversion of a header block's length to `int` in `phr_parse_headers`.
- The locks around the sorted list, the delay between passes, and other threads that add to the list.
- Failing allocation, printing, sleeping, timestamps' counter, and the set-up and destruction of mutexes.
- `current_thread`, `l_print` and `l_erase`, which would only add easy members.
- The proxies, the per-node-lock sort, the floating-point sums, paging, planning and the System V IPC,
  terminal, signal and process exercises.
