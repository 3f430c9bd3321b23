# The stateful cores of the TuyaOS Linux adapter, modelled and proved

This project models the parts of the adapter that keep state with hard invariants, in Dafny, and
proves what they promise for every input, every run and every interleaving.

- **Heap allocator** (`Words`, `HeapSpec`, `HeapLayout`, `MemHeap`, `HeapTags`, `HeapAudit`, `HeapRuns`,
  `HeapSystem`, `HeapProgram`): `tuya_mem_heap.c` on little-endian LP64 Linux. Memory is an array of
  8-byte words that holds headers, links and tag bytes in band; `HeapSpec` says what the operations
  do to the sequence of blocks, `HeapLayout` what that sequence looks like in memory, the classes in
  `MemHeap` and `HeapSystem` do the pointer work, and `HeapRuns` and `HeapProgram` prove properties
  of whole runs. Each critical section is one call.
- **Message queue** (`QueueSpec`, `QueuePromises`, `MessageQueue`): `tkl_queue.c` as a transition system
  over any number of threads, with a step for each critical section and for what can happen to a thread in a
  condition wait, and the critical sections as code.
- **Hash map** (`Crc`, `Mixing`, `HashMap`): `tuya_hashmap.c` over the `pprev` lists of `tuya_hlist.h`.
- **Ring buffer, list and list-backed queue** (`RingBuffer`, `ListQueue`).
- **Text and byte codecs of `iwlib.c`** (`Hex`, `Essid`, `Addresses`, `EventStream`).

Places where the code does not do what its documentation, or a reader, would expect; each is proved
with its exact condition:

- The audit of a heap fails after a block of 16 bytes was freed with no free block behind it, because
  the list link overwrites the tag (`HeapTags.LostFreed`, `HeapRuns.AuditedRun`,
  `HeapRuns.SmallRequestAudit`); it never fails when all requests are at least 8 bytes
  (`HeapRuns.LargeRequestsAudit`, `HeapProgram.RunAndAudit`).
- `realloc` to 2^32-1 bytes keeps any block, because `size + 1` wraps (`HeapSystem.ReallocSizeExact`,
  `HeapProgram.Perform`).
- Removing from the hash map without a match deletes the last element of the bucket and reports
  success (`HashMap.Map.RemoveValue`, `HashMap.RemoveHitsOther`).
- A fetch that waits forever can fail (`QueueSpec.ForeverCanFail`): exactly when there are fewer
  messages than awake fetchers (`QueuePromises.ServedExactly`), and so never with a single consumer
  that is not woken spuriously (`QueuePromises.SingleConsumer`). The same holds of posts and free slots
  (`QueuePromises.PostersServedExactly`, `QueuePromises.SingleProducer`).
- A network name that ends in a literal `\xHH` does not survive escaping and unescaping
  (`Essid.RoundTripIff`).
- The alignment fixup of the event stream can take the first value of an event over the end of the
  stream (`EventStream.ValuesInside`), and the payload of a point event is never compared with that end:
  it lies inside its event exactly when the event has room for its fixed part, and inside the stream
  when the event also ends there (`EventStream.PayloadsInside`, `EventStream.PayloadOverTheEnd`,
  `EventStream.PayloadOfShortEvent`).

Run `dafny verify dfyconfig.toml` to check all modules together.

## Model

| member | source | states |
|---|---|---|
| HeapSpec.PickChooses | tuyaos_adapter/include/utilities/src/tuya_mem_heap.c:145-180 | The chunk search fails exactly when no free block fits; its choice fits and is no larger than the first fit. Counting on the list alone the improvements (blocks that fit and are no larger than all that fit before them): with fewer than three it takes the last of all the smallest fitting blocks, else the third improvement |
| HeapSpec.ImproveIsLastSmallest | tuyaos_adapter/include/utilities/src/tuya_mem_heap.c:155-175 | The bounded best-fit scan ends at the choice so described, from any point of the list on, and has made as many moves as there are improvements, at most three |
| HeapSpec.PickMovesTwice | tuyaos_adapter/include/utilities/src/tuya_mem_heap.c:155-175 | Of free blocks of 80, 64 and 48 bytes a block of 40 bytes is taken from the third |
| HeapSpec.PickStopsAtThird | tuyaos_adapter/include/utilities/src/tuya_mem_heap.c:155-175 | Of four improvements in a row the third is taken |
| HeapSpec.AllocKeepsShape | tuyaos_adapter/include/utilities/src/tuya_mem_heap.c:182-209 | Splitting off the tail of a block or taking it whole leaves blocks that tile the region, of legal size, with no two free neighbours; the block handed out exceeds the request by less than 32 bytes |
| HeapSpec.AllocAccounts | tuyaos_adapter/include/utilities/src/tuya_mem_heap.c:293-303 | The free bytes lose exactly the size of the block handed out, and one block more is in use |
| HeapSpec.AllocMembers | tuyaos_adapter/include/utilities/src/tuya_mem_heap.c:182-209 | After an allocation the blocks are the old ones, with the chosen free block replaced by the allocated one and the rest |
| HeapSpec.FreeKeepsShape | tuyaos_adapter/include/utilities/src/tuya_mem_heap.c:378-437 | Freeing with coalescing on either, both or neither side again tiles the region with no two free neighbours |
| HeapSpec.FreeAccounts | tuyaos_adapter/include/utilities/src/tuya_mem_heap.c:369-377 | The free bytes gain exactly the size of the block freed, and one block fewer is in use |
| HeapSpec.FreeFreeList | tuyaos_adapter/include/utilities/src/tuya_mem_heap.c:378-437 | The free list after a free: the melted block stands at its place by address, in place of the neighbours it absorbed |
| HeapSpec.FreeNeighbours | tuyaos_adapter/include/utilities/src/tuya_mem_heap.c:378-430 | Two entries next to a place in the free list touch the freed block exactly when they are its neighbours in memory |
| HeapSpec.FreeMembers | tuyaos_adapter/include/utilities/src/tuya_mem_heap.c:378-437 | After a free the blocks are the melted one and all old blocks outside it |
| HeapSpec.FreeListAscends | tuyaos_adapter/include/utilities/src/tuya_mem_heap.c:378-393 | The free list of tiling blocks is in strictly ascending, non-touching order |
| HeapSpec.AllFreeIsOneBlock | tuyaos_adapter/include/utilities/src/tuya_mem_heap.c:378-437 | A well-formed heap with nothing in use is one free block over the whole region |
| HeapLayout.LayoutSplit | tuyaos_adapter/include/utilities/src/tuya_mem_heap.c:182-197 | The words written by a tail split represent the heap with the block split; other used blocks are not touched |
| HeapLayout.LayoutTake | tuyaos_adapter/include/utilities/src/tuya_mem_heap.c:198-207 | Unlinking a chunk and tagging it represents the heap with the whole block taken; other used blocks are not touched |
| HeapLayout.LayoutFree | tuyaos_adapter/include/utilities/src/tuya_mem_heap.c:378-437 | The words written by a free represent the heap with the block melted into its free neighbours; other used blocks are not touched |
| HeapLayout.PayloadStoresKeepHeap | tuyaos_adapter/include/utilities/src/tuya_mem_heap.c:84-93 | A program that writes only inside payloads, before the tags, leaves the heap as represented |
| HeapLayout.TwoWordFreeBlockHasNoTag | tuyaos_adapter/include/utilities/src/tuya_mem_heap.c:395-405 | A free block of 16 bytes never carries the FREE tag: its link lies over the tag byte |
| HeapLayout.TagBytes | tuyaos_adapter/include/utilities/src/tuya_mem_heap.c:84-93 | The header of a block is its size and the last byte of a used block 0x55; the tags are intact exactly when the last byte of every free block is 0xAA |
| MemHeap.BlockSizeHolds | tuyaos_adapter/include/utilities/src/tuya_mem_heap.c:281-291 | The block size for a request, with its wrap-around at 64 bits: aligned, holds header, request and tag, and is detected as an overflow exactly for the last 16 sizes |
| MemHeap.AlignExact | tuyaos_adapter/include/utilities/src/tuya_mem_heap.c:70-71 | ALIGN_UP and ALIGN_DOWN give the next and the last multiple of 8 |
| MemHeap.AllocResult | tuyaos_adapter/include/utilities/src/tuya_mem_heap.c:145-210 | The block handed out is in the new block list, holds the words asked for with less than 32 bytes to spare, and the free bytes drop by its size |
| MemHeap.FailsExactly | tuyaos_adapter/include/utilities/src/tuya_mem_heap.c:273-312 | An allocation returns NULL exactly when the request is zero or one of the last 16 numbers below 2^64, or no free block holds 8 bytes, the request (at least 4 bytes) and one byte more |
| MemHeap.InitSizeExact | tuyaos_adapter/include/utilities/src/tuya_mem_heap.c:106-109 | The size computed for a region is that of its aligned part exactly when the region reaches its aligned beginning; otherwise it wraps to 2^64-8 |
| MemHeap.Heap.Init | tuyaos_adapter/include/utilities/src/tuya_mem_heap.c:98-131 | Succeeds exactly when the aligned region has 32 bytes; then one tagged free block from ALIGN_UP(base) to ALIGN_DOWN(base+size) and all counters set; otherwise nothing but the descriptor changes |
| MemHeap.Heap.FindChunk | tuyaos_adapter/include/utilities/src/tuya_mem_heap.c:145-180 | The pointer walk over the list in memory finds the entry Pick chooses and the entry before it |
| MemHeap.Heap.ChunkGet | tuyaos_adapter/include/utilities/src/tuya_mem_heap.c:133-211 | On memory words, takes exactly the block that the choice function names, keeps the representation, and writes to no used block |
| MemHeap.Heap.Allocate | tuyaos_adapter/include/utilities/src/tuya_mem_heap.c:273-312 | NULL exactly for zero, overflow or no fit, with nothing changed; else an aligned payload that holds the request before its tag; free, watermark (the least free ever) and the totals follow; payloads and tags of all used blocks are unchanged; of the free tags only that of the block served from changes |
| MemHeap.Heap.FindPlace | tuyaos_adapter/include/utilities/src/tuya_mem_heap.c:378-385 | The address search of a free ends between the right two list entries |
| MemHeap.Heap.Release | tuyaos_adapter/include/utilities/src/tuya_mem_heap.c:378-437 | Linking, melting and tagging in place produce exactly the writes of a free at place k of the list |
| MemHeap.Heap.Deallocate | tuyaos_adapter/include/utilities/src/tuya_mem_heap.c:337-438 | Frees and coalesces on memory words; NULL and already free blocks are ignored; no other used block changes; no free tag changes but that of the melted block, which is given exactly; intact tags stay intact exactly when the freed block is longer than 16 bytes or the next block is free |
| HeapAudit.HeapStatus | tuyaos_adapter/include/utilities/src/tuya_mem_heap.c:440-529 | The audit walk ends at the top and reports valid exactly when every free block carries its tag; then used and free block counts, free room and the largest free room are exact |
| HeapAudit.RoomIsFreeBytes | tuyaos_adapter/include/utilities/src/tuya_mem_heap.c:500-512 | The free room the audit reports is the free bytes less nine for every free block |
| HeapRuns.EveryRunKeepsInv | tuyaos_adapter/include/utilities/src/tuya_mem_heap.c:273-438 | Over every sequence of allocations and valid frees on one heap: blocks tile the region, no free neighbours, free equals the sum of free blocks, live allocations are exactly the used blocks and hold their requests before the tag |
| HeapRuns.LiveAllocationsDisjoint | tuyaos_adapter/include/utilities/src/tuya_mem_heap.c:273-312 | In every reachable state two live allocations share no byte and hold their requests strictly before their tags |
| HeapRuns.FreeAllRestores | tuyaos_adapter/include/utilities/src/tuya_mem_heap.c:337-438 | Freeing all live allocations in any order gives back the single initial block and the initial free count |
| HeapRuns.WatermarkFromCreation | tuyaos_adapter/include/utilities/src/tuya_mem_heap.c:293-303 | The low-water mark is the least free count reached since creation |
| HeapRuns.LargeRequestsKeepTags | tuyaos_adapter/include/utilities/src/tuya_mem_heap.c:369-405 | In runs whose requests are all at least 8 bytes no free block ever loses its tag |
| HeapRuns.SmallRequestSpoilsTags | tuyaos_adapter/include/utilities/src/tuya_mem_heap.c:369-405 | For every request of 1 to 7 bytes, freed again: the first block of the region has lost its tag when the region has at least 48 bytes, and no block has otherwise |
| HeapRuns.AuditedRun | tuyaos_adapter/include/utilities/src/tuya_mem_heap.c:440-529 | Creates a heap in memory, executes any run on it and audits it: the audit passes exactly when the set of free blocks that have lost their tag, followed exactly through the run, is empty, and then all its numbers are exact |
| HeapRuns.LargeRequestsAudit | tuyaos_adapter/include/utilities/src/tuya_mem_heap.c:440-529 | After every run from creation with requests of at least 8 bytes only, the audit passes with exact used and free block counts, free room and largest free room |
| HeapRuns.SmallRequestAudit | tuyaos_adapter/include/utilities/src/tuya_mem_heap.c:440-529 | Allocating 1 to 7 bytes and freeing them makes the audit fail, in every region of at least 48 bytes and in no smaller one |
| HeapTags.LostAlloc | tuyaos_adapter/include/utilities/src/tuya_mem_heap.c:182-207 | An allocation mends, or takes away with the block, the tag of exactly the block it is served from |
| HeapTags.LostFreed | tuyaos_adapter/include/utilities/src/tuya_mem_heap.c:369-437 | A free leaves exactly the melted block without a tag when its free right neighbour had none, or, with none on the right, when the block freed is 16 bytes long |
| HeapTags.LostNone | tuyaos_adapter/include/utilities/src/tuya_mem_heap.c:440-529 | Every free block carries its tag exactly when none is lost |
| HeapRuns.Execute | tuyaos_adapter/include/utilities/src/tuya_mem_heap.c:273-438 | The allocator on memory words carries out every run of calls and ends in exactly the state the run describes, lost tags included |
| HeapRuns.MallocKeepsInv | tuyaos_adapter/include/utilities/src/tuya_mem_heap.c:273-312 | One allocation keeps the run invariant |
| HeapRuns.FreeKeepsInv | tuyaos_adapter/include/utilities/src/tuya_mem_heap.c:337-438 | One free keeps the run invariant |
| HeapSystem.ReallocSizeExact | tuyaos_adapter/include/utilities/src/tuya_mem_heap.c:634-638 | The 32-bit size computation of realloc agrees with that of malloc exactly for sizes other than 2^32-1, for which it gives 8 |
| HeapSystem.Heaps.Create | tuyaos_adapter/include/utilities/src/tuya_mem_heap.c:213-245 | Uses the first unused descriptor; NULL exactly for a null or empty or too small region or a full table; other heaps, all their used blocks and their tags are unchanged; the total stays the sum over heaps |
| HeapSystem.Heaps.Malloc | tuyaos_adapter/include/utilities/src/tuya_mem_heap.c:583-608 | The heap named if it can serve; without a handle exactly the first that passes the free-size test and has a block that fits; NULL exactly when there is none; used blocks of all heaps unchanged, intact tags stay; the total free size stays the sum over heaps |
| HeapSystem.ServesWhen | tuyaos_adapter/include/utilities/src/tuya_mem_heap.c:590-606 | Without a handle a heap is asked exactly when its free bytes exceed the size plus 24, in 32 bits |
| HeapSystem.FirstServes | tuyaos_adapter/include/utilities/src/tuya_mem_heap.c:590-606 | The first heap that can serve is the one that does |
| HeapSystem.NamedServes | tuyaos_adapter/include/utilities/src/tuya_mem_heap.c:585-588 | A heap that is named serves exactly when it does not fail |
| HeapSystem.Heaps.Free | tuyaos_adapter/include/utilities/src/tuya_mem_heap.c:653-674 | With or without a handle, frees exactly the block pointed to; a pointer into no heap changes nothing; used blocks of all heaps unchanged; intact tags stay intact exactly when the tag of the freed block survives |
| HeapSystem.Heaps.Calloc | tuyaos_adapter/include/utilities/src/tuya_mem_heap.c:610-618 | NULL exactly when malloc gives NULL, and served from the same heap; every requested byte is zero, without touching a tag or another block |
| HeapSystem.Heaps.Realloc | tuyaos_adapter/include/utilities/src/tuya_mem_heap.c:620-651 | For NULL exactly malloc, with all other blocks kept; keeps the block exactly when the size computed for it fits; or moves it with every old payload byte, a USE tag behind the new size and the old block freed; NULL, with nothing changed, exactly when the block is not in use or no heap can serve; all other used blocks untouched |
| HeapProgram.Run | tuyaos_adapter/include/utilities/src/tuya_mem_heap.c:559-674 | Any program of create, malloc, calloc, realloc (of NULL too) and free calls, each with its own handle or without one, keeps all heaps valid and its variables the exact list of the blocks in use; without a realloc to 2^32-1 bytes every variable holds the size last asked for before the tag; with requests of at least 8 bytes only all free tags stay intact; when all variables are NULL every heap is one free block again; free marks are the least values ever reached |
| HeapProgram.Perform | tuyaos_adapter/include/utilities/src/tuya_mem_heap.c:559-674 | One call, with a handle of its own or without, keeps the heaps valid, the variables exact and every word of the other variables blocks; requests stay held exactly unless realloc to 2^32-1 bytes keeps a block shorter than that |
| HeapSystem.Heaps.LiesIn | tuyaos_adapter/include/utilities/src/tuya_mem_heap.c:661-672 | The payload of a block in use lies in the region of its heap and in that of no other heap |
| HeapProgram.KeptRoom | tuyaos_adapter/include/utilities/src/tuya_mem_heap.c:634-641 | A block that realloc keeps holds the new size exactly unless that is 2^32-1 and the block is shorter |
| HeapProgram.RunAndAudit | tuyaos_adapter/include/utilities/src/tuya_mem_heap.c:440-674 | From the empty table of heaps, any program and then the audit of any heap: it passes exactly when the tags are intact, always when all requests are at least 8 bytes, and then its numbers are exact |
| QueueSpec.StepKeepsInv | tuyaos_adapter/src/tkl_queue.c:112-317 | Every step in every interleaving, with timeouts, spurious wakes and stolen elements, keeps the ring, the waiter counters and the absence of lost wakeups |
| QueueSpec.StepOnContents | tuyaos_adapter/src/tkl_queue.c:112-317 | A successful post appends its own message, a successful fetch removes the oldest, no other step changes the contents |
| QueueSpec.RunKeepsInv | tuyaos_adapter/src/tkl_queue.c:112-317 | The invariant holds in every state of every run |
| QueueSpec.FifoOverRuns | tuyaos_adapter/src/tkl_queue.c:112-317 | In every run: 0 <= nelts <= bounds, in = (out + nelts) mod bounds, and the successful posts in order are the fetched messages in order followed by the contents |
| QueueSpec.SentIsReceived | tuyaos_adapter/src/tkl_queue.c:112-317 | Told by the calls and their results alone: in every run of a new queue the messages of successful posts in order are those of successful fetches in order followed by the contents |
| QueueSpec.Quiescent | tuyaos_adapter/src/tkl_queue.c:165-209 | With nobody on the way out of a wait, fetchers sleep only on an empty queue and posters only on a full one |
| QueueSpec.PushAppends | tuyaos_adapter/src/tkl_queue.c:133-138 | The ring write appends to the contents |
| QueueSpec.PopTakesOldest | tuyaos_adapter/src/tkl_queue.c:236-241 | The ring read takes the oldest message |
| QueueSpec.PushKeeps | tuyaos_adapter/src/tkl_queue.c:189-209 | A push with its signal keeps all sleepers covered |
| QueueSpec.PopKeeps | tuyaos_adapter/src/tkl_queue.c:293-313 | A pop with its signal keeps all sleepers covered |
| QueueSpec.ResumeKeeps | tuyaos_adapter/src/tkl_queue.c:165-209 | A waiter that returns, whether signalled, timed out or woken for nothing, keeps the invariant |
| QueueSpec.ForeverCanFail | tuyaos_adapter/src/tkl_queue.c:269-291 | A run in which a fetch that waits forever fails, because another fetch took the message |
| QueuePromises.StepMoves | tuyaos_adapter/src/tkl_queue.c:112-317 | What every step does to the number of messages and to the sets of awake fetchers and posters, and that a waiter which returns in time fails exactly on an empty (or full) queue |
| QueuePromises.StepServesFetchers | tuyaos_adapter/src/tkl_queue.c:252-317 | While there is a message for every awake fetcher, a fetch that returns from its wait without timing out gets one; exactly the steps that take no message an awake fetcher counts on keep it so |
| QueuePromises.StepServesPosters | tuyaos_adapter/src/tkl_queue.c:149-213 | The same for posters and free slots |
| QueuePromises.FairRunServesFetchers | tuyaos_adapter/src/tkl_queue.c:252-317 | In every run of such steps no fetch that did not time out fails |
| QueuePromises.FairRunServesPosters | tuyaos_adapter/src/tkl_queue.c:149-213 | In every run of such steps no post that did not time out fails |
| QueuePromises.SingleConsumer | tuyaos_adapter/src/tkl_queue.c:252-317 | If only one thread fetches and it is never woken for nothing, none of its fetches that wait forever fails, in any run |
| QueuePromises.SingleProducer | tuyaos_adapter/src/tkl_queue.c:149-213 | If only one thread posts and it is never woken for nothing, none of its posts that wait forever fails, in any run |
| QueuePromises.ConsumerCall | tuyaos_adapter/src/tkl_queue.c:403-429 | The same told by calls: a fetch of the single consumer with timeout 0xFFFFFFFF that has to wait comes back with a message |
| QueuePromises.ProducerCall | tuyaos_adapter/src/tkl_queue.c:365-392 | A post of the single producer with timeout 0xFFFFFFFF that has to wait comes back having posted its own message |
| QueuePromises.ServedExactly | tuyaos_adapter/src/tkl_queue.c:269-291 | A waiting fetch can come back with nothing, before any new fetch or spurious wake of a fetcher and whatever else happens in between, exactly when there are fewer messages than awake fetchers |
| QueuePromises.PostersServedExactly | tuyaos_adapter/src/tkl_queue.c:165-187 | A waiting post can fail, before any new post or spurious wake of a poster and whatever else happens in between, exactly when there are fewer free slots than awake posters |
| MessageQueue.RpaQueue.constructor | tuyaos_adapter/src/tkl_queue.c:60-110 | A new queue is empty and satisfies the invariant |
| MessageQueue.RpaQueue.EnterPush | tuyaos_adapter/src/tkl_queue.c:149-213 | The critical section of a push up to the unlock or the wait is the post step of the protocol |
| MessageQueue.RpaQueue.ResumePush | tuyaos_adapter/src/tkl_queue.c:165-213 | The critical section of a push after its wait is the resume step: it posts its message exactly when the wait returned 0 and there is a slot |
| MessageQueue.RpaQueue.EnterPop | tuyaos_adapter/src/tkl_queue.c:252-317 | The critical section of a pop up to the unlock or the wait is the fetch step |
| MessageQueue.RpaQueue.ResumePop | tuyaos_adapter/src/tkl_queue.c:269-317 | The critical section of a pop after its wait is the resume step: it takes the oldest message exactly when the wait returned 0 and there is one |
| MessageQueue.RpaQueue.EnterPost | tuyaos_adapter/src/tkl_queue.c:365-392 | A post copies msgsize bytes and appends them when there is a slot; on a full queue it fails for timeout 0 and waits for every other, without limit exactly for 0xFFFFFFFF |
| MessageQueue.RpaQueue.EnterFetch | tuyaos_adapter/src/tkl_queue.c:403-429 | A fetch takes the oldest message when there is one; on an empty queue it fails for timeout 0 and waits for every other, without limit exactly for 0xFFFFFFFF |
| Crc.TableIsShift8 | tuyaos_adapter/include/utilities/src/tuya_hashmap.c:69-122 | Every one of the 256 table entries is its index shifted eight times with feedback 0xEDB88320 |
| Crc.Shift8Xor | tuyaos_adapter/include/utilities/src/tuya_hashmap.c:125-136 | Shifting with feedback is linear over exclusive or |
| Crc.ByteStep | tuyaos_adapter/include/utilities/src/tuya_hashmap.c:125-136 | One table step is eight bit steps on the register with the byte mixed in |
| Crc.Crc32 | tuyaos_adapter/include/utilities/src/tuya_hashmap.c:125-136 | For every byte string the table-driven checksum is the bit-by-bit reflected division, from zero and without final complement |
| HashMap.HashInt | tuyaos_adapter/include/utilities/src/tuya_hashmap.c:142-160 | The bucket index is the mixed bitwise checksum modulo the table size |
| Mixing.MixSteps | tuyaos_adapter/include/utilities/src/tuya_hashmap.c:146-157 | The mix is four multiplications modulo 2^32 (by 4097, 17, 1025, 129) in turn with four exclusive ors in which bit i becomes bit i xor bit i + 22, 9, 2 and 12, and then an eighth of that times 2654435761 |
| Mixing.Add12IsTimes | tuyaos_adapter/include/utilities/src/tuya_hashmap.c:147-147 | Adding a number shifted by 12 multiplies by 4097 |
| Mixing.Add4IsTimes | tuyaos_adapter/include/utilities/src/tuya_hashmap.c:149-149 | Adding a number shifted by 4 multiplies by 17 |
| Mixing.Add10IsTimes | tuyaos_adapter/include/utilities/src/tuya_hashmap.c:151-151 | Adding a number shifted by 10 multiplies by 1025 |
| Mixing.Add7IsTimes | tuyaos_adapter/include/utilities/src/tuya_hashmap.c:153-153 | Adding a number shifted by 7 multiplies by 129 |
| Mixing.KnuthIs | tuyaos_adapter/include/utilities/src/tuya_hashmap.c:157-157 | The last step is an eighth times 2654435761 |
| HashMap.KeyHashes | tuyaos_adapter/include/utilities/src/tuya_hashmap.c:142-160 | The hashes of the keys "", "id" and "name", in numbers |
| HashMap.RemovalOutcome | tuyaos_adapter/include/utilities/src/tuya_hashmap.c:323-354 | On one chain: with a value to remove, the newest such value is gone and every other key keeps its list; without one, the key of the last element loses its oldest value |
| HashMap.RemovalIsRight | tuyaos_adapter/include/utilities/src/tuya_hashmap.c:335-349 | The element deleted matches exactly when some element of the chain matches |
| HashMap.RemovalOnValues | tuyaos_adapter/include/utilities/src/tuya_hashmap.c:335-349 | With a match, the key loses its first matching value and other keys lose none |
| HashMap.ValuesFrom | tuyaos_adapter/include/utilities/src/tuya_hashmap.c:162-193 | Going to the next element with the key skips no value |
| HashMap.Map.New | tuyaos_adapter/include/utilities/src/tuya_hashmap.c:201-228 | NULL exactly for a table size of zero; else a new, empty map with buckets of its own |
| HashMap.Map.AddHead | tuyaos_adapter/include/utilities/include/tuya_hlist.h:189-197 | A chain with a new head is again linked both ways, and no other bucket changes |
| HashMap.Map.Del | tuyaos_adapter/include/utilities/include/tuya_hlist.h:146-153 | A chain without the element is again linked both ways, and no other bucket changes |
| HashMap.Map.Put | tuyaos_adapter/include/utilities/src/tuya_hashmap.c:240-257 | The new value comes first for its key, no other key changes, size grows by one, all chains stay linked and in their buckets |
| HashMap.Map.Find | tuyaos_adapter/include/utilities/src/tuya_hashmap.c:175-193 | The first element of the chain with the key, or none |
| HashMap.Map.FindNext | tuyaos_adapter/include/utilities/src/tuya_hashmap.c:162-173 | The next element of the chain with the same key, or none |
| HashMap.Map.Get | tuyaos_adapter/include/utilities/src/tuya_hashmap.c:268-279 | The newest value of the key, or MAP_MISSING when it has none |
| HashMap.Map.ForEach | tuyaos_adapter/include/utilities/src/tuya_hashmap.c:291-310 | The traversal yields every value of the key once, newest first |
| HashMap.Map.Remove | tuyaos_adapter/include/utilities/src/tuya_hashmap.c:323-354 | Deletes exactly the element the scan stops at: the first match or else the last of the bucket |
| HashMap.Map.RemoveValue | tuyaos_adapter/include/utilities/src/tuya_hashmap.c:323-354 | With a value to remove, exactly the newest such value goes and all else stays; without one, MAP_MISSING and no change, or MAP_OK and one other value is lost |
| HashMap.Map.Length | tuyaos_adapter/include/utilities/src/tuya_hashmap.c:380-387 | The number of all elements |
| HashMap.RemoveHitsOther | tuyaos_adapter/include/utilities/src/tuya_hashmap.c:323-354 | A concrete map in which removing a key that was never put deletes another and reports success |
| RingBuffer.Ring.Create | tuyaos_adapter/include/utilities/src/tuya_ringbuf.c:36-59 | Refuses the overwriting type and length zero; else an empty ring with a buffer of its own |
| RingBuffer.Ring.Reset | tuyaos_adapter/include/utilities/src/tuya_ringbuf.c:74-84 | Empties the ring |
| RingBuffer.Ring.FreeSize | tuyaos_adapter/include/utilities/src/tuya_ringbuf.c:86-108 | Free plus used is the length less one |
| RingBuffer.Ring.UsedSize | tuyaos_adapter/include/utilities/src/tuya_ringbuf.c:110-130 | The number of unread bytes |
| RingBuffer.Ring.Write | tuyaos_adapter/include/utilities/src/tuya_ringbuf.c:132-167 | Appends the longest prefix that fits, wrapping or not; accepted bytes stay removed bytes followed by contents |
| RingBuffer.Ring.Read | tuyaos_adapter/include/utilities/src/tuya_ringbuf.c:169-204 | Removes and returns the oldest bytes, as many as asked for or there are |
| RingBuffer.Ring.Discard | tuyaos_adapter/include/utilities/src/tuya_ringbuf.c:206-238 | Removes the same bytes as a read without copying |
| RingBuffer.Ring.Peek | tuyaos_adapter/include/utilities/src/tuya_ringbuf.c:240-269 | Shows what a read would return |
| RingBuffer.StoreWrapped | tuyaos_adapter/include/utilities/src/tuya_ringbuf.c:144-166 | Bytes stored up to the end and on from the start extend the ring contents in order |
| RingBuffer.TakeSpan | tuyaos_adapter/include/utilities/src/tuya_ringbuf.c:181-203 | The straight and the wrapped part together are the oldest bytes, and the moved out-position leaves the others |
| ListQueue.LinkBetween | tuyaos_adapter/include/utilities/src/tuya_list.c:21-28 | A node linked between two chains joins them with next and prev inverse |
| ListQueue.Unlink | tuyaos_adapter/include/utilities/src/tuya_list.c:37-41 | The two chains around what is removed are joined with next and prev inverse |
| ListQueue.Empty | tuyaos_adapter/include/utilities/src/tuya_list.c:49-52 | Tells exactly whether the ring has items |
| ListQueue.Add | tuyaos_adapter/include/utilities/src/tuya_list.c:61-64 | Prepends, keeping the ring |
| ListQueue.AddTail | tuyaos_adapter/include/utilities/src/tuya_list.c:73-76 | Appends, keeping the ring |
| ListQueue.Splice | tuyaos_adapter/include/utilities/src/tuya_list.c:85-100 | Puts one list in front of another, keeping the ring; the emptied head is not touched |
| ListQueue.Del | tuyaos_adapter/include/utilities/src/tuya_list.c:107-110 | Removes the item from its place, keeping the ring; the removed node is not touched |
| ListQueue.SpliceEnds | tuyaos_adapter/include/utilities/src/tuya_list.c:85-100 | At the two seams of a splice no node occurs on both sides |
| ListQueue.Queue.Create | tuyaos_adapter/include/utilities/src/tuya_queue.c:101-128 | Refuses a length or item size of zero; else a new, empty queue with all slots free |
| ListQueue.Queue.Enqueue | tuyaos_adapter/include/utilities/src/tuya_queue.c:54-89 | Fails exactly when full; else the copy of the item is last or first according to policy; free slots plus length stay the capacity |
| ListQueue.Queue.Output | tuyaos_adapter/include/utilities/src/tuya_queue.c:165-190 | Fails exactly when empty; else removes and returns the first item |
| ListQueue.Queue.Peek | tuyaos_adapter/include/utilities/src/tuya_queue.c:200-219 | Fails exactly when empty; else returns the first item |
| ListQueue.Queue.Clear | tuyaos_adapter/include/utilities/src/tuya_queue.c:258-279 | Empties the queue and frees all slots |
| ListQueue.Queue.GetBatch | tuyaos_adapter/include/utilities/src/tuya_queue.c:291-325 | For a positive count, succeeds exactly when start + num is at most the length; the items found are copied at offsets computed in 32 bits, and when none wraps the buffer holds exactly the slice |
| ListQueue.WrittenIsFlat | tuyaos_adapter/include/utilities/src/tuya_queue.c:311-315 | While the last offset is below 2^32 the copied items stand one behind the other |
| ListQueue.Queue.DeleteBatch | tuyaos_adapter/include/utilities/src/tuya_queue.c:335-349 | Removes the first min(num, length) items; for a positive count, succeeds exactly when there were that many |
| ListQueue.Queue.Counters | tuyaos_adapter/include/utilities/src/tuya_queue.c:358-408 | Used is the length, free plus used is the capacity |
| Essid.RoundTrip | tuyaos_adapter/src/tkl_wifi/iwlib/iwlib.c:928-1028 | What unescaping an escaped name gives back, for every name |
| Essid.RoundTripIff | tuyaos_adapter/src/tkl_wifi/iwlib/iwlib.c:928-1028 | It is the name, and has its length, exactly when the name does not end in a literal escape sequence |
| Essid.EscapeClean | tuyaos_adapter/src/tkl_wifi/iwlib/iwlib.c:928-972 | The escaped text is printable ASCII without NUL, at least as long as the name and at most four times |
| Essid.EscapeUnits | tuyaos_adapter/src/tkl_wifi/iwlib/iwlib.c:936-967 | Byte by byte: control characters, bytes outside ASCII and a backslash that begins a literal sequence inside the name become four characters, all others stay |
| Essid.ShownAsIs | tuyaos_adapter/src/tkl_wifi/iwlib/iwlib.c:928-972 | A name is shown unchanged exactly when it is printable ASCII with no literal sequence inside |
| Essid.PlainBackslash | tuyaos_adapter/src/tkl_wifi/iwlib/iwlib.c:943-953 | A backslash left unescaped stands before a literal sequence only when that sequence is the end of the name |
| Essid.EssidEscape | tuyaos_adapter/src/tkl_wifi/iwlib/iwlib.c:928-972 | The buffer holds the escaped text and its NUL |
| Essid.EssidUnescape | tuyaos_adapter/src/tkl_wifi/iwlib/iwlib.c:984-1028 | The buffer holds the unescaped bytes and a NUL, and their number is returned, also when source and destination are the same buffer |
| Essid.PlainBlock | tuyaos_adapter/src/tkl_wifi/iwlib/iwlib.c:992-1000 | A block without a backslash is copied as it is |
| Addresses.InKey | tuyaos_adapter/src/tkl_wifi/iwlib/iwlib.c:1642-1724 | The key and its length for each of the three forms of text; after an error the old key is unchanged |
| Addresses.TextKey | tuyaos_adapter/src/tkl_wifi/iwlib/iwlib.c:1647-1661 | "s:" and any text give the text as the key, cut to 64 bytes; "p:" and any text give no key |
| Addresses.FirstCharacter | tuyaos_adapter/src/tkl_wifi/iwlib/iwlib.c:1663-1690 | Any other text that does not begin with a digit or white space gives no key, and the empty text an empty one |
| Addresses.SegmentIsNumber | tuyaos_adapter/src/tkl_wifi/iwlib/iwlib.c:1663-1705 | The bytes of a segment are the number its digits write, in half as many bytes |
| Addresses.ScanSkips | tuyaos_adapter/src/tkl_wifi/iwlib/iwlib.c:1686-1690 | White space before either digit is skipped; the count of digits found is exact |
| Addresses.BlankInKey | tuyaos_adapter/src/tkl_wifi/iwlib/iwlib.c:1663-1705 | The text "1 2" is read as the three bytes 1, 2, 2 |
| Addresses.Characters | tuyaos_adapter/src/tkl_wifi/iwlib/iwlib.c:1663-1680 | The five separators and the six white-space characters |
| Hex.HexDigits | tuyaos_adapter/src/tkl_wifi/iwlib/iwlib.c:943-953 | Which characters are hexadecimal digits, and what they stand for |
| Addresses.SegmentsRead | tuyaos_adapter/src/tkl_wifi/iwlib/iwlib.c:1663-1705 | On every text of hexadecimal digits and separators the parser reads segment by segment, odd segments with a leading zero, fails exactly at an empty segment, and keeps the first 64 bytes |
| Addresses.PrintKey | tuyaos_adapter/src/tkl_wifi/iwlib/iwlib.c:1574-1621 | The buffer holds the grouped digits, the stars, "on" or "<too big>", and for a size of zero or less a present key shows its first byte; with no room at all nothing is written; the text fits whenever three characters per byte do |
| Addresses.PrintedReads | tuyaos_adapter/src/tkl_wifi/iwlib/iwlib.c:1608-1620 | Every printed key is a clean text that stands for the key |
| Addresses.KeyRoundTrip | tuyaos_adapter/src/tkl_wifi/iwlib/iwlib.c:1574-1724 | Parsing a printed key of 1 to 64 bytes gives it back; a longer one is cut to 64 |
| Addresses.MacNtop | tuyaos_adapter/src/tkl_wifi/iwlib/iwlib.c:2054-2072 | NULL exactly when the buffer is shorter than three characters per byte; else the buffer holds the text, of the first byte at least |
| Addresses.MacAton | tuyaos_adapter/src/tkl_wifi/iwlib/iwlib.c:2117-2173 | The length or the error of the parse, and the buffer: the bytes read so far, also after an error, with the rest untouched |
| Addresses.MacRoundTrip | tuyaos_adapter/src/tkl_wifi/iwlib/iwlib.c:2054-2173 | Parsing a printed address gives it back for every length up to macmax, and E2BIG with the bytes that fit beyond |
| Addresses.MacPrintsBack | tuyaos_adapter/src/tkl_wifi/iwlib/iwlib.c:2054-2173 | Printing an address parsed from text without white space gives the text in capitals |
| EventStream.Stream.Extract | tuyaos_adapter/src/tkl_wifi/iwlib/iwlib.c:2716-2924 | One extraction: its return value, the new cursor and what was handed out: the place of a value, or the payload pointer and number of tokens of a point event |
| EventStream.Stream.Point | tuyaos_adapter/src/tkl_wifi/iwlib/iwlib.c:2807-2885 | The payload of a point event: from behind the fixed part, or 8 bytes on when the two bytes there give a length that fits with alignment bytes; NULL for too many, too few or more tokens than the event carries |
| EventStream.PayloadCases | tuyaos_adapter/src/tkl_wifi/iwlib/iwlib.c:2807-2885 | The payload by the numbers in the event: full, partly filled, overfull, with alignment bytes, without a rest, and shorter than its fixed part |
| EventStream.TokenRows | tuyaos_adapter/src/tkl_wifi/iwlib/iwlib.c:2393-2676 | The token size and the least and largest number of tokens admitted, for each of the 26 point commands |
| EventStream.Advances | tuyaos_adapter/src/tkl_wifi/iwlib/iwlib.c:2717-2924 | Each positive return moves the position on by at least 4: to a later event by more than 4, or to a later value of the same event |
| EventStream.RunBounded | tuyaos_adapter/src/tkl_wifi/iwlib/iwlib.c:3155-3173 | There are at most a quarter as many positive returns as bytes, and the loop ends with 0, -1 or -2 |
| EventStream.RunIsEvents | tuyaos_adapter/src/tkl_wifi/iwlib/iwlib.c:2717-2924 | Call by call, the cursor hands out exactly the values of a nested reading: event by event, as many values one behind the other as the length of the event has room for |
| EventStream.RunOverEvent | tuyaos_adapter/src/tkl_wifi/iwlib/iwlib.c:2884-2920 | The values of one event, at equal distances from the first, up to the end of the event or of the stream |
| EventStream.CommandSizes | tuyaos_adapter/src/tkl_wifi/iwlib/iwlib.c:2393-2693 | For every 16-bit command by number: whether its events have values of 16, 8 or 4 bytes or a payload, with a fixed part of 12 bytes up to version 18 and of 4 from then on |
| EventStream.FixedEvent | tuyaos_adapter/src/tkl_wifi/iwlib/iwlib.c:2884-2920 | An event of k packed values yields exactly these, one behind the other, also behind four bytes of alignment; two values of 4 bytes are read as one with alignment |
| EventStream.OneValue | tuyaos_adapter/src/tkl_wifi/iwlib/iwlib.c:2716-2924 | Events of commands 0x8B01, 0x8B05, 0x8B07, 0x8B15, 0x8B21 and 0x8C01 of packed length, anywhere in any stream, yield one value that is all of the event behind its first 4 bytes |
| EventStream.OnePoint | tuyaos_adapter/src/tkl_wifi/iwlib/iwlib.c:2764-2796 | A network name event yields its payload when its fixed part is in the stream, and ends the run with -2 otherwise |
| EventStream.OtherEvent | tuyaos_adapter/src/tkl_wifi/iwlib/iwlib.c:2772-2779 | An event of no such kind is skipped whole |
| EventStream.NoValue | tuyaos_adapter/src/tkl_wifi/iwlib/iwlib.c:2726-2796 | The returns 0, -1, 2 and -2: when they come, and where they leave the cursor |
| EventStream.ValuesInside | tuyaos_adapter/src/tkl_wifi/iwlib/iwlib.c:2884-2906 | Every value handed out lies inside the stream except exactly the first value of an event whose alignment shift takes it over the end |
| EventStream.ShiftedOverTheEnd | tuyaos_adapter/src/tkl_wifi/iwlib/iwlib.c:2884-2906 | A concrete stream with such an event |
| EventStream.PayloadInside | tuyaos_adapter/src/tkl_wifi/iwlib/iwlib.c:2807-2885 | A payload lies inside its event exactly when the event has room for its fixed part and, with alignment bytes, its token number is not above the one tested; it runs over the end of the stream exactly when the tokens named in the header do |
| EventStream.PayloadsInside | tuyaos_adapter/src/tkl_wifi/iwlib/iwlib.c:2807-2885 | The same for every payload of a run; from version 19 on an event with room for its fixed part that ends in the stream has its payload, and the two bytes looked at, in the stream |
| EventStream.PayloadOverTheEnd | tuyaos_adapter/src/tkl_wifi/iwlib/iwlib.c:2807-2885 | A concrete stream whose payload lies behind its end |
| EventStream.PayloadOfShortEvent | tuyaos_adapter/src/tkl_wifi/iwlib/iwlib.c:2811-2815 | A concrete event shorter than its fixed part, whose rest wraps and whose payload is handed out all the same |
| EventStream.Drain | tuyaos_adapter/src/tkl_wifi/iwlib/iwlib.c:3155-3173 | The loop terminates on every byte stream with the items of that reading, at most one per 4 bytes |

## Left out

- Heap deletion and re-creation, double frees through stale pointers, the debug-leak records, `debug_malloc` and `debug_realloc`, and the diagnostic printing.
- MemHeap.Heap.Init: the region must reach its aligned beginning and lie below 2^47; with a smaller region the size computation wraps (`MemHeap.InitSizeExact`) and the source then writes outside the region, which is not modelled.
- HeapSystem.Heaps.Create: the same, and the region must not overlap that of another heap.
- HeapSystem.Heaps.Realloc: a non-null pointer must be one that points to a block of a heap, since the source reads the header before it.
- HeapProgram.Run: a program names only heaps that exist, creates heaps only on memory no heap has, and frees and reallocates only through its variables; other calls are skipped, and so is a call whose handle is not the heap of its block, which the source does not check.
- Failures of `malloc` inside queue, map, list and ring creation, failures and error codes of pthread calls, and NULL handles or buffers.
- QueueSpec.StepKeepsInv: a signal is assumed to succeed, and a signalled thread to return 0 from its wait; fewer than 2^32 threads wait; `terminated` is never set in the source and is not modelled; deadlines are an arbitrary time-out step.
- Reclaiming the message buffer of a failed post, and `tkl_queue_free`.
- The hash map keeps keys by pointer; the model assumes that callers do not change them. `tuya_hashmap_free` is not modelled.
- The ring buffer is modelled with atomic calls; no claim is made about unlocked concurrent use. The reset starts a new count of accepted and removed bytes.
- `tuya_queue_traverse` and `tuya_queue_release` are left out as easy.
- ListQueue.Queue.Enqueue: a NULL item and an unknown policy are not modelled.
- Addresses.MacPrintsBack: text with white space is excluded, because `sscanf` skips white space that the cursor does not.
- Addresses.SegmentsRead: text with other characters than digits and separators is covered by the step function behind `Addresses.InKey` only.
- EventStream.Stream.Extract: a value is told by where it is copied from, and the flags word of a point event is not modelled; pointers are offsets that do not overflow.
- GPIO, I2C, SPI, UART, PWM, camera, flash, file system, wired, wifi and Bluetooth adapters, audio glue, build scripts, `tuya_tools.c`, `tuya_smartpointer.c`, and the floating-point and printing helpers of `iwlib.c`: thin wrappers, or easy beside the cores above.
