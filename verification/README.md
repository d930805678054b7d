# Verified models of cs-primer programs

Dafny models of nine small C and assembly programs, with proofs of what they do on all inputs,
in all runs and under all interleavings. `dafny verify dfyconfig.toml` checks everything.

* **Hash map** (`HashTable`, `HashInvariant`, `HashRefinement`, `HashGets`, `HashResize`,
  `HashBound`, `HashFit`, `HashProbe`, `HashExample`, `HashMap`). An open-addressing table: slots
  are empty, occupied or deleted, keys of one reduced hash form a chain along a probe sequence, a
  foreign slot on the way triggers a doubling and a rehash that calls set again. `HashTable` has the
  operations as functions on a table with its heap; `HashMap` has them in place on an array, each
  method equal to its function. The hash is an arbitrary function of the key's bytes. `hv + (i + i *
  i) >> 1` is modelled as C parses it: the whole sum is shifted, so probe 1 of hash 2 is slot 2
  again. Set need not return: the functions carry a bound on nested resizes, and `HashResize` says
  exactly when a set returns, `HashFit` and `HashBound` that this can be computed from finitely many
  capacities. Set also reuses a deleted slot without looking for the key behind it, so it is a map
  update exactly when no deleted slot hides the key, and a whole history is that of a finite map
  exactly when no set of it meets a hidden key; `HashExample` has two histories that are not. A key
  stored twice is found in the first slot of its probe sequence, but a resize keeps the value in the
  last slot of the array; `HashGets` says for any table what each operation does to every get.
* **Blocking ring queue** (`QueueProtocol`, `QueueTheorems`, `QueueCalls`, `BlockingQueue`). Any
  number of producers and consumers, one atomic step at a time, over two semaphores and two mutexes.
  Processes may die between any two steps, as the shared-memory version with its robust mutexes
  allows; the threaded version is the part of the runs in which nobody dies. Taking over a dead
  owner's mutex and marking it consistent is one step, since a death in between leaves the same
  state.
* **Fork/join merge sort** (`StableSort`, `ParallelSort`, `ParallelSplit`, `MergeSortInPlace`).
  `ParallelSort` interleaves the atomic array steps of all threads; `MergeSortInPlace` runs each
  thread to its end at once. Items carry a tag beside the key that `<` compares, so that stability
  can be stated; the C code's ints are items without a tag.
* **Bottom-up merge sort** (`BottomUpSort`, `Bits`). Passes between two buffers, and the bit mask
  that tells which buffer holds the result. Items and sortedness are those of `StableSort`; this merge
  takes the right element on ties.
* **Three-thread fizzbuzz** (`Fizzbuzz`, `FizzbuzzTrace`, `FizzbuzzThreads`). Flags and condition variables
  under one mutex, spurious wakeups included.
* **Recursive fib in assembly** (`FibMachine`, `FibCpu`). The instructions on a machine with 64-bit
  registers and a stack, writes to 32-bit registers clearing the upper half.
* **Growing array** (`DynamicArray`) and **pangram scans** (`Pangram`).

`Arith` and `Sets` hold shared facts about quotients and about sizes of sets, `Options` the option type.

## Model

| member | source | states |
|---|---|---|
| HashMap.Hashmap.Set | 02-computer-systems/02-introduction-to-c/06-basic-hashmap/hashmap.c:98-138 | set in place, resizes and nested sets included, leaves exactly the table of the specification `Store`, for every call that returns at all |
| HashMap.Hashmap.Probing | 02-computer-systems/02-introduction-to-c/06-basic-hashmap/hashmap.c:73-85 | the probe loop of set ends where `SetScan` ends: first empty slot, first deleted slot of the class, the key itself, or a foreign slot |
| HashMap.Hashmap.NodeSet | 02-computer-systems/02-introduction-to-c/06-basic-hashmap/hashmap.c:87-96 | an occupied slot's key copy is freed before a fresh one is stored |
| HashMap.Hashmap.Get | 02-computer-systems/02-introduction-to-c/06-basic-hashmap/hashmap.c:159-176 | get in place returns what `Lookup` returns, and changes nothing |
| HashMap.Hashmap.Delete | 02-computer-systems/02-introduction-to-c/06-basic-hashmap/hashmap.c:178-205 | delete in place returns the value get would have returned and leaves exactly the table of `Remove` |
| HashMap.Hashmap.Free | 02-computer-systems/02-introduction-to-c/06-basic-hashmap/hashmap.c:40-47 | free does nothing for NULL and otherwise releases what `FreeAll` releases: each remaining key copy, the slot array, the map |
| HashMap.Hashmap.constructor | 02-computer-systems/02-introduction-to-c/06-basic-hashmap/hashmap.c:31-38 | a new map has eight empty slots, and owns its own block and that of its slot array |
| HashMap.Hashmap.BoundIsCap | 02-computer-systems/02-introduction-to-c/06-basic-hashmap/hashmap.c:49-58 | next_power_of_2(cap) == cap for every capacity a map can have, so the `t >= cap` skip never skips a probe |
| Bits.NextPowerOf2IsLeast | 02-computer-systems/02-introduction-to-c/06-basic-hashmap/hashmap.c:49-58 | for every n from 1 to 2^64 the bit smearing gives the least power of two that is at least n |
| HashProbe.ProbeIsTriangle | 02-computer-systems/02-introduction-to-c/06-basic-hashmap/hashmap.c:110-111 | probe 0 is the reduced hash, probe i half of it plus the i-th triangular number, modulo the capacity |
| HashProbe.TriangleInjective | 02-computer-systems/02-introduction-to-c/06-basic-hashmap/hashmap.c:110-112 | triangular numbers are pairwise different modulo a power of two |
| HashProbe.ProbeCoverage | 02-computer-systems/02-introduction-to-c/06-basic-hashmap/hashmap.c:99-112 | the probe loop inspects every slot when the reduced hash is 0, and every slot but half the reduced hash otherwise; exactly those |
| HashInvariant.StoreSound | 02-computer-systems/02-introduction-to-c/06-basic-hashmap/hashmap.c:98-138 | a returned set keeps every chain whole, the size exact and the heap clean, through all nested resizes: nothing freed twice, nothing lost, other blocks untouched |
| HashInvariant.RehashSound | 02-computer-systems/02-introduction-to-c/06-basic-hashmap/hashmap.c:129-135 | the reinsertion loop hands over each old key copy and frees it exactly once |
| HashInvariant.FreeAllReleasesOwned | 02-computer-systems/02-introduction-to-c/06-basic-hashmap/hashmap.c:40-47 | free releases each remaining key copy, the slot array and the map once, and nothing else |
| HashRefinement.ScanFinds | 02-computer-systems/02-introduction-to-c/06-basic-hashmap/hashmap.c:144-173 | stopping at an empty or foreign slot is sound: a stored key is always found |
| HashRefinement.LookupCorrect | 02-computer-systems/02-introduction-to-c/06-basic-hashmap/hashmap.c:159-176 | get returns the value in the first slot of the key's probe sequence that holds the key, NULL exactly if no slot holds it; without duplicates that is what the contents say |
| HashRefinement.StoreRefines | 02-computer-systems/02-introduction-to-c/06-basic-hashmap/hashmap.c:98-138 | a set is a map update of the contents, in which of several slots with one key the last counts; a resize also removes duplicates and deleted slots |
| HashRefinement.ResizeGets | 02-computer-systems/02-introduction-to-c/06-basic-hashmap/hashmap.c:129-137 | after a resize every get returns what the last slot with its key held before, the new value for the key set |
| HashRefinement.ResizeRevertsIff | 02-computer-systems/02-introduction-to-c/06-basic-hashmap/hashmap.c:129-137 | so a resize leaves what get returns for another key alone if and only if the first and the last slot with that key hold the same value |
| HashRefinement.StoreKeepsUniqueIff | 02-computer-systems/02-introduction-to-c/06-basic-hashmap/hashmap.c:73-85 | set keeps keys unique if and only if no deleted slot precedes the key in its chain, and then it is a map update |
| HashRefinement.HiddenKeyResurfaces | 02-computer-systems/02-introduction-to-c/06-basic-hashmap/hashmap.c:73-85 | otherwise set followed by delete brings the old value back |
| HashGets.StoreEffect | 02-computer-systems/02-introduction-to-c/06-basic-hashmap/hashmap.c:73-120 | on any table, duplicates and deleted slots included, a set that does not resize changes one slot, which becomes the first with its key: the one that was first, or a free one if the key was absent or hidden |
| HashGets.StoreThenGet | 02-computer-systems/02-introduction-to-c/06-basic-hashmap/hashmap.c:98-138 | on any table, resizing or not, get after set returns the value set |
| HashGets.StoreKeepsGets | 02-computer-systems/02-introduction-to-c/06-basic-hashmap/hashmap.c:98-120 | on any table a set that does not resize leaves the get of every other key alone |
| HashGets.RemoveEffect | 02-computer-systems/02-introduction-to-c/06-basic-hashmap/hashmap.c:183-205 | on any table a delete empties the first slot with its key and changes nothing else |
| HashGets.RemoveThenGet | 02-computer-systems/02-introduction-to-c/06-basic-hashmap/hashmap.c:159-205 | get after delete returns NULL if the key was stored once, else what the next slot with the key holds |
| HashGets.RemoveKeepsGets | 02-computer-systems/02-introduction-to-c/06-basic-hashmap/hashmap.c:183-205 | on any table a delete leaves the get of every other key alone |
| HashRefinement.HistoryInvariant | 02-computer-systems/02-introduction-to-c/06-basic-hashmap/hashmap.c:31-205 | over every history of sets and deletes the table is sound and no block leaks |
| HashRefinement.HistorySound | 02-computer-systems/02-introduction-to-c/06-basic-hashmap/hashmap.c:31-205 | over every history, duplicates included: size is the number of occupied slots, live blocks are exactly the owned ones, free leaves nothing |
| HashRefinement.HistoryRefines | 02-computer-systems/02-introduction-to-c/06-basic-hashmap/hashmap.c:31-205 | over every history in which no set meets a hidden key, get, size and contents are those of a finite map |
| HashRefinement.HistoryRefinesIff | 02-computer-systems/02-introduction-to-c/06-basic-hashmap/hashmap.c:31-205 | and over no other: the size is that of the finite map after every operation if and only if no set met a hidden key, and then contents and every get are right |
| HashRefinement.DeleteFreeNeverHides | 02-computer-systems/02-introduction-to-c/06-basic-hashmap/hashmap.c:98-138 | histories without deletes meet no hidden key, whatever the hash function |
| HashExample.DeletedKeyComesBack | 02-computer-systems/02-introduction-to-c/06-basic-hashmap/hashmap.c:73-138 | for any two keys that share slot 0, a five-operation history after which get returns a deleted value |
| HashExample.UpdateIsUndone | 02-computer-systems/02-introduction-to-c/06-basic-hashmap/hashmap.c:122-137 | for such keys, a history in which the last operation, a set of a third key, takes back an update without any delete since |
| HashResize.ResizeReturns | 02-computer-systems/02-introduction-to-c/06-basic-hashmap/hashmap.c:122-137 | from any sound table, deleted slots and duplicates included: if the keys fit after m doublings, a resizing set returns below or at that capacity |
| HashResize.StoreReturnsIff | 02-computer-systems/02-introduction-to-c/06-basic-hashmap/hashmap.c:98-138 | a set returns if and only if its probe loop finds a slot or the keys fit some doubled capacity |
| HashResize.PutsReturnIff | 02-computer-systems/02-introduction-to-c/06-basic-hashmap/hashmap.c:98-138 | a history of sets returns if and only if its keys fit some capacity 8, 16, 32, ...: neither order nor repetition matters |
| HashResize.StoreFuel | 02-computer-systems/02-introduction-to-c/06-basic-hashmap/hashmap.c:122-137 | the bound on nested resizes never changes a result |
| HashResize.ClashNeverReturns | 02-computer-systems/02-introduction-to-c/06-basic-hashmap/hashmap.c:98-138 | two keys with raw hash 2 and one with raw hash 4: the third set never returns |
| HashFit.FitsIff | 02-computer-systems/02-introduction-to-c/06-basic-hashmap/hashmap.c:98-112 | whether keys fit a capacity is computed class by class: each reduced hash takes as many distinct first probes as it has keys, and these sets must be large enough and disjoint |
| HashBound.FitsStable | 02-computer-systems/02-introduction-to-c/06-basic-hashmap/hashmap.c:99-112 | beyond a computed capacity further doubling does not make keys fit that did not fit before |
| HashBound.StoreReturnsIffWithin | 02-computer-systems/02-introduction-to-c/06-basic-hashmap/hashmap.c:98-138 | so a caller can compute beforehand whether a set returns, from finitely many capacities |
| HashBound.NoResizeAbove | 02-computer-systems/02-introduction-to-c/06-basic-hashmap/hashmap.c:98-106 | with distinct raw hashes at most `top`, above capacity `top` a set touches the home slot only |
| HashBound.InjectiveHistoriesReturn | 02-computer-systems/02-introduction-to-c/06-basic-hashmap/hashmap.c:98-138 | with distinct raw hashes at most `top`, every history of sets and deletes returns and the capacity stays at most max(8, 2 * top) |
| BlockingQueue.SharedQueue.constructor | 05-operating-systems/03-threads-concurrency-and-scheduling/04-ring-buffer/ring_buffer_posix.c:19-28 | the initial state of the protocol |
| BlockingQueue.SharedQueue.Exec | 05-operating-systems/04-virtual-memory/02-shared-memory-stream/shm_blocking_queue.c:70-93 | each statement of put and take, in place, is one step of the protocol |
| BlockingQueue.SharedQueue.Put | 05-operating-systems/03-threads-concurrency-and-scheduling/04-ring-buffer/ring_buffer_posix.c:38-46 | an uninterrupted put appends its element |
| BlockingQueue.SharedQueue.Take | 05-operating-systems/03-threads-concurrency-and-scheduling/04-ring-buffer/ring_buffer_posix.c:48-57 | an uninterrupted take removes and returns the front |
| QueueProtocol.StepInv | 05-operating-systems/04-virtual-memory/02-shared-memory-stream/shm_blocking_queue.c:70-93 | every step of every process, and every death, keeps token counts, ring contents, mutex ownership and local reads consistent |
| QueueProtocol.RunInv | 05-operating-systems/04-virtual-memory/02-shared-memory-stream/shm_blocking_queue.c:70-93 | so over every run of any number of processes |
| QueueCalls.StepTouchesOnlyItself | 05-operating-systems/04-virtual-memory/02-shared-memory-stream/shm_blocking_queue.c:70-93 | a step moves one process to its next statement and leaves the others' states alone; only a producer's write changes a slot, the one at tail; a death changes nothing else |
| QueueCalls.WaitsOnly | 05-operating-systems/04-virtual-memory/02-shared-memory-stream/shm_blocking_queue.c:70-93 | a live process waits for a token or for a mutex with a live owner and for nothing else, and may die anywhere |
| QueueCalls.PutsAreArguments | 05-operating-systems/03-threads-concurrency-and-scheduling/04-ring-buffer/ring_buffer_posix.c:38-46 | over every run, what a producer committed is in order what its calls of put were given, less at most the put in progress |
| QueueCalls.TakesAreReturned | 05-operating-systems/03-threads-concurrency-and-scheduling/04-ring-buffer/ring_buffer_posix.c:48-57 | over every run, what a consumer's takes returned is in order what it committed, less at most the take in progress |
| QueueTheorems.StepIsFifo | 05-operating-systems/03-threads-concurrency-and-scheduling/04-ring-buffer/ring_buffer_posix.c:38-57 | a tail advance enqueues, a head advance dequeues the front, all other steps leave the abstract queue alone; full and empty are never confused |
| QueueTheorems.RunIsFifo | 05-operating-systems/04-virtual-memory/02-shared-memory-stream/shm_blocking_queue.c:70-93 | committed takes are a prefix of committed puts, the rest is the queue, its length is at most the capacity, each step is one of a bounded FIFO |
| QueueTheorems.SlotRaceFree | 05-operating-systems/03-threads-concurrency-and-scheduling/04-ring-buffer/ring_buffer_posix.c:39-51 | a producer at its write and a consumer at its read address different slots |
| QueueTheorems.SlotsAreSafe | 05-operating-systems/04-virtual-memory/02-shared-memory-stream/shm_blocking_queue.c:75-88 | no unread slot is overwritten, the slot read is the oldest unread one |
| QueueTheorems.MutualExclusion | 05-operating-systems/04-virtual-memory/02-shared-memory-stream/shm_blocking_queue.c:72-90 | two live processes of one role are never both between lock and unlock, robust takeover included |
| QueueTheorems.TokensConserved | 05-operating-systems/04-virtual-memory/02-shared-memory-stream/shm_blocking_queue.c:71-91 | free tokens, operations in flight and lost tokens add up to the capacity |
| QueueTheorems.LostAtMostDeaths | 05-operating-systems/04-virtual-memory/02-shared-memory-stream/shm_blocking_queue.c:70-93 | a run loses at most one token per death |
| QueueTheorems.ProgressIff | 05-operating-systems/04-virtual-memory/02-shared-memory-stream/shm_blocking_queue.c:70-93 | with a live producer and a live consumer, some process can step if and only if not every token is lost |
| QueueTheorems.ThreadsNeverStick | 05-operating-systems/03-threads-concurrency-and-scheduling/04-ring-buffer/ring_buffer_posix.c:59-70 | without deaths no reachable state is stuck |
| StableSort.MergeIsStable | 05-operating-systems/03-threads-concurrency-and-scheduling/02-multi-threaded-mergesort/mergesort.c:18-36 | merging stable sorts of two halves, left first on ties, is a stable sort of the whole |
| StableSort.StableSortUnique | 05-operating-systems/03-threads-concurrency-and-scheduling/02-multi-threaded-mergesort/mergesort.c:18-36 | there is one stable sort, and it is a permutation |
| MergeSortInPlace.MergeParts | 05-operating-systems/03-threads-concurrency-and-scheduling/02-multi-threaded-mergesort/mergesort.c:18-36 | merge in place leaves the merge of both parts in the slice and touches nothing else |
| MergeSortInPlace.Sort | 05-operating-systems/03-threads-concurrency-and-scheduling/02-multi-threaded-mergesort/mergesort.c:74-90 | sort in place, for every thread count, terminates with the stable sort of its slice, also when the border is 0 |
| ParallelSort.InvFrame | 05-operating-systems/03-threads-concurrency-and-scheduling/02-multi-threaded-mergesort/mergesort.c:74-90 | an activation depends on its own slice only |
| ParallelSort.StepFrame | 05-operating-systems/03-threads-concurrency-and-scheduling/02-multi-threaded-mergesort/mergesort.c:18-36 | a step writes inside its activation's slice only |
| ParallelSort.StepInv | 05-operating-systems/03-threads-concurrency-and-scheduling/02-multi-threaded-mergesort/mergesort.c:18-90 | every atomic step of every thread keeps every activation on its way to sorting its slice |
| ParallelSort.FinishedRunSorts | 05-operating-systems/03-threads-concurrency-and-scheduling/02-multi-threaded-mergesort/mergesort.c:18-90 | every finished run, whatever the interleaving, leaves the stable sort |
| ParallelSort.RunsAgree | 05-operating-systems/03-threads-concurrency-and-scheduling/02-multi-threaded-mergesort/mergesort.c:18-90 | neither interleaving nor thread count shows in the result |
| ParallelSort.CanStep | 05-operating-systems/03-threads-concurrency-and-scheduling/02-multi-threaded-mergesort/mergesort.c:74-90 | an unfinished sort always has an enabled step |
| ParallelSort.RunLength | 05-operating-systems/03-threads-concurrency-and-scheduling/02-multi-threaded-mergesort/mergesort.c:74-90 | every run is finished after exactly the same computable number of steps |
| ParallelSplit.ActiveDisjoint | 05-operating-systems/03-threads-concurrency-and-scheduling/02-multi-threaded-mergesort/mergesort.c:74-89 | activations that can step at the same time own disjoint slices |
| ParallelSplit.StepIsLocal | 05-operating-systems/03-threads-concurrency-and-scheduling/02-multi-threaded-mergesort/mergesort.c:18-36 | every step of any thread writes inside one of these slices only |
| ParallelSplit.StepElsewhere | 05-operating-systems/03-threads-concurrency-and-scheduling/02-multi-threaded-mergesort/mergesort.c:18-36 | a step reads its own slice only: with other contents elsewhere it is the same step |
| ParallelSplit.ForkedStepsCommute | 05-operating-systems/03-threads-concurrency-and-scheduling/02-multi-threaded-mergesort/mergesort.c:80-85 | a step of a forked half and one of the parent's half commute |
| ParallelSplit.JoinWaits | 05-operating-systems/03-threads-concurrency-and-scheduling/02-multi-threaded-mergesort/mergesort.c:87-89 | a merge starts only when both halves are sorted |
| ParallelSplit.FinishedRunForks | 05-operating-systems/03-threads-concurrency-and-scheduling/02-multi-threaded-mergesort/mergesort.c:80-85 | every finished run, whatever the interleaving, has started one thread for each slice of the split but the last, in order: tcnt - 1 threads on two or more items |
| ParallelSplit.BorderIs | 05-operating-systems/03-threads-concurrency-and-scheduling/02-multi-threaded-mergesort/mergesort.c:78 | the cut is after n / tcnt items, for up to two threads after half of them, rounded down |
| ParallelSplit.EvenSplit | 05-operating-systems/03-threads-concurrency-and-scheduling/02-multi-threaded-mergesort/mergesort.c:78-85 | the split has tcnt slices, consecutive, covering the array: n / tcnt items each, the last n mod tcnt slices one more |
| BottomUpSort.RightFirstTies | 03-algorithms-and-data-structures/04-divide-and-conquer-and-sorting/01-merge-sort/merge_sort.c:7-19 | of equal keys merge puts those of the right part first, each part's in their order |
| BottomUpSort.MergeRanges | 03-algorithms-and-data-structures/04-divide-and-conquer-and-sorting/01-merge-sort/merge_sort.c:7-19 | merge writes the merge of the two source ranges and leaves the rest of dst alone |
| BottomUpSort.PassInto | 03-algorithms-and-data-structures/04-divide-and-conquer-and-sorting/01-merge-sort/merge_sort.c:27-30 | the inner loop is one pass over all neighbouring blocks |
| BottomUpSort.PassBlocks | 03-algorithms-and-data-structures/04-divide-and-conquer-and-sorting/01-merge-sort/merge_sort.c:26-32 | a pass on sorted blocks of size h leaves sorted blocks of size 2h, for every length |
| BottomUpSort.PassItems | 03-algorithms-and-data-structures/04-divide-and-conquer-and-sorting/01-merge-sort/merge_sort.c:26-32 | a pass is a permutation |
| BottomUpSort.ParityMask | 03-algorithms-and-data-structures/04-divide-and-conquer-and-sorting/01-merge-sort/merge_sort.c:34 | the mask 0x5555555555555555 selects 2^k exactly for even k |
| BottomUpSort.Passes | 03-algorithms-and-data-structures/04-divide-and-conquer-and-sorting/01-merge-sort/merge_sort.c:25-32 | the data ends in the caller's array exactly if the number of passes is even |
| BottomUpSort.Sort | 03-algorithms-and-data-structures/04-divide-and-conquer-and-sorting/01-merge-sort/merge_sort.c:21-39 | for every length the caller's array ends sorted and a permutation, and the buffer freed is the one allocated |
| FizzbuzzThreads.Globals.StepMain | 05-operating-systems/03-threads-concurrency-and-scheduling/03-multi-threaded-fizzbuzz/fizzbuzz.c:50-61 | main's statements in place are its steps of the protocol |
| FizzbuzzThreads.Globals.StepFizz | 05-operating-systems/03-threads-concurrency-and-scheduling/03-multi-threaded-fizzbuzz/fizzbuzz.c:16-28 | fizz's statements in place |
| FizzbuzzThreads.Globals.StepBuzz | 05-operating-systems/03-threads-concurrency-and-scheduling/03-multi-threaded-fizzbuzz/fizzbuzz.c:30-42 | buzz's statements in place |
| FizzbuzzThreads.Globals.PrintFizz | 05-operating-systems/03-threads-concurrency-and-scheduling/03-multi-threaded-fizzbuzz/fizzbuzz.c:22-23 | fizz is printed if and only if 3 divides n |
| FizzbuzzThreads.Globals.PrintBuzz | 05-operating-systems/03-threads-concurrency-and-scheduling/03-multi-threaded-fizzbuzz/fizzbuzz.c:36-37 | buzz is printed if and only if 5 divides n |
| FizzbuzzThreads.Globals.PlayRound | 05-operating-systems/03-threads-concurrency-and-scheduling/03-multi-threaded-fizzbuzz/fizzbuzz.c:16-62 | the three threads one after the other, asleep or not before it, print the number drawn and exactly its marks, and hand the turn back to main |
| FizzbuzzThreads.Globals.Play | 05-operating-systems/03-threads-concurrency-and-scheduling/03-multi-threaded-fizzbuzz/fizzbuzz.c:16-62 | so any sequence of draws is printed, each number followed by exactly its marks |
| Fizzbuzz.StepInv | 05-operating-systems/03-threads-concurrency-and-scheduling/03-multi-threaded-fizzbuzz/fizzbuzz.c:16-62 | every step, spurious wakeups included, keeps mutex ownership, the single place of the number, wakeups and the output consistent |
| Fizzbuzz.RunIsSafe | 05-operating-systems/03-threads-concurrency-and-scheduling/03-multi-threaded-fizzbuzz/fizzbuzz.c:16-62 | in every run at most one flag is up and the output is whole rounds in order, plus a beginning of the last round |
| FizzbuzzTrace.RunOutput | 05-operating-systems/03-threads-concurrency-and-scheduling/03-multi-threaded-fizzbuzz/fizzbuzz.c:16-62 | over every run, on the trace alone: the numbers printed are those rand gave, the last one perhaps not yet; between a number and the next one fizz once if 3 divides it and else never, then buzz once if 5 divides it and else never; after the last number a beginning of that |
| Fizzbuzz.WaitsOnly | 05-operating-systems/03-threads-concurrency-and-scheduling/03-multi-threaded-fizzbuzz/fizzbuzz.c:16-62 | a thread waits for a signal or for the mutex and for nothing else; any number from 0 to 15 may be drawn, any sleeper may wake without a signal |
| Fizzbuzz.NumberIsStable | 05-operating-systems/03-threads-concurrency-and-scheduling/03-multi-threaded-fizzbuzz/fizzbuzz.c:21-38 | n does not change between main's draw and buzz's print |
| Fizzbuzz.MarksMatch | 05-operating-systems/03-threads-concurrency-and-scheduling/03-multi-threaded-fizzbuzz/fizzbuzz.c:22-37 | fizz and buzz test the number printed last |
| Fizzbuzz.NoLostWakeup | 05-operating-systems/03-threads-concurrency-and-scheduling/03-multi-threaded-fizzbuzz/fizzbuzz.c:18-58 | a sleeper whose predicate holds is about to be signalled by the thread that holds the mutex, whose next step wakes it |
| Fizzbuzz.AlwaysEnabled | 05-operating-systems/03-threads-concurrency-and-scheduling/03-multi-threaded-fizzbuzz/fizzbuzz.c:16-62 | some thread can always step, without spurious wakeups |
| Fizzbuzz.SteadyProgress | 05-operating-systems/03-threads-concurrency-and-scheduling/03-multi-threaded-fizzbuzz/fizzbuzz.c:16-62 | a run with w spurious wakeups that drew k numbers has at most 20 + 85k + 3w steps: no schedule stops the rounds |
| FibMachine.FibReturns | 02-computer-systems/03-low‑level-programming/07-low-level-recursion/fib.asm:3-20 | for every n >= 0 and any stack below, fib returns to its caller with Fib(n) mod 2^32, the stack restored, never cut below entry, peaking exactly 2(n-1) words above entry |
| FibMachine.NegativeReturns | 02-computer-systems/03-low‑level-programming/07-low-level-recursion/fib.asm:4-6 | a negative argument is returned as it is, with no stack used |
| FibMachine.ToFirstCall | 02-computer-systems/03-low‑level-programming/07-low-level-recursion/fib.asm:4-10 | the code up to the first recursive call |
| FibMachine.ToSecondCall | 02-computer-systems/03-low‑level-programming/07-low-level-recursion/fib.asm:11-16 | the code between the recursive calls saves the first result on the stack |
| FibMachine.ToReturn | 02-computer-systems/03-low‑level-programming/07-low-level-recursion/fib.asm:17-20 | the code after the second call adds both results and returns |
| FibCpu.Cpu.Exec | 02-computer-systems/03-low‑level-programming/07-low-level-recursion/fib.asm:3-20 | each instruction, in place |
| FibCpu.Cpu.CallFib | 02-computer-systems/03-low‑level-programming/07-low-level-recursion/fib.asm:3-20 | executing until the matching ret gives Fib(n) mod 2^32 and the caller's stack |
| DynamicArray.DA.constructor | 02-computer-systems/02-introduction-to-c/04-dynamic-array/dynarray.c:15-23 | a new array is empty with capacity 8 |
| DynamicArray.DA.Realloc | 02-computer-systems/02-introduction-to-c/04-dynamic-array/dynarray.c:33-40 | growth keeps the elements; the capacity c becomes c' with 2 * c' <= 3 * c < 2 * c' + 2 |
| DynamicArray.DA.DAPush | 02-computer-systems/02-introduction-to-c/04-dynamic-array/dynarray.c:30-42 | push appends; a full array grows by half, rounded down, any other keeps its capacity |
| DynamicArray.GrowthIsByHalf | 02-computer-systems/02-introduction-to-c/04-dynamic-array/dynarray.c:30-62 | over every history the capacity starts at 8, a push on a full array grows it by half, rounded down, and moves each element once; no other operation changes it or copies |
| DynamicArray.DA.DAPop | 02-computer-systems/02-introduction-to-c/04-dynamic-array/dynarray.c:44-49 | pop removes and returns the last element, NULL if there is none |
| DynamicArray.DA.DASet | 02-computer-systems/02-introduction-to-c/04-dynamic-array/dynarray.c:51-55 | set replaces an element in range and otherwise does nothing |
| DynamicArray.DA.DAGet | 02-computer-systems/02-introduction-to-c/04-dynamic-array/dynarray.c:57-62 | get returns an element in range, otherwise NULL |
| DynamicArray.RefinesList | 02-computer-systems/02-introduction-to-c/04-dynamic-array/dynarray.c:30-62 | over every history of push, pop, set and get the array holds the list a caller has in mind: growing never shows |
| DynamicArray.AmortisedGrowth | 02-computer-systems/02-introduction-to-c/04-dynamic-array/dynarray.c:30-62 | over every history reallocations copy at most 4 elements per push |
| DynamicArray.CapacityBound | 02-computer-systems/02-introduction-to-c/04-dynamic-array/dynarray.c:33-34 | the capacity never exceeds half as much again as the number of pushes, beyond the first block |
| Pangram.PangramAsm | 02-computer-systems/03-low‑level-programming/04-x86-64-pangram/pangram.asm:4-23 | the early-exit masked scan returns 1 exactly if the full set of the string covers the mask |
| Pangram.IsPangramC | 02-computer-systems/03-low‑level-programming/04-x86-64-pangram/pangram.c:8-17 | the full scan returns true exactly then too |
| Pangram.FullIffAllLetters | 02-computer-systems/03-low‑level-programming/04-x86-64-pangram/pangram.c:8-17 | that is exactly when each of the 26 letters occurs, in either case |

## Left out

- HashMap.Hashmap.Set: its precondition leaves out the calls that never return, since a method must end; HashBound.StoreReturnsIffWithin states which these are.
- Hash map: capacities and sizes are unbounded numbers; they agree with size_t as long as cap * cap + 2 * cap < 2^64.
- Bits.NextPowerOf2IsLeast: on unbounded numbers; above 2^63 the C result, 2^64, wraps to 0, and so does that for n == 0.
- Hash map: reads of a key copy after its block is freed cannot be expressed, because a slot holds the key's bytes beside the block that owns them; that occupied slots' blocks are live is part of the invariant.
- Hash map: the C hash gets no length, so for keys without a terminating zero it may read past them; here it depends on the key's bytes alone.
- Hash map: allocation failure, Hashmap_print and djb2.
- MergeSortInPlace.Sort: it runs the forked half to its end before the parent goes on; all other interleavings are in ParallelSort, on a sequence instead of an array.
- ParallelSort.StepInv: one turn of the merge loop, a read of at most two cells, is one step; steps of different threads commute (ParallelSplit.ForkedStepsCommute), so finer ones would not show.
- Fork/join sort: CPU affinity, allocation and thread-creation failure; thread ids are taken to be nonzero, as the join test needs.
- BottomUpSort.Sort: the length is at most 2^62, so that sz stays below 2^64; an array of ints in a 64-bit address space is no longer than that.
- Blocking queue: capacity 0, error returns of the semaphore and mutex calls, the set-up of the shared mapping, printing.
- Fizzbuzz: delivery under a fair scheduler is not stated as such; Fizzbuzz.SteadyProgress bounds every schedule's steps between draws instead.
- Fizzbuzz: main's usleep between rounds, which changes no shared state.
- FibMachine.FibReturns: flags set by dec and add are not kept, because no instruction reads them before the next cmp.
- Dynamic array: the null checks on the array pointer, DA_free and allocation failure; capacities stay below 2^52, where the product with 1.5 is exact in a double.
- Shout server, shells, signal programs and the mapping demo: plumbing around system calls.
