# Verified models of the Meld virtual machine

Dafny models of the data structures, concurrent queues, scheduler and bytecode relinker of the Meld virtual
machine, with proofs of what each of them is for. `dafny verify dfyconfig.toml` checks everything.

| file | component |
|---|---|
| `common.dfy` | options, sequences without duplicates, writing into memory |
| `tuples.dfy` | tuples, their types, flattening into trie keys, matching |
| `trie_contents.dfy` | what a trie stores, as a list of tuples with counts |
| `trie_shape.dfy`, `trie_hash.dfy`, `trie_leaves.dfy`, `trie_accounts.dfy`, `trie_cut.dfy`, `trie_match.dfy` | nodes and paths, hash tables, the leaf list, reference accounts, removal of branches, the matcher's continuation frames |
| `trie_scan.dfy` | when a search reads behind a hash table |
| `trie.dfy`, `trie_runs.dfy` | the tuple trie, changed in place, and short runs of it |
| `linear_queue.dfy`, `queue_progress.dfy` | the lock-free queue with many producers and one consumer, and its progress |
| `scheduler.dfy`, `scheduler_progress.dfy`, `scheduler_steal.dfy` | the static scheduler with node stealing, how it comes to rest, and what a steal request moves |
| `tree_barrier.dfy` | the sense-reversing tree barrier |
| `bytecode.dfy`, `assembler.dfy`, `relinker.dfy` | instruction lengths, an encoder, decoding, and relinking as a renaming |
| `relinker_walk.dfy` | the recursive walk that relinks code in memory |
| `heap_order.dfy`, `intrusive_heap.dfy`, `heap_queue.dfy` | heap order, the heap with back pointers, the heap with the pruned search |
| `bounded_pqueue.dfy`, `pqueue_steps.dfy` | the counter tree over one queue per priority, used by one thread and shared |
| `aggregates.dfy` | incremental aggregates over a tuple trie |
| `allocator.dfy` | the chunked allocator |
| `rule_matcher.dfy` | the rule-activation index |
| `tuple_pack.dfy` | tuples as bytes |

How the models relate to the program:

- Objects that the program changes in place are classes whose fields the methods reassign. Where the program
  links nodes by pointers (the trie, the counter tree, the queue) memory is a map from node ids to nodes, and ids
  are never reused. Chains of siblings, buckets and leaves are sequences; `next` and `prev` are positions in them.
- Concurrent code is a step system: one action is one access to shared data by one thread, and a run is any
  sequence of enabled actions. Logs and places are ghost records that no step reads.
- The queues that the scheduler shares are atomic in its model: `StepIsQueue` shows that each push, splice and pop
  takes effect at one access, and `NeverStuck` that a pop behind `!empty()` finds an element. `empty()` may answer
  yes while a push is in flight; a thread then goes on without that element, which the scheduler's model lets it do
  at any time.
- `BoundedQueue` is the counter tree over bins that are sequences. The scheduler's nodes use it with lock-free bins
  and atomic counters: `pqueue_steps.dfy` has any interleaving of pushes with one thread that pops. `BoundedQueue.Top`
  holds for bins whose `top` is their first item, which the lock-free queue's is not (`PushSafeLinearQueue.Top`).
- An assertion of the program that can fail is a result: `asserted` or `ok` is false exactly when it fails.
- In the scheduler a thread that is between operations may start any of them, also where the program's loop
  would not at that point: the results hold for more runs than the program has. Which tuple of a node is consumed
  next is left open.
- Integers, counts and sizes are mathematical integers except where a width is the point: bytecode bytes, ids and
  words, and packed numbers. Floats are opaque values with an order and any addition; in packed tuples they are
  bit patterns.
- The hash function of a trie is any function. The place of a new chunk is a parameter.

Where the code does something else than its comments or callers suggest, the model follows the code:

- The tree barrier's depth is computed by integer division. For radices above 2 the tree can have fewer nodes than
  there are threads (`TernaryDepthFallsShort`); `Barrier.constructor` says exactly when it is complete.
- The relinker writes one byte of a rule id and one byte of a predicate id that is read through a seven-bit mask
  (`RuleIdTruncated`, `PredicateIdMasked`); `RelinkingIsRenaming` says exactly when the result is right.
- The relinker enters code once for each entry of a `SELECT` table, so that code shared by two entries is relinked
  twice (`SharedTwice`); `Relink` and `SharedExactly` say exactly when that is a renaming all the same.
- `top` of the lock-free queue returns the element popped last instead of the next one (`PushSafeLinearQueue.Top`).
- `heap_queue::remove` can give up on an element that is there when priorities are equal (`EqualPrioritiesMissed`),
  and `remove_by_index` only moves elements down (`RemovalOutOfOrder`); `Find`, `RemoveByIndex` and `Remove` say
  exactly when they work.
- `top_list` lowers the counters by the length of the caller's list, old elements included: `TopList` says when that
  is right, `ListNotEmpty` is a queue for which it is not.
- A leaf can go away while a deletion of its tuple is announced: by a commit that is smaller than what is announced,
  by leaf, or by index. Then references are left over and the announced commit would use a freed node.
  `CommitDelete`, `DeleteByLeaf` and `DeleteByIndex` say exactly when, and `trie_runs.dfy` has a run for each.
- Deleting more references than are stored leaves a tuple with a negative count (`DeleteTuple`, `DeleteTooMany`).
- `delete_by_index` with a leading exact field asserts that the trie is not empty (`DeleteByIndex`).
- `delete_tuple` of a missing tuple of a predicate without fields makes a leaf with a negative count and fails its
  assertion (`DeleteTuple`).
- The scans for a non-empty bucket read a bucket before they test for the end of the table. The result does not depend
  on what lies behind (`FirstFilled`); `AfterInTable` and `MatchPredicate` say exactly when that cell is read.
- `pack` of an empty list in the last field asserts that another byte follows: `Pack` says exactly when it succeeds,
  `ExactlyFull` is a tuple for which it does not.
- `empty()` of the lock-free queue can be true with an element left while a push is in flight (`MisleadingEmpty`).

## Model

| member | source | states |
|---|---|---|
| Tuples.FlatStep | predicates/db/trie.cpp:138-221 | what `match` and `insert` do to the value stack is one key of the flattening at a time: an atom, 0 for an empty list, or 1 that leaves head and tail |
| Tuples.FlatComplete | predicates/db/trie.cpp:138-221 | the keys of a well-typed tuple use up the type stack exactly |
| Tuples.FlatInjective | predicates/db/trie.cpp:138-331 | two tuples of one predicate with the same keys are the same tuple |
| Tuples.PrefixFree | predicates/db/trie.cpp:138-331 | no tuple's key sequence is a proper prefix of another key sequence of the predicate |
| Tuples.WordHasTuple | predicates/db/trie.cpp:138-331 | every complete key sequence is the path of a tuple |
| Tuples.AcceptsIsSelected | predicates/db/trie.cpp:1098-1253 | the key-by-key tests of the matcher accept a tuple's path exactly when the tuple agrees with all exact fields |
| TrieContents.BumpCounts | predicates/db/trie.cpp:613-730 | adding references changes the count of that tuple and of no other |
| TrieContents.BumpOrder | predicates/db/trie.cpp:672-709 | a new tuple goes to the end of the leaf list, an old one stays where it is |
| TrieContents.DropCounts | predicates/db/trie.cpp:757-817 | dropping an entry sets the count of that tuple to zero and leaves all others |
| TrieContents.DropLedCounts | predicates/db/trie.cpp:820-869 | dropping what leading exact fields select leaves the counts of exactly the other tuples |
| TrieShape.ChildOnPath | predicates/db/trie.hpp:20-110 | a node whose path extends another's hangs below the child that continues that path |
| TrieShape.LeafBelow | predicates/db/trie.cpp:489-541 | no childless interior node remains: below every node but an empty root there is a leaf |
| TrieShape.AddChildShape | predicates/db/trie.cpp:224-294 | inserting a child keeps the whole shape: parents, paths, buckets, back pointers, key sequences |
| TrieShape.RehashShape | predicates/db/trie.cpp:296-331 | moving all children of a node into hash buckets keeps the shape |
| TrieShape.RemoveChildShape | predicates/db/trie.cpp:489-541 | removing a childless node keeps the shape, and names the parent as the next to go if it is left childless |
| TrieShape.CutBranchShape | predicates/db/trie.cpp:543-604 | freeing everything below a node keeps the shape of the rest |
| TrieHash.TableLookup | predicates/db/trie.cpp:337-363 | in a hash table the child with a key is in the key's bucket, whatever the hash function |
| TrieHash.NextBucketNew | predicates/db/trie.cpp:439-473 | the buckets done so far and the next one share no node |
| TrieLeaves.LeavesDistinct | predicates/db/trie.cpp:672-709 | no two leaves hold the same tuple |
| TrieLeaves.MissingChild | predicates/db/trie.cpp:655-665 | when no child goes on with the next key, the tuple is not stored anywhere |
| TrieLeaves.LeafIsTuple | predicates/db/trie.cpp:713-730 | a leaf reached with the value stack empty is the leaf of that tuple |
| TrieAccounts.CommitAccounts | predicates/db/trie.cpp:732-745 | when the count is zero, the references stay accounted for after a commit if and only if all announced deletions are committed; when it is not, always |
| TrieAccounts.ByLeafAccounts | predicates/db/trie.cpp:747-817 | when the last reference goes by leaf, the references stay accounted for if and only if no deletion is announced |
| TrieCut.BranchAccounts | predicates/db/trie.cpp:820-869 | when a branch goes, the references stay accounted for if and only if no deletion is announced on any of its leaves |
| TrieRuns.CommitTooSmall | predicates/db/trie.cpp:732-745 | insert, delete, insert, delete, and commit the first deletion: one reference is left and no leaf, and the second announcement names a node that has been freed |
| TrieRuns.ByLeafTooEarly | predicates/db/trie.cpp:747-817 | insert, delete, insert, and delete by leaf: the same |
| TrieRuns.ByIndexTooEarly | predicates/db/trie.cpp:820-869 | insert, delete, and delete all by index: the same |
| TrieRuns.DeleteTooMany | predicates/db/trie.cpp:948-973 | insert one reference and delete two: the count and the reference number are -1 |
| TrieAccounts.RemoveAccounts | predicates/db/trie.cpp:757-817 | removing a leaf with count zero keeps the number of references equal to the sum of counts and what is still owed |
| TrieCut.BasicInvariants | predicates/db/trie.hpp:273-291 | the reference number is zero exactly when the root has no child, exactly when there is no leaf; then only the root is left |
| TrieCut.KeepIsDropLed | predicates/db/trie.cpp:820-869 | unlinking the leaves below a node is dropping exactly the tuples led by its keys, in order |
| Trie.TupleTrie.FindChild | predicates/db/trie.cpp:138-221 | returns the child with the key if and only if there is one, through lists and hash buckets, and how many nodes of the list or bucket were looked at |
| Trie.TupleTrie.AddChild | predicates/db/trie.cpp:224-294 | adds one node under a key that no sibling has |
| Trie.TupleTrie.ConvertHash | predicates/db/trie.cpp:296-331 | no lookup finds another child than before; the table has the initial number of buckets |
| Trie.TupleTrie.Expand | predicates/db/trie.cpp:439-473 | no lookup finds another child than before; there are twice as many buckets |
| Trie.TupleTrie.MakeRoom | predicates/db/trie.cpp:655-665 | a list becomes a table exactly beyond the threshold, and a table grows exactly when the bucket searched is too long |
| Trie.TupleTrie.CheckInsert | predicates/db/trie.cpp:613-730 | found exactly when an equal tuple is stored; changes the count of that tuple alone; a missing tuple is inserted or, for a negative amount, refused |
| Trie.TupleTrie.DeletePath | predicates/db/trie.cpp:489-541 | removes exactly the nodes that lead to no leaf, except the root; then the trie is in order again |
| Trie.TupleTrie.DeleteBranch | predicates/db/trie.cpp:543-604 | frees exactly the nodes below, unlinks exactly their leaves, and returns the sum of their counts |
| Trie.TupleTrie.constructor | predicates/db/trie.cpp:878-887 | an empty trie |
| Trie.TupleTrie.InsertTuple | predicates/db/trie.cpp:913-946 | the count of the tuple goes up, a new tuple goes to the end, the reference number is accounted for; true exactly when the tuple is new |
| Trie.TupleTrie.DeleteTuple | predicates/db/trie.cpp:948-973 | the count goes down; when it reaches zero the leaf and the reference number wait for the commit, otherwise the number goes down at once; the trie stays in order if and only if no more is deleted than is stored; the assertion fails exactly for a missing tuple of a predicate without fields |
| Trie.TupleTrie.CommitDelete | predicates/db/trie.cpp:732-745 | the announced references are subtracted; the tuple is dropped exactly if its count is still zero, so one that was inserted again is kept; the references are accounted for if and only if it is kept or nothing more is owed on it |
| Trie.TupleTrie.DeleteByLeaf | predicates/db/trie.cpp:747-817 | one reference less; the tuple is dropped exactly when that was the last; the trie stays in order if and only if the count was positive and, when it was one, no deletion was announced |
| Trie.TupleTrie.DeleteByIndex | predicates/db/trie.cpp:820-869 | removes exactly the tuples that agree with the leading exact fields and subtracts exactly their counts; the references are accounted for if and only if no deletion of them was announced; the assertion fails exactly for an empty trie and a leading exact field |
| Trie.TupleTrie.FirstFilled | predicates/db/trie.cpp:1163-1217 | the scan as written, bucket read first: the next bucket with nodes, whatever lies behind the table; that cell is read if and only if all buckets from the start on are empty |
| Trie.TupleTrie.AfterInTable | predicates/db/trie.cpp:1163-1217 | the alternative to a hashed node is the next child of the whole table, across empty buckets; the cell behind the table is read if and only if the node is the last child of all |
| Trie.TupleTrie.TwoBuckets | predicates/db/trie.cpp:1163-1217 | a table of two buckets with one node, behind which the scan reads |
| Trie.TupleTrie.TryNode | predicates/db/trie.cpp:1093-1243 | one round of the matcher keeps found leaves, the chosen branch and the continuation frames a partition of what can match |
| Trie.TupleTrie.Search | predicates/db/trie.cpp:1051-1290 | the backtracking loop ends, with every matching leaf found once and no other; the cell behind a table is read if and only if a table is reached at a field that is not exact |
| Trie.TupleTrie.MatchPredicate | predicates/db/trie.cpp:1032-1290 | returns every leaf whose tuple agrees with all exact fields, no other and none twice; without an exact field the leaf list itself; reads behind a hash table exactly when a search reaches one at a field that is not exact |
| TrieMatch.SplitJob | predicates/db/trie.cpp:1163-1223 | a frame and the node tried share no node and lose none |
| TrieMatch.ChooseExact | predicates/db/trie.cpp:1106-1161 | at an exact field no other child can lead to a match |
| TrieMatch.MatchStarts | predicates/db/trie.cpp:1061-1080 | with an exact field and tuples in the trie the root is not a leaf and has children |
| TrieScan.RootScanned | predicates/db/trie.cpp:1163-1217 | a match whose first field is not exact reaches a hashed root so |
| TrieScan.ExactScansNone | predicates/db/trie.cpp:1106-1161 | a match with only exact fields reaches no table so |
| LinearQueue.StepInv | predicates/queue/safe_linear_queue.hpp:46-143 | every shared access of any thread keeps the invariant of the queue |
| LinearQueue.QueueOrder | predicates/queue/safe_linear_queue.hpp:46-143 | in every run: head reaches tail and tail the last linked node, the segments are contiguous and in link order, and exactly a prefix has been popped, each element once |
| LinearQueue.RunForward | predicates/queue/safe_linear_queue.hpp:46-91 | in every run a `next` pointer once written stays, the tail never moves back, nothing is un-popped |
| LinearQueue.NeverStuck | predicates/queue/safe_linear_queue.hpp:46-143 | no thread dereferences a null node; a pop behind a successful `!empty()` finds a successor |
| LinearQueue.RunConserves | predicates/queue/safe_linear_queue.hpp:46-91 | a segment is linked as often as it was given to push or splice, less the ones in flight |
| LinearQueue.StepIsQueue | predicates/queue/safe_linear_queue.hpp:46-143 | seen as a sequence, a push or splice appends its segment at the link, a pop removes the first element when the head moves, and nothing else changes the queue |
| QueueProgress.FailureExplained | predicates/queue/safe_linear_queue.hpp:46-91 | a compare-and-swap or the check before it fails only if a segment was linked or the tail moved since this producer was up to date |
| QueueProgress.ProgressBound | predicates/queue/safe_linear_queue.hpp:46-91 | lock freedom: in any run all producers together take a number of turns that is bounded by the segments begun, whatever the interleaving |
| LinearQueue.EmptyExact | predicates/queue/safe_linear_queue.hpp:93-96 | when head and tail are equal, all has been popped if and only if the tail has no successor; otherwise some producer is about to move the tail |
| LinearQueue.QuietEmptyExact | predicates/queue/safe_linear_queue.hpp:93-96 | with no push or splice in flight `empty()` is exact and the size is right |
| LinearQueue.MisleadingEmpty | predicates/queue/safe_linear_queue.hpp:46-143 | a run in which a helper overtakes a splicer and `empty()` is true with an element left while a push is in flight |
| LinearQueue.PushSafeLinearQueue.Turn | predicates/queue/safe_linear_queue.hpp:46-91 | one atomic step of a producer |
| LinearQueue.PushSafeLinearQueue.PushAlone | predicates/queue/safe_linear_queue.hpp:46-91 | a producer that runs alone, whatever the others were stopped in, gets its segment linked and the tail to the end |
| LinearQueue.PushSafeLinearQueue.CheckWork | predicates/queue/safe_linear_queue.hpp:93-96 | answers whether head and tail are equal |
| LinearQueue.HeadIsStale | predicates/queue/safe_linear_queue.hpp:115-122 | the head is the node popped last, or the sentinel: it is never queued; it has a successor if and only if something is |
| LinearQueue.PushSafeLinearQueue.Top | predicates/queue/safe_linear_queue.hpp:115-122 | `top` returns the element popped last, or that of the sentinel, and never one that is queued; its assertion holds exactly when something is queued |
| LinearQueue.PushSafeLinearQueue.Pop | predicates/queue/safe_linear_queue.hpp:124-143 | returns the next element of the chain and moves the head to it |
| Scheduler.StepInv | predicates/thread/static.cpp:57-131 | every access of any thread keeps ownership, places of nodes and places of tuples in order |
| Scheduler.InitInv | predicates/thread/static.cpp:380-400 | after `init` every node is queued at its owner with its first tuple |
| Scheduler.OnePlace | predicates/thread/static.cpp:57-350 | after any run a flagged node is in exactly one run queue, stolen buffer, current slot or hand, once, and its owner's |
| Scheduler.OneRunner | predicates/thread/static.cpp:301-350 | no node is run by two threads, and only its owner runs it |
| Scheduler.PendingFlagged | predicates/thread/static.cpp:57-131 | a node with tuples is flagged, or its owner is just about to flag it |
| Scheduler.ItemsConserved | predicates/thread/static.cpp:57-131 | after any run a tuple has been consumed, once, or is in exactly one buffer, hand or queue of its node |
| Scheduler.ChangesOnlyOwn | predicates/thread/static.cpp:106-131 | a thread changes the tuple queue only of a node that it owns, even if the owner changed after the tuple was sent |
| Scheduler.AssertionsHold | predicates/thread/static.cpp:168-232 | the assertions of the steal, queue and flag operations hold, for nodes in queues and for the node in hand; a second test of `check_if_current_useless` never disagrees with the first |
| Scheduler.AddedFlagged | predicates/thread/static.cpp:57-75 | the assertion at the end of `new_work`: the node is flagged |
| Scheduler.WorkKeepsBusy | predicates/thread/static.cpp:57-350 | a tuple that is not consumed keeps some thread busy |
| Scheduler.NeverStuck | predicates/thread/static.cpp:57-350 | a busy thread can always take a step |
| Scheduler.QuietMeansDone | predicates/thread/static.cpp:22-40 | when no thread has anything to do every tuple ever made has been consumed and no node is flagged |
| SchedulerProgress.ComesToRest | predicates/thread/static.cpp:57-350 | from any reachable state there is a bound on the steps of all runs in which no tuple is derived, no node created and no steal request answered |
| SchedulerProgress.AllCanBeConsumed | predicates/thread/static.cpp:57-350 | from any reachable state such a run leads to one in which every tuple has been consumed |
| Scheduler.StaticScheduler.constructor | predicates/thread/static.cpp:380-400 | the state after `init` |
| Scheduler.StaticScheduler.Turn | predicates/thread/static.cpp:57-350 | one atomic step: `new_work`, `new_work_other`, `retrieve_tuples`, `check_stolen_nodes`, `answer_steal_requests`, `check_if_current_useless` or `set_next_node`; what answering a request does in the end is `Answered` |
| SchedulerSteal.AnswerBegins | predicates/thread/static.cpp:197-212 | in any interleaving, answering the oldest request begins with this many nodes to give: all of up to four, four of up to 24, one in five of more |
| SchedulerSteal.Answered | predicates/thread/static.cpp:197-226 | a thread that answers and then takes only its own turns until it is free has moved exactly that many nodes from the front of its run queue, in order, to the end of the requester's stolen nodes, and the requester owns them |
| SchedulerSteal.AnswerEnds | predicates/thread/static.cpp:197-226 | and it does become free |
| SchedulerSteal.TenNodes | predicates/thread/static.cpp:197-226 | a run from the start in which thread 1 asks thread 0, which has ten nodes, and gets the first four |
| TreeBarrier.TurnInv | predicates/utils/tree_barrier.hpp:36-58 | every shared access of `wait` keeps the invariant, on any tree |
| TreeBarrier.NobodyLeavesEarly | predicates/utils/tree_barrier.hpp:36-58 | no thread leaves its k-th wait before every thread has entered its k-th wait, and nobody is more than one wait ahead |
| TreeBarrier.CountersAndRootSense | predicates/utils/tree_barrier.hpp:36-58 | the children counters are never negative and the root's assertion on the sense holds |
| TreeBarrier.NoDeadlock | predicates/utils/tree_barrier.hpp:36-58 | once all threads are inside, some thread is past its spin |
| TreeBarrier.WaitEnds | predicates/utils/tree_barrier.hpp:36-58 | once all threads have called `wait` equally often, at most five turns for each thread are not spent spinning, and until all are out one of those inside can take such a turn |
| TreeBarrier.AllComeOut | predicates/utils/tree_barrier.hpp:36-58 | so there is a schedule of at most that many turns that brings everybody out |
| TreeBarrier.BinaryDepthSuffices | predicates/utils/tree_barrier.hpp:115-131 | for radix 2 the computed depth has room for all threads |
| TreeBarrier.DepthExactly | predicates/utils/tree_barrier.hpp:115-131 | the computed depth is the least one at which fewer than two threads are left; for radix 2 it is the logarithm, rounded down |
| TreeBarrier.TernaryDepthFallsShort | predicates/utils/tree_barrier.hpp:115-131 | for radix 3 it need not: 17 threads get a tree of 13 nodes |
| TreeBarrier.Barrier.constructor | predicates/utils/tree_barrier.hpp:115-131 | the tree has a node for every thread exactly when the full tree of the computed depth is large enough, for radix 2 always; every count is the number of children |
| TreeBarrier.Barrier.Build | predicates/utils/tree_barrier.hpp:80-106 | adds finished subtrees until the nodes run out |
| TreeBarrier.Barrier.Wait | predicates/utils/tree_barrier.hpp:36-58 | one shared access of `wait` |
| Bytecode.IterMatchesSize | predicates/vm/instr.hpp:594-614 | the loop computes the length of the match list |
| Bytecode.ArgsSizeLoop | predicates/vm/instr.hpp:616-644 | the loops compute the length of call and delete arguments |
| Bytecode.AdvanceAlike | predicates/vm/instr.hpp:646-787 | the length of an instruction depends neither on the ids that it names nor on what lies behind it |
| Assembler.AdvanceAssembled | predicates/vm/instr.hpp:420-787 | an encoder of all instructions with their operands: `advance` moves over exactly the bytes of an instruction, whatever follows, and throws if and only if an operand is not accepted in its place |
| Assembler.UnknownThrows | predicates/vm/instr.hpp:646-787 | all other opcodes throw |
| Relinker.OneRenamed | predicates/vm/instr.cpp:235-549 | a relinked instruction decodes to the instruction with its ids renamed if and only if the linker ids fit |
| Relinker.OneLinked | predicates/vm/instr.cpp:235-464 | byte by byte: byte 1 of ALLOC, ITER and DELETE becomes the low byte of the linker id of the predicate in its low seven bits, byte 1 of RULE that of the rule; all other instructions but NEW_AXIOMS stay |
| Relinker.OneRead | predicates/vm/instr.hpp:212-369 | which instructions name a predicate or a rule, and where |
| Relinker.AxiomsLinked | predicates/vm/instr.cpp:476-549 | facts written field by field: of `NEW_AXIOMS` the byte of each predicate is replaced and nothing else |
| Relinker.RelinkingIsRenaming | predicates/vm/instr.cpp:178-606 | the relinked stream decodes to the original one with every id renamed once if and only if predicate ids fit in seven bits and rule ids keep their upper bytes; no instruction moves |
| Relinker.RuleIdTruncated | predicates/vm/instr.hpp:367-369 | a rule id written as a single byte: 300 is read back as 44 |
| Relinker.PredicateIdMasked | predicates/vm/instr.hpp:217-219 | a predicate id read through a seven-bit mask: 200 is read back as 72 |
| RelinkerWalk.RelinkFacts | predicates/vm/instr.cpp:476-549 | the loop over the facts of `NEW_AXIOMS` replaces exactly their predicate bytes, for any bytes |
| RelinkerWalk.RelinkOne | predicates/vm/instr.cpp:235-549 | one instruction is rewritten in place and nothing else; byte by byte as `OneLinked` says |
| RelinkerWalk.Unmoved | predicates/vm/instr.cpp:178-587 | however often instructions have been relinked, each is of the same kind, length and jump as before |
| RelinkerWalk.InstrPrint | predicates/vm/instr.cpp:178-587 | the recursive walk relinks every instruction as often as it comes to it, in the bodies of `IF`, `ITERATE` and `RESET LINEAR` and in the code of each table entry of a `SELECT`; all other bytes stay |
| RelinkerWalk.InstrsPrintEntries | predicates/vm/instr.cpp:428-445 | the same for the loop over the table of a `SELECT` |
| RelinkerWalk.InstrsPrint | predicates/vm/instr.cpp:159-169 | the same for a list of instructions up to an address |
| RelinkerWalk.InstrsPrintUntil | predicates/vm/instr.cpp:131-157 | the same up to the instruction that ends a body or the code of an entry |
| RelinkerWalk.Relink | predicates/vm/instr.cpp:595-606 | for a whole piece of code: no instruction moves; the bytes of what is met once are as `OneLinked` says; the result is the linear renaming if and only if no instruction is missed or met again, or it does not matter; then it decodes to the renamed instructions if and only if all ids fit |
| RelinkerWalk.VisitedOnce | predicates/vm/instr.cpp:178-587 | meeting each instruction once is enough, whatever the ids |
| RelinkerWalk.NestedOnce | predicates/vm/instr.cpp:145-169 | in code without `SELECT` whose bodies fill their instructions exactly the walk meets each instruction of the linear decoding once and in order |
| RelinkerWalk.TwiceExactly | predicates/vm/instr.cpp:235-549 | an instruction relinked twice is as relinked once if and only if the linker leaves its ids alone, for ids that fit and are not shared |
| RelinkerWalk.AgainExactly | predicates/vm/instr.cpp:235-549 | relinked k times it is so if and only if replacing the ids k - 1 times over gives them back |
| RelinkerWalk.SharedExactly | predicates/vm/instr.cpp:131-143 | code that is shared by table entries, or missed: the walk is the linear renaming if and only if each instruction met k times gets its ids back after k - 1 replacements, and each one missed has nothing to rename |
| RelinkerWalk.SharedTwice | predicates/vm/instr.cpp:428-445 | a `SELECT` with two entries for the same code: predicate 1, linked as 2, becomes 3 |
| HeapOrder.StepUp | predicates/queue/heap_implementation.hpp:67-82 | one swap upwards leaves only the next position to check |
| HeapOrder.StepDown | predicates/queue/heap_implementation.hpp:96-126 | one swap downwards leaves only the next position to check |
| HeapOrder.RootBest | predicates/queue/heap_implementation.hpp:35-52 | nothing is smaller than the root of an ascending heap, nothing larger than that of a descending one |
| HeapOrder.LastMoved | predicates/queue/safe_complex_pqueue.hpp:65-88 | where the last element has to go when it takes the place of a removed one |
| IntrusiveHeap.ComplexPqueue.HeapifyUp | predicates/queue/heap_implementation.hpp:67-82 | restores heap order; true exactly when something moved |
| IntrusiveHeap.ComplexPqueue.HeapifyDown | predicates/queue/heap_implementation.hpp:96-126 | restores heap order |
| IntrusiveHeap.ComplexPqueue.Insert | predicates/queue/safe_complex_pqueue.hpp:36-45 | keeps order, back pointers and flags; the members are the old ones and the new one |
| IntrusiveHeap.ComplexPqueue.Pop | predicates/queue/safe_complex_pqueue.hpp:47-63 | takes out a member with the smallest priority of an ascending queue, the largest of a descending one, nothing only when empty; keeps order, back pointers and flags |
| IntrusiveHeap.ComplexPqueue.Remove | predicates/queue/safe_complex_pqueue.hpp:65-88 | takes out any member; keeps order, back pointers and flags |
| IntrusiveHeap.ComplexPqueue.MoveNode | predicates/queue/safe_complex_pqueue.hpp:120-124 | changes one priority; keeps members, order, back pointers and flags |
| IntrusiveHeap.ComplexPqueue.MinValue | predicates/queue/safe_complex_pqueue.hpp:105-108 | the smallest priority of an ascending queue, the largest of a descending one |
| IntrusiveHeap.LargerFirst | predicates/queue/safe_complex_pqueue.hpp:36-63 | a descending queue with priorities 1.0 and 5.0 gives the latter first |
| HeapQueue.Ancestor | predicates/queue/safe_simple_pqueue.hpp:113-155 | every level above an element holds an ancestor that is at least as good |
| HeapQueue.DistinctReaches | predicates/queue/safe_simple_pqueue.hpp:113-155 | with distinct priorities the cut of the search never fires before the element |
| HeapQueue.EqualPrioritiesMissed | predicates/queue/safe_simple_pqueue.hpp:113-155 | with equal priorities it can |
| HeapQueue.HeapQueue.Find | predicates/queue/safe_simple_pqueue.hpp:113-155 | finds an element exactly when every level above it has something better than the priority searched for |
| HeapQueue.ReachedFromAbove | predicates/queue/safe_simple_pqueue.hpp:113-155 | in a heap the level right above an element decides whether the search reaches it |
| HeapQueue.HeapQueue.Remove | predicates/queue/safe_simple_pqueue.hpp:113-155 | removes the first entry with the value exactly if on the level above some entry with the value there is something better; heap order survives if and only if the last element is not better than its new parent |
| HeapQueue.HeapQueue.RemoveByIndex | predicates/queue/safe_simple_pqueue.hpp:157-169 | one entry less; heap order survives if and only if the last element is not better than the new parent |
| HeapQueue.RemovalOutOfOrder | predicates/queue/safe_simple_pqueue.hpp:157-169 | six insertions and one removal by index: a heap that is out of order, with all its entries |
| HeapQueue.HeapQueue.Insert | predicates/queue/safe_simple_pqueue.hpp:101-111 | keeps heap order; one entry more |
| HeapQueue.HeapQueue.Pop | predicates/queue/safe_simple_pqueue.hpp:178-188 | takes out an entry with the smallest priority of an ascending heap, the largest of a descending one; keeps heap order |
| BoundedPqueue.NextPower2 | predicates/utils/utils.hpp:49-58 | the least power of two that is not smaller |
| BoundedPqueue.UpperLog2 | predicates/utils/utils.hpp:29-47 | the least exponent whose power of two is not smaller |
| BoundedPqueue.BoundedQueue.BuildTree | predicates/queue/bounded_pqueue.hpp:67-80 | a full tree with leaf i at position i, every node over the right span, all links mutual |
| BoundedPqueue.BoundedQueue.constructor | predicates/queue/bounded_pqueue.hpp:282-295 | an empty queue over the next power of two priorities |
| BoundedPqueue.OnTrail | predicates/queue/bounded_pqueue.hpp:67-123 | every node whose span has a priority lies on the way from the root to its leaf |
| BoundedPqueue.ClimbStep | predicates/queue/bounded_pqueue.hpp:91-96 | one round of a climb keeps every counter right |
| BoundedPqueue.CounterPoints | predicates/queue/bounded_pqueue.hpp:158-172 | on the way down the counter points to the lowest priority with an item |
| BoundedPqueue.PushedInOrder | predicates/queue/bounded_pqueue.hpp:82-123 | items pushed go behind all of the same or a lower number and before all others |
| BoundedPqueue.LowestFirst | predicates/queue/bounded_pqueue.hpp:174-197 | the first item of the lowest bin is the first of the whole queue |
| BoundedPqueue.BoundedQueue.PushQueue | predicates/queue/bounded_pqueue.hpp:82-100 | appends to one bin; every counter stays the number of items on its left |
| BoundedPqueue.BoundedQueue.Push | predicates/queue/bounded_pqueue.hpp:108-123 | a stable priority queue: the item goes behind its equals |
| BoundedPqueue.BoundedQueue.Splice | predicates/queue/bounded_pqueue.hpp:201-211 | appends bin by bin; the other queue is left for its owner to clear |
| BoundedPqueue.BoundedQueue.Top | predicates/queue/bounded_pqueue.hpp:158-172 | the next item, for bins whose `top` is their first item |
| BoundedPqueue.BoundedQueue.Pop | predicates/queue/bounded_pqueue.hpp:174-197 | takes out the next item; every counter stays right |
| BoundedPqueue.BoundedQueue.TopList | predicates/queue/bounded_pqueue.hpp:125-156 | takes out the whole lowest bin; the counters stay right if and only if the list given was empty |
| BoundedPqueue.ListNotEmpty | predicates/queue/bounded_pqueue.hpp:125-156 | one item taken into a list that holds another: the total becomes -1 |
| PqueueSteps.StepInv | predicates/queue/bounded_pqueue.hpp:82-197 | shared by threads that push and one that pops, every access to a bin, a counter or the total keeps the invariant |
| PqueueSteps.CountersUpToFlight | predicates/queue/bounded_pqueue.hpp:82-197 | in every run every counter, and the total, is exact but for the items of threads still climbing on the left and the thread going there to pop; none is ever negative |
| PqueueSteps.QuietBalanced | predicates/queue/bounded_pqueue.hpp:82-197 | whenever no thread is in the middle of an operation all counters and the total are exact, however operations were interleaved |
| PqueueSteps.QuietExact | predicates/queue/bounded_pqueue.hpp:82-197 | without threads on their way the invariant of the shared queue and that of the queue used by one thread are the same |
| PqueueSteps.BinsAreQueues | predicates/queue/bounded_pqueue.hpp:82-197 | in every run each bin gives its items in the order in which they were put into it, each once |
| PqueueSteps.NeverStuck | predicates/queue/bounded_pqueue.hpp:174-197 | a thread in the middle of an operation can go on: `pop` always finds an item in the bin that it comes to, whatever is pushed meanwhile |
| PqueueSteps.OnlyFlyingPassed | predicates/queue/bounded_pqueue.hpp:174-197 | whatever `pop` leaves behind on its left belongs to pushes that have not climbed past that node |
| PqueueSteps.WorkBound | predicates/queue/bounded_pqueue.hpp:82-197 | operations end: as long as none begins, the number of steps is bounded |
| PqueueSteps.Finishes | predicates/queue/bounded_pqueue.hpp:82-197 | and they can be run to a state in which the counters are exact |
| PqueueSteps.SafeBoundedQueue.constructor | predicates/queue/bounded_pqueue.hpp:309-313 | a queue set up by one thread is shared |
| PqueueSteps.SafeBoundedQueue.Turn | predicates/queue/bounded_pqueue.hpp:82-197 | one step of one thread, in place |
| Aggregates.AggregateUnique | predicates/db/agg_configuration.cpp:280-308 | the aggregate of a list of tuples is unique |
| Aggregates.DifferenceBalances | predicates/db/agg_configuration.cpp:310-342 | emitting the difference keeps the sum of emissions at one copy of the current aggregate |
| Aggregates.AggConfiguration.AddToSet | predicates/db/agg_configuration.cpp:11-38 | changes the count of one tuple, dropping it at zero; the tuples stay in order if and only if no more references are taken away than there are |
| Aggregates.AggConfiguration.GenerateMax | predicates/db/agg_configuration.cpp:78-101 | the first tuple with the largest number in the field, for ints and for floats |
| Aggregates.AggConfiguration.GenerateMin | predicates/db/agg_configuration.cpp:103-125 | the first tuple with the smallest number in the field, for ints and for floats |
| Aggregates.AggConfiguration.GenerateSum | predicates/db/agg_configuration.cpp:127-146 | the first tuple with the sum of the ints in the field, each as often as its tuple is counted |
| Aggregates.TotalBump | predicates/db/agg_configuration.cpp:127-146 | the sum of no tuples is 0, and n more references to a tuple with x in the field add n times x |
| Aggregates.TotalDrop | predicates/db/agg_configuration.cpp:127-146 | a tuple without references can go and the sum stays |
| Aggregates.FloatTotal | predicates/db/agg_configuration.cpp:148-169 | the float sum begins with 0 and adds the float of the last tuple for each of its references |
| Aggregates.ListTotal | predicates/db/agg_configuration.cpp:231-278 | the sums of lists: as many as the lists are long, each made likewise of the floats at its position |
| Aggregates.LengthsExactly | predicates/db/agg_configuration.cpp:231-278 | the assertion holds if and only if every counted list is as long as the first |
| Aggregates.AggConfiguration.GenerateSumFloat | predicates/db/agg_configuration.cpp:148-169 | the sum in the order of the tuples, each as often as it is counted, for any rounding addition |
| Aggregates.AggConfiguration.GenerateSumList | predicates/db/agg_configuration.cpp:231-278 | the same for each position of the lists; the assertion fails exactly when the lengths differ |
| Aggregates.AggConfiguration.DoGenerate | predicates/db/agg_configuration.cpp:281-308 | the aggregate recomputed from the tuples stored, nothing when there are none |
| Aggregates.AggConfiguration.Generate | predicates/db/agg_configuration.cpp:310-342 | after any run all emissions add up to exactly one copy of the aggregate of the current tuples, or to nothing |
| Allocator.FullExactly | predicates/mem/chunk.hpp:31-41 | a chunk refuses exactly when it has no cell left |
| Allocator.GrowSound | predicates/mem/chunkgroup.hpp:41-58 | a chunk is added only when every cell is in use, and capacity stays within twice the peak plus 62 |
| Allocator.ChunkGroup.Allocate | predicates/mem/chunkgroup.hpp:30-60 | the cell overlaps no cell in use; freed cells are used first; capacity is at most 2 * peak + 62; chunk k has 64 * 2^k cells up to 2^63, which is not doubled |
| Allocator.ChunkGroup.Deallocate | predicates/mem/chunkgroup.hpp:62-68 | the cell goes to the front of the free list; the link written into it overlaps no other cell |
| RuleMatcher.AffectedOccurs | predicates/vm/program.cpp:413-421 | a rule is listed for a predicate as often as it uses it |
| RuleMatcher.BuildAffected | predicates/vm/program.cpp:413-421 | the loader's lists |
| RuleMatcher.MoreActive | predicates/vm/rule_matcher.cpp:18-37 | which rules become active when a predicate gets its first tuple, and read backwards, which stop |
| RuleMatcher.Matcher.constructor | predicates/vm/rule_matcher.cpp:101-121 | no tuple, no active rule |
| RuleMatcher.Matcher.RegisterTuple | predicates/vm/rule_matcher.cpp:59-77 | each rule's number of satisfied uses and the set of active rules stay exact; newly active rules are no longer dropped |
| RuleMatcher.Matcher.DeregisterTuple | predicates/vm/rule_matcher.cpp:79-98 | the same for removal; rules that stop being active are dropped |
| RuleMatcher.Matcher.ClearDroppedRules | predicates/vm/rule_matcher.hpp:49-52 | no rule counts as dropped any more; everything else stays |
| TuplePack.NumberRoundTrip | predicates/utils/serialization.hpp:13-29 | a number is read back if and only if it fits |
| TuplePack.AtomOfBytes | predicates/vm/tuple.cpp:292-332 | no width is to spare: all bytes of the length of an atom are the bytes of such an atom |
| TuplePack.NodeBytes | predicates/vm/tuple.cpp:313-316 | a node is written in four bytes, lowest first |
| TuplePack.IntBytes | predicates/vm/tuple.cpp:303-307 | an int in four, a negative one in two's complement |
| TuplePack.FloatBytes | predicates/vm/tuple.cpp:308-312 | a float in eight |
| TuplePack.TupleBytesAre | predicates/vm/tuple.cpp:292-332 | the bytes of a tuple: its predicate, then field by field, a list with its length in four bytes in front |
| TuplePack.GetStorageSize | predicates/vm/tuple.cpp:263-289 | the storage size is the number of bytes written: one, and four for an int or node, eight for a float, for a list four and so many for each element |
| TuplePack.PackList | predicates/runtime/list.hpp:124-142 | writes length and elements in place; succeeds exactly if they fit and a byte follows the length |
| TuplePack.Pack | predicates/vm/tuple.cpp:292-332 | succeeds exactly if these bytes fit, with a byte to spare if the last field is an empty list; then it writes exactly the bytes of the tuple |
| TuplePack.ExactlyFull | predicates/vm/tuple.cpp:292-332 | a tuple that ends in an empty list is not packed into a buffer of its size |
| TuplePack.TupleRoundTrip | predicates/vm/tuple.cpp:292-385 | reading the bytes of a tuple gives the tuple, whatever follows |
| TuplePack.UnpackList | predicates/runtime/list.hpp:144-172 | reads a list for any bytes, failing exactly when they run out |
| TuplePack.Unpack | predicates/vm/tuple.cpp:334-385 | reads a tuple for any bytes, failing exactly when they run out |
| TuplePack.PackAndUnpack | predicates/vm/tuple.cpp:263-385 | when packing succeeds, unpacking gives an equal tuple, and both cursors move by the storage size |
| TuplePack.ListEqual | predicates/runtime/list.hpp:203-217 | list equality |
| TuplePack.TupleEqual | predicates/vm/tuple.cpp:71-81 | tuple equality is equality of predicate and all fields |

## Left out

- Memory reclamation, reference counts of lists, pointer tagging and the union layout of fields.
- String fields: in the trie, in packed tuples and in facts of the bytecode.
- Trie printing, `wipeout`, the aggregate trie and its `erase` (its leaves are never to be deleted).
- A trie's `sanity_check`, which is empty.
- `push_safe_linear_queue::pop_list` and reuse of node addresses.
- Activation and termination detection of threads, `busy_wait`, aggregates under stealing, and the priority, direct, dynamic, single and distributed schedulers.
- SchedulerProgress.ComesToRest: while steal requests are answered again and again a tuple can be sent after its node for ever, so the bound is for runs in which none is answered.
- The order in which a node's tuples are consumed: that is the subject of `bounded_pqueue.dfy`.
- RelinkerWalk.InstrPrint: jumps into the middle of an instruction, the printed text and the list of dependencies.
- RelinkerWalk.InstrsPrintEntries: the same.
- RelinkerWalk.InstrsPrint: the same.
- RelinkerWalk.InstrsPrintUntil: the same.
- RelinkerWalk.Relink: the same; nor facts whose lists run past the end of the memory.
- RelinkerWalk.SharedExactly: `NEW_AXIOMS` met three times or more when the linker ids of its predicates stand for other field types in the program that is linked; the walk then reads its facts at other places.
- `instr_print` without recursion, which is the linear sweep itself.
- Trie.TupleTrie.AddChild: the order of siblings is not part of the contracts, because only the set of matches is promised.
- Positions stored in the entries of `heap_queue`, which nothing reads.
- Iterators of the queues, `stack`-to-list builders, `test` and `matches_first_int_arg` of aggregates.
- The negative-count call of `deregister_tuple`.
- Overflow of `ref_count` and of the reference number.
- The bytecode interpreter, parsing, files, sockets, MPI, the user interface, statistics and the simulator.
