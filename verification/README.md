# Verified models of the lock, the transfer protocol and the algorithms of this repository

The main model is the queued spinlock of `qspinlock/`: any number of threads, every access to shared memory one step,
all interleavings. `QSpinlock.dfy` is the step relation, `QSpinlockInv.dfy` the invariant, `QSpinlockSteps.dfy` its
preservation, `QSpinlockRuns.dfy` safety and the refinement of a FIFO lock, `QSpinlockFairness.dfy` bounded overtaking,
deadlock freedom and starvation freedom, `QSpinlockCalls.dfy` what each call does by the words it finds, whatever the
others do meanwhile, and `QSpinlockExample.dfy` one schedule of four threads. Every state that a schedule reaches meets
the invariant, so a statement about states of the invariant is one about all runs. `LockWord.dfy` relates the triple
(tail, pending, locked) to the 32-bit word, `QSpinlockMachine.dfy` executes the steps in place on that word and the node
array, and `Atomics.dfy` shows that the LL/SC loops and the LSE instructions act at one instant, so that any number of
processors' operations can be put in one order.

The second model is the RDMA file transfer: `FileTransfer.dfy` is the protocol over every schedule of both sides and the
network, and `FileTransferHandlers.dfy` has the event handlers on their contexts.

Around them are the repository's fast or stateful forms, each beside a reference definition: bit extraction
(`BitExtract.dfy`, `BitExtractAlgorithms.dfy`), the LRU cache (`LruCache.dfy`), counting sort (`CountSort.dfy`), UTF-8
(`Utf8.dfy`, `Utf8Buffers.dfy`), the ring of line starts (`Tail.dfy`), memoised negamax (`TicTacToe.dfy`, `Negamax.dfy`,
`StrategyStealing.dfy`), Q-learning (`QTable.dfy`, `Episodes.dfy`, `Training.dfy`, `TrainingLoops.dfy`) and the
reference-counted pointer (`SharedPtr.dfy`).

`dafny verify dfyconfig.toml` checks everything.

Where code and documentation disagree, the code is modelled:

- The comment of `set_locked` (`qspinlock/qspinlock.c:190-195`) says that it clears the pending bit. It does not;
  `LockWord.SetLockedComment` says when the comment's transition holds, `QSpinlockExample.SetLockedMeetsPending` reaches
  it where it does not, and the lock is correct either way.
- `encode_utf8` and `decode_utf8` are documented for code points of 31 bits. The decoder also accepts characters that
  are not in shortest form and first bytes 0xFE and 0xFF; `Utf8.EncodeDecode` gives the exact condition under which a
  decoded character is encoded back to its bytes, and `Utf8.OverlongIsAccepted` a character for which it fails.
- The cache of `mysql/l1i-miss/l1i-miss.py` marks unused ways with 0, so an access to line 0 finds an unused way and is
  not counted as a miss. `LruCache.InsertKeepsResident` covers this line too, and `LruCache.FirstAccess` shows the
  effect.

## Model

| member | source | states |
|---|---|---|
| QSpinlockRuns.MutualExclusion | qspinlock/qspinlock.c:222-440 | In every state that any schedule of any number of threads reaches, the locked byte is 1 exactly when some thread is between an acquiring step and its unlock, no two threads are, node counts are 0 or 1, and no thread is at the abort of the nesting check. |
| QSpinlockRuns.AcquireIsExclusive | qspinlock/qspinlock.c:222-440 | Each of the acquiring steps (the fast-path exchanges, the pending hand-over, the re-try before queuing, the head's uncontended exchange, set_locked) finds no holder and makes its thread the only one. |
| QSpinlockSteps.StepInv | qspinlock/qspinlock.c:222-440 | Every step of every thread keeps the lock's invariant: mutual exclusion; the pending byte is set exactly when one thread owns it; the tail names the last thread of the queue; each `next` is the true successor or unset while that successor is between xchg_tail and linking; only the head is past the MCS wait. |
| QSpinlockSteps.UndoKeeps | qspinlock/qspinlock.c:260-267 | clear_pending is made only by the thread that set the pending byte, and keeps the invariant with the byte clear. |
| QSpinlockSteps.TakeKeeps | qspinlock/qspinlock.c:280-289 | The pending hand-over takes a lock that is free, clears its own pending bit only, and keeps the invariant. |
| QSpinlockSteps.ClaimKeeps | qspinlock/qspinlock.c:409-412 | The head's exchange n,0,0 -> 0,0,1 succeeds only when the queue is that thread alone, and leaves an empty queue. |
| QSpinlockSteps.HandoffKeeps | qspinlock/qspinlock.c:424-427 | The hand-off wakes the second of the queue, which waits for just that, and makes it the head. |
| QSpinlockRuns.NodeNotReused | qspinlock/qspinlock.c:298-362 | While a thread is about to link itself behind a node or to wake one, the owner of that node is queued and uses it: no node is re-initialised under a pending write. |
| QSpinlockRuns.StepRefinesFifo | qspinlock/qspinlock.c:222-440 | Each step of the lock is a step of a FIFO lock whose line is the taking pending holder, if any, followed by the queue in xchg_tail order: it joins the line at the end, takes the lock at the front, frees it, or changes nothing. |
| QSpinlockFairness.Fair | qspinlock/qspinlock.c:243-440 | Along every run, as long as a thread waits, the acquisitions so far followed by those now before it are exactly those who stood before it, in order: fast path, trylock and new pending holders pass nobody. |
| QSpinlockFairness.BoundedOvertaking | qspinlock/qspinlock.c:243-440 | Between joining and acquiring, exactly the threads queued before it acquire, in queue order, after at most one pending holder that had seen an empty tail. |
| QSpinlockFairness.HeadGetsSuccessor | qspinlock/qspinlock.c:409-427 | A head that waits for `next` after set_locked has a successor that is linked, about to link, or on its way to xchg_tail with no wait loop before it. |
| QSpinlockFairness.OnlyWaitersSpin | qspinlock/qspinlock.c:280-426 | Whoever turns in a wait loop stands in line, or is the owner waiting for its successor to link. |
| QSpinlockFairness.DeadlockFree | qspinlock/qspinlock.c:222-440 | In every state of the invariant with a thread that is not idle, some such thread has a step that is not a turn of a wait loop. |
| QSpinlockFairness.StarvationFree | qspinlock/qspinlock.c:222-440 | While a thread waits, no schedule contains more than n(2 CALL_STEPS + 2) steps other than turns of wait loops, plus three for each trylock call; and somebody always has such a step. |
| QSpinlockFairness.CallJoins | qspinlock/qspinlock.c:222-362 | Whatever the other threads do, a call of queued_spin_lock stands in line or has the lock before it has made CALL_STEPS steps of its own: no wait loop comes before the line, except the bounded one for the pending bit. |
| QSpinlockCalls.TrylockOutcome | qspinlock/qspinlock.h:75-83 | Whatever the others do before and between its two accesses, a trylock takes the lock exactly if both find the word 0; otherwise it returns at once and has written nothing. |
| QSpinlockCalls.TrylockAlone | qspinlock/qspinlock.h:75-83 | Alone on a free lock, in any state of the invariant, a trylock has the lock after its call, read and exchange. |
| QSpinlockCalls.LockAlone | qspinlock/qspinlock.h:91-99 | A lock call has it after call and exchange. |
| QSpinlockCalls.LockOutcome | qspinlock/qspinlock.c:228-251 | By the word found: 0,0,0 is acquired; 0,0,1 leads to the pending bit; 0,1,0 to the bounded wait; everything else to the queue, with nothing written. |
| QSpinlockCalls.HandOverAwaited | qspinlock/qspinlock.c:234-244 | The wait for a hand-over ends after _Q_PENDING_LOOPS + 1 reads that find 0,1,0, and the call queues; the first read after a finished hand-over leads to the pending bit instead. |
| QSpinlockCalls.PendingOutcome | qspinlock/qspinlock.c:251-288 | The fetch-or makes the caller the pending holder exactly if the bit was clear; it stays so if nobody was queued, has to undo it otherwise, and changes nothing if the bit was set. |
| QSpinlockCalls.UndoOutcome | qspinlock/qspinlock.c:260-267 | The undo finds the bit set, clears it and nothing else, and the call goes on to the queue. |
| QSpinlockCalls.PendingTakes | qspinlock/qspinlock.c:280-289 | The pending holder waits exactly while the lock is held; then, whatever happens in between, it ends inside with the word locked, not pending, and the tail as found. |
| QSpinlockCalls.NodePrepared | qspinlock/qspinlock.c:296-325 | Before it joins, a call has its node counted, unmarked and unlinked, and the lock word not written. |
| QSpinlockCalls.NestingAborts | qspinlock/qspinlock.c:296-313 | A call aborts exactly if its thread's node is in use. |
| QSpinlockCalls.RetryOutcome | qspinlock/qspinlock.c:327-333 | The last try before queuing takes the lock without queuing exactly if both its accesses find the word 0. |
| QSpinlockCalls.JoinOutcome | qspinlock/qspinlock.c:349-360 | xchg_tail keeps pending and locked, puts the caller at the end of the queue, and sends it to link behind the one that was last, or to the head's wait if the queue was empty. |
| QSpinlockCalls.LinkOutcome | qspinlock/qspinlock.c:356-373 | The link is written into the predecessor's node; the wait ends exactly when the own node is marked; the successor taken along is the one linked by then. |
| QSpinlockCalls.HeadOutcome | qspinlock/qspinlock.c:386-412 | The head waits exactly while locked or pending is set; then it goes for the exchange exactly if the queue is itself alone. |
| QSpinlockCalls.ClaimOutcome | qspinlock/qspinlock.c:409-412 | The exchange n,0,0 -> 0,0,1 succeeds exactly if the word is just that, and leaves an empty queue; otherwise the word is as it was and set_locked follows. |
| QSpinlockCalls.SetLockedOutcome | qspinlock/qspinlock.c:419-425 | set_locked finds the lock free and sets locked only; the hand-over follows, or the wait for the successor if it has not linked itself yet. |
| QSpinlockCalls.HandoffOutcome | qspinlock/qspinlock.c:424-440 | The node marked is that of the second of the queue, which becomes the first, and the thread ends inside. |
| QSpinlockCalls.UnlockOutcome | qspinlock/qspinlock.h:105-111 | The unlock frees the lock and changes nothing else, whatever has happened meanwhile. |
| LockWord.DecodeEncode | qspinlock/qspinlock.c:109-124 | decode_tail inverts encode_tail for every legal index; the code is not zero and leaves the low bits clear, so the assertion holds. |
| LockWord.PackInjective | qspinlock/include/qspinlock_types.h:18-74 | The 32-bit word determines tail, pending and locked. |
| LockWord.Tests | qspinlock/qspinlock.c:234-409 | Every comparison and mask test of the source on the word decides the corresponding fact about the triple. |
| LockWord.ClearPending | qspinlock/qspinlock.c:140-143 | Writing the pending byte is *,1,* -> *,0,*. |
| LockWord.ClearPendingSetLocked | qspinlock/qspinlock.c:153-156 | Writing the low halfword is *,1,0 -> *,0,1. |
| LockWord.SetLockedByte | qspinlock/qspinlock.c:196-199 | Writing the locked byte changes nothing else, in set_locked and in the unlock. |
| LockWord.SetLockedComment | qspinlock/qspinlock.c:190-199 | The transition that the comment of set_locked gives, *,*,0 -> *,0,1, holds exactly if the pending bit is clear. |
| QSpinlockExample.SetLockedMeetsPending | qspinlock/qspinlock.c:190-199 | It does happen otherwise: four threads and a schedule by which the head of the queue calls set_locked while the pending bit is set, and the bit is still set afterwards. |
| LockWord.FetchSetPending | qspinlock/qspinlock.c:185-188 | The fetch-or is *,*,* -> *,1,*. |
| LockWord.TailExchange | qspinlock/qspinlock.c:168-177 | Exchanging the upper halfword puts in the thread's tail, and the value returned, shifted, is the old tail's code. |
| QSpinlockMachine.Lock.XchgTail | qspinlock/qspinlock.c:168-177 | The in-place exchange on the word has that effect on the triple. |
| QSpinlockMachine.Machine.Execute | qspinlock/qspinlock.c:222-440 | Executing one access of any thread in place, on the 32-bit word and the node array, is the step of the model on the triple, and keeps the invariant. |
| Atomics.Cell.LlScFetch | qspinlock/include/atomic/atomic_ll_sc.h:67-86 | Whatever others store between and during its turns, the loop finishes in the first undisturbed turn, and a finished fetch-op has replaced the value it returns by op of it at one instant. |
| Atomics.Cell.LlScReturn | qspinlock/include/atomic/atomic_ll_sc.h:46-65 | The same, returning the new value. |
| Atomics.Cell.LlScExchange | qspinlock/include/atomic/cmpxchg.h:40-57 | The exchange loop stores at one instant and returns the value it replaced. |
| Atomics.Cell.LlScCmpxchg | qspinlock/include/atomic/atomic_ll_sc.h:125-157 | The compare-exchange loop stores at one instant if the value is the expected one, and otherwise stores nothing and returns the value seen. |
| Atomics.Cell.TryCmpxchg | qspinlock/include/atomic/atomic.h:137-175 | Over the LL/SC form it succeeds exactly when the store was made; on failure the observed value comes back. |
| Atomics.Cell.LseTryCmpxchg | qspinlock/include/atomic/atomic.h:137-175 | The same over cas. |
| Atomics.Cell.LseFetch | qspinlock/include/atomic/atomic_lse.h:35-166 | The LSE forms, `and` by clearing the complement and `sub` by adding the negation, meet the same one-instant specification. |
| Atomics.Cell.LseReturn | qspinlock/include/atomic/atomic_lse.h:62-141 | So do the add-return and sub-return forms, which add to the fetched value again. |
| Atomics.Cell.LseCmpxchg | qspinlock/include/atomic/atomic_lse.h:175-197 | So does cas. |
| Atomics.OpBits | qspinlock/include/atomic/atomic_ll_sc.h:110-118 | and, or, xor and and-not by what they make of each single bit. |
| Atomics.OpCounts | qspinlock/include/atomic/atomic_ll_sc.h:99-100 | add and sub by counting up and down, with 32-bit wrap-around. |
| Atomics.NoLostUpdate | qspinlock/include/atomic/atomic_ll_sc.h:67-86 | In any history of such operations the cell holds what they give in sequence, and each returned what the ones before it left. |
| Atomics.Linearize | qspinlock/include/atomic/atomic_ll_sc.h:46-86 | Operations of any number of processors, overlapping in any way, each with the one store that the loops and instructions make, can be put in one order in which each returns exactly what those before it left. |
| FileTransfer.StepInv | rdma/03_file-transfer/rdma-file-transfer/server.c:56-130 | Every event, on either side or in the network, keeps the transfer's invariant: one turn exists, and the server's file plus the chunk under way is what the client has read. |
| FileTransfer.Safety | rdma/03_file-transfer/rdma-file-transfer/server.c:84-130 | After every schedule the server's file is a prefix of the client's under the client's name, the whole file once DONE is sent; at most one write is under way, a receive is posted for it, and the client has the server's address. |
| FileTransfer.HandOver | rdma/03_file-transfer/rdma-file-transfer/client.c:70-129 | No buffer, and no message buffer, changes before its last content has been used. |
| FileTransfer.NeverStuck | rdma/03_file-transfer/rdma-file-transfer/client.c:106-129 | Until the client disconnects, some event can happen. |
| FileTransfer.Completion | rdma/03_file-transfer/rdma-file-transfer/client.c:22-129 | No schedule has more than 8 times the file's length plus 19 events, and when none can happen the client has disconnected and the server holds the file under its name, however the reads cut it. |
| FileTransferHandlers.ClientContext.OnCompletion | rdma/03_file-transfer/rdma-file-transfer/client.c:106-129 | The handler, updating its context in place, has the effect of the model's function. |
| FileTransferHandlers.ServerContext.OnCompletion | rdma/03_file-transfer/rdma-file-transfer/server.c:84-130 | The same for the server's handler. |
| BitExtract.ExtractMeans | cpp/pext.cc:45-70 | The data bit at each mask position comes out at the place given by the number of mask bits below it. |
| BitExtract.ExtractEnds | cpp/pext.cc:45-70 | No other bits come out. |
| BitExtract.Chunk | go/bmi/bmi.go:172-195 | Extraction splits at any chunk width: the low bits first, the rest behind the bits those give. |
| BitExtractAlgorithms.GenPextLookupTable | cpp/pext.cc:21-35 | The generated table holds the extraction for every chunk of mask and data, at every width a byte table allows. |
| BitExtractAlgorithms.PextU64Simu | cpp/pext.cc:45-70 | The fixed loop with its early exit gives the extraction for all 64-bit masks and data; shift counts stay below 64. |
| BitExtractAlgorithms.ExtractBitsGo | go/bmi/bmi.go:172-195 | So does the Go loop with its two special cases, with any table that holds the extraction. |
| BitExtractAlgorithms.ExtractBitsNeon | go/bmi/bmi_arm64.s:7-33 | So does the register loop that clears the lowest mask bit. |
| BitExtractAlgorithms.LowestBit | go/bmi/bmi_arm64.s:16-25 | The lowest mask bit, found by negation, selects the lowest bit of the result, and one mask bit goes. |
| LruCache.RecencyOrder | mysql/l1i-miss/l1i-miss.py:34-51 | The reference order lists lines by last use, latest first. |
| LruCache.InsertKeepsResident | mysql/l1i-miss/l1i-miss.py:34-51 | After any trace, line 0 included, a set holds its most recently used distinct lines in that order; an access is found in the set exactly if its line is among them, or is 0 while ways are unused. |
| LruCache.FirstAccess | mysql/l1i-miss/l1i-miss.py:17 | An access to line 0 of an empty cache is not counted, every other first access is. |
| LruCache.MoreWays | mysql/l1i-miss/l1i-miss.py:34-51 | With more ways each set's contents extend the old ones in place, and there are never more misses. |
| LruCache.Placement | mysql/l1i-miss/l1i-miss.py:37-39 | The bytes of a line go to one set, neighbouring lines to neighbouring sets around, and the line of an address is where its line begins. |
| LruCache.RepeatHits | mysql/l1i-miss/l1i-miss.py:34-51 | Right after an access to any byte of a line, no access to that line is a miss. |
| LruCache.CountsMiss | mysql/l1i-miss/l1i-miss.py:41-48 | A miss is counted exactly if the line is not among the contents of its set. |
| LruCache.Cache.InsertClLru | mysql/l1i-miss/l1i-miss.py:34-51 | The in-place shifting loops keep every set and the miss counter so, over the whole trace. |
| CountSort.StableUnique | cpp/sort-range.cc:19-23 | There is one stable order of the indices, so every stable sort agrees with it. |
| CountSort.StableIsPermutation | cpp/sort-range.cc:19-23 | A stable order is a permutation of 0..n-1. |
| CountSort.RanksSort | cpp/sort-range.cc:48-50 | Putting each index at its rank gives the stable order. |
| CountSort.Place | cpp/sort-range.cc:48-50 | The common last loop writes within bounds and produces the stable order. |
| CountSort.CountSortRange | cpp/sort-range.cc:25-51 | count_sort produces the stable order for every non-empty array of long keys whose range fits. |
| CountSort.CountSortBytes | cpp/sort.cc:27-47 | count_sort with the in-place exclusive sums produces the stable order of byte keys. |
| Utf8.DecodeEncode | ceph-utf8/ceph-utf8.c:47-169 | Decoding the encoding of a code point up to 0x7fffffff gives it back, unless it is one of the rejected ones. |
| Utf8.RefusedCodes | ceph-utf8/ceph-utf8.c:160-166 | Of the code points up to 0x7fffffff exactly 0xfffe, 0xffff and 0xd800 to 0xdfff are refused when their encoding is decoded. |
| Utf8.RefusedBytes | ceph-utf8/ceph-utf8.c:149-168 | Of the well-formed characters in shortest form exactly ED A0..BF xx, EF BF BE and EF BF BF are refused. |
| Utf8.EncodeDecode | ceph-utf8/ceph-utf8.c:91-169 | The decoder accepts more than the encoders produce: encoding a decoded character gives the same bytes exactly if its first two bytes show it to be in shortest form with at most six bytes. |
| Utf8.OverlongIsAccepted | ceph-utf8/ceph-utf8.c:136-169 | The two bytes C1 81 decode to 0x41, which is encoded as one byte. |
| Utf8.StreamRoundTrip | ceph-utf8/ceph-utf8.c:267-295 | Decoding and re-encoding a stream gives the same bytes exactly if every character is in shortest form. |
| Utf8.CodesRoundTrip | ceph-utf8/ceph-utf8.c:267-295 | The other way round: accepted code points encoded one after the other are a stream from which the decode loop gets just these code points. |
| Utf8.ScanMeans | ceph-utf8/ceph-utf8.c:267-282 | The decode loop comes through exactly on whole characters that are accepted, and reads past the end exactly behind such characters when the rest is the beginning of one. |
| Utf8Buffers.EncodeUtf8 | ceph-utf8/ceph-utf8.c:47-80 | The loop writes the encoding at the pointer and nothing else, or returns -1 and writes nothing. |
| Utf8Buffers.EncodeUtf8Quick | ceph-utf8/ceph-utf8.c:91-130 | The unrolled encoder meets the same contract, so the two agree in bytes and length on every input. |
| Utf8Buffers.HighBitsSet | ceph-utf8/ceph-utf8.c:28-38 | The shifting loop counts the ones a byte starts with. |
| Utf8Buffers.DecodeUtf8 | ceph-utf8/ceph-utf8.c:136-169 | The loop gives the code point or the error value, for every count of bytes, and reads past the end of the buffer exactly if all the bytes left begin a character of that length. |
| Utf8Buffers.Validate | ceph-utf8/ceph-utf8.c:259-296 | For any bytes: the two stream loops pass exactly if the data is accepted characters in shortest form; they read past the end exactly if it is accepted characters and then the beginning of one cut short; otherwise an assertion stops them. No write is out of bounds. |
| Tail.HoldsNext | tlpi/tail.c:36-45 | Updating the two ring indices and one slot appends a line start, and drops the oldest exactly when the ring is full. |
| Tail.Ring.ParseNewline | tlpi/tail.c:31-49 | After any buffer the ring holds the newest line starts of the whole text, in order, for every ring size from 1. |
| Tail.Seek | tlpi/tail.c:51-90 | For any division of the file into reads, the offset sought is the start of a line, and the text from there on has exactly the lines asked for, 10 for a number below 1, or all lines. |
| Tail.LastLines | tlpi/tail.c:89-94 | From that offset on the text has exactly the lines asked for, or all of them, and the offset is the start of a line. |
| Tail.StartsMean | tlpi/tail.c:31-49 | Line starts are offset 0 and every place behind a newline where a character follows, in order. |
| TicTacToe.WinnerOwnsLine | rl-ttt/rl_ttt/game.py:84-96 | The winner owns a line, and there is no winner exactly if neither side owns one. |
| TicTacToe.TerminalMeans | rl-ttt/rl_ttt/game.py:84-112 | The game is over exactly if somebody owns a line or no cell is empty; the reward is 1 only with a line of the side to move, -1 only with one of the other side, and 0 exactly if nobody owns one. |
| TicTacToe.MoveReward | rl-ttt/rl_ttt/game.py:84-112 | A move in a running game is rewarded with 1 exactly if it gives its side a line, and otherwise with 0. |
| TicTacToe.ClassicLines | rl-ttt/rl_ttt/game.py:39-43 | The eight lines are exactly the rows, the columns and the two diagonals. |
| TicTacToe.FlipTerminal | rl-ttt/rl_ttt/game.py:76-112 | Changing the perspective negates the reward and changes nothing else; twice is the identity. |
| TicTacToe.ChildEmpties | rl-ttt/rl_ttt/game.py:61-81 | A move and a change of perspective take one empty cell, so recursion ends. |
| Negamax.ScanBest | rl-ttt/rl_ttt/opponents.py:84-95 | The loop over the moves finds the first of the best ones. |
| Negamax.Solver.Search | rl-ttt/rl_ttt/opponents.py:69-95 | With the memo table, which holds only values of the plain recursion, the search returns what the plain recursion does. |
| Negamax.BestAction | rl-ttt/rl_ttt/opponents.py:52-67 | While the game goes on the chosen move is legal, none is worth more, and every lower-numbered one is worth less. |
| Negamax.WinIsTaken | rl-ttt/rl_ttt/opponents.py:69-95 | Where a move completes a line, minimax_player's move wins. |
| Negamax.ThreatIsMet | rl-ttt/rl_ttt/opponents.py:69-95 | A move after which the opponent can complete a line loses, and minimax_player makes one only if every move loses. |
| Negamax.Guarantee | rl-ttt/rl_ttt/opponents.py:52-95 | Against any legal opponent, whose moves may depend on the whole game, the player gets at least the value of the position, and as second player concedes at most it. |
| Negamax.Optimal | rl-ttt/rl_ttt/opponents.py:52-95 | So no strategy guarantees more, and two such players get exactly the value. |
| StrategyStealing.ExtraMark | rl-ttt/rl_ttt/opponents.py:69-95 | An extra mark never harms its owner, whoever is to move. |
| StrategyStealing.FirstMoverIsSafe | rl-ttt/rl_ttt/opponents.py:52-95 | So the empty board is worth at least a draw to the first player, for every board and set of lines. |
| StrategyStealing.PerfectNeverLosesFirst | rl-ttt/rl_ttt/opponents.py:52-95 | As first mover minimax_player never loses, against any legal opponent. |
| ClassicDraw.AnsweredIsSafe | rl-ttt/rl_ttt/opponents.py:69-95 | Where the strategy that wins, blocks, or else takes center, corner or edge is followed through, the first player gets at most a draw. |
| ClassicDraw.ClassicIsDraw | rl-ttt/rl_ttt/opponents.py:52-95 | The 3 by 3 board is worth 0. |
| ClassicDraw.PerfectNeverLoses | rl-ttt/rl_ttt/opponents.py:52-95 | On it minimax_player never loses, as first or as second mover, against any legal opponent whatever its moves depend on, and two such players always draw. |
| QTable.UpdateKeeps | rl-ttt/rl_ttt/agent.py:103-127 | For alpha and gamma in [0, 1] every transition of an episode can be learned, and keeps all values in [-1, 1] and the mask equal to the occupied cells. |
| QTable.UpdateMeans | rl-ttt/rl_ttt/agent.py:103-127 | An update sets one value to (1 - alpha) of the old one plus alpha times the reward and, before the end, gamma times the value of a legal action on the next board that none beats; no other value changes. |
| QTable.UnseenValues | rl-ttt/rl_ttt/agent.py:50-65 | A board that the table does not hold has the value 0 for its legal actions and none for the others. |
| QTable.CandidatesAreMaximal | rl-ttt/rl_ttt/agent.py:93-99 | The candidates of the greedy choice are exactly the legal actions that none beats, and there is one. |
| QTable.LearnsTowards | rl-ttt/rl_ttt/agent.py:103-127 | An update changes one entry, which keeps the part 1 - alpha of its distance to the target. |
| QTable.TargetIsBest | rl-ttt/rl_ttt/agent.py:119-127 | Before the end of the game the target is gamma times the value of a legal action on the next board that none beats. |
| Training.QLearningAgent.SelectAction | rl-ttt/rl_ttt/agent.py:78-99 | It fails exactly on boards without legal moves. If the first random number is below the exploration rate it gives the legal move that the second one picks, and otherwise the one it picks among the best; it changes no value of the table. |
| Training.QLearningAgent.Update | rl-ttt/rl_ttt/agent.py:103-127 | The in-place update sets one value to (1 - alpha) of the old one plus alpha times the reward and, before the end, gamma times the best legal value of the next board, and changes no other. |
| Training.RandomMove | rl-ttt/rl_ttt/opponents.py:35-47 | It fails exactly on boards without legal moves, and otherwise gives the legal move that the random number picks. |
| Training.RunEpisode | rl-ttt/rl_ttt/train.py:87-142 | What is played is a game: legal moves by turns from the empty board until it is over. The outcome is the last mover's reward, negated if that is not the trainee. In training the table afterwards is the old one after learning the trainee's experience of this very game, one transition for each of its moves, and otherwise it is the old one; at rate 0 the trainee's moves are the best ones of the table at that moment, and minimax_player's are its own. |
| Episodes.GameResult | rl-ttt/rl_ttt/train.py:87-142 | The outcome of a game is 1 exactly if the trainee's own moves fill a line, -1 exactly if the opponent's do, never both, and otherwise 0 with every cell taken. |
| Episodes.ExperienceMeans | rl-ttt/rl_ttt/train.py:107-142 | The trainee's experience has one transition for each of its moves, in order: the board it moved on, the move, and either no reward and the board of its next move, or, for the last, the outcome; each board shows the trainee's marks as 1. |
| Episodes.ExperienceExists | rl-ttt/rl_ttt/train.py:107-142 | There is something to learn from a game exactly if the trainee has moved in it. |
| Episodes.GameIsLearnable | rl-ttt/rl_ttt/train.py:107-142 | Every transition of a game's experience has a free action, a reward only at the end, and otherwise a next board with legal moves: neither select_action nor the bootstrap fails. |
| Episodes.MinimaxConcedesNothing | rl-ttt/rl_ttt/opponents.py:52-95 | In a game against minimax_player the trainee never gets more than the value of the empty board in its view. |
| TrainingLoops.Evaluate | rl-ttt/rl_ttt/train.py:147-173 | It plays exactly the games asked for, with the trainee's best moves by the table; the results times the number of games are the numbers of games with outcome 1, 0 and -1, and win is 0 against minimax_player where the empty board is a draw. The exploration rate and all values are as before. |
| TrainingLoops.SharesAddUp | rl-ttt/rl_ttt/train.py:160-173 | The shares are not negative and add up to 1. |
| TrainingLoops.NoWinAgainstMinimax | rl-ttt/rl_ttt/train.py:147-173 | On boards whose empty position is a draw, no table wins an evaluation game against minimax_player. |
| TrainingLoops.ClassicNoWin | rl-ttt/rl_ttt/train.py:147-173 | On the 3 by 3 board evaluation against minimax_player never finds a win, whatever the table. |
| TrainingLoops.NoWinAsSecond | rl-ttt/rl_ttt/train.py:147-173 | On every board no evaluation game is won that minimax_player began. |
| TrainingLoops.TrainingLoop | rl-ttt/rl_ttt/train.py:279-320 | Exactly the configured number of episodes is played, each at its scheduled rate, and the table is what those games teach one after the other. The history has an entry after each multiple of eval_every and after the last episode and no other, in order, and each reports evaluation games played with the table and the rate of that point. |
| TrainingLoops.ScheduleSteps | rl-ttt/rl_ttt/train.py:68-82 | The schedule is eps_start at episode 0, goes on in equal steps, and is eps_end from the end of the decay on. |
| SharedPtr.DropKeeps | cpp/shared-ptr.cc:13-21 | Dropping a handle keeps counters equal to the number of live handles, and deletes the object exactly if it was the last. |
| SharedPtr.ShareKeeps | cpp/shared-ptr.cc:31-35 | Sharing keeps the invariant and deletes nothing. |
| SharedPtr.ReassignKeeps | cpp/shared-ptr.cc:38-46 | Assignment deletes the object that loses its last handle and no other; between co-owners it deletes nothing. |
| SharedPtr.NewKeeps | cpp/shared-ptr.cc:24-28 | The normal constructor starts an object with one handle, or an empty handle. |
| SharedPtr.Program.Assign | cpp/shared-ptr.cc:38-46 | The assignment operator on the heap has that effect. |
| SharedPtr.Program.Destroy | cpp/shared-ptr.cc:48-50 | So has the destructor. |
| SharedPtr.Program.Copy | cpp/shared-ptr.cc:31-35 | And the copy constructor. |

## Left out

- Weak memory: the lock is modelled under sequential consistency, with one step per access; acquire and release labels,
  barriers and prefetches have no state.
- One lock only: a thread that uses its node for several locks at different times is not modelled.
- The paravirtual case, nested contexts and the tail index bits, which stay zero in user space.
- `mcs_spin_lock` and `mcs_spin_unlock` of `qspinlock/include/mcs_spinlock.h`: a plain queue lock whose discipline is
  that of the queue modelled here.
- The 8, 16 and 64-bit variants of exchange and compare-exchange, and the casts of narrow values.
- LockWord.Tests: words are numbers; a mask of contiguous bits is a remainder or quotient, not a bit operation.
- QSpinlockFairness.StarvationFree: bounds the steps that are not turns of wait loops; a scheduler that runs spinning
  threads only is not excluded, and each trylock call adds to the bound, because the source itself gives no fairness of
  scheduling. The part of a call before the line is CallJoins.
- Verbs and connection set-up in `rdma/`; the channel is reliable and places data before the completion with its
  immediate value. Failures of open, read and write end the program. File names are taken to fit the server's array.
- BitExtractAlgorithms.ExtractBitsGo: takes the table as a parameter that holds the extraction of every chunk, as
  GenPextLookupTable makes it; the 1024 literal entries of `go/bmi/bmi.go` are not copied.
- BitExtractAlgorithms.PextU64Simu: a shift by a variable count is defined one place at a time, which is the machine's
  shift for the counts that occur; register moves and the calling convention of the assembly version are not modelled.
- The random and LFU policies of the cache simulation, and the parsing of its input.
- CountSort.CountSortRange: asks that the keys are not empty and that their range fits, because the minimum of nothing
  and a range beyond long overflow in the source.
- CountSort.CountSortBytes: asks for fewer than 2^32 elements, because the index variable is 32 bits wide.
- Bytes and code points of the UTF-8 functions are numbers, with bit operations as arithmetic. Reading past a buffer is
  an outcome of its own, and what the program does after it is not modelled.
- Tail.Seek: offsets are not bounded, the source's int offset is; interrupted reads, and the copying of the rest of the
  file to the output.
- Play against an illegal mover: minimax and the training loop are modelled against legal players. Players other than
  random_player, minimax_player and self-play, and the callback after each episode, are not modelled.
- TrainingLoops.Evaluate: asks for at least one game, because the source divides by their number.
- TrainingLoops.TrainingLoop: asks that eval_every is not 0 if there are episodes, because the source divides by it.
- Rounding in the Q-table: values are reals. Pickling, plotting, export, command line and web interface.
- Random numbers are parameters or arbitrary choices; nothing is said about probabilities or convergence.
- Copying and assigning from an empty handle, and `free`, in `cpp/shared-ptr.cc`, which the source does not guard.
- Benchmarks, drivers, sockets, mmap, signals, Kubernetes, CMake and Java programs, and the small programs whose
  properties would be easy.
