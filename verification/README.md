# Verified models of the coroutine library, the thread pool and the region allocator

Dafny models of four components, each with the properties its callers rely on.

* **Intrusive ordered trees** (`nty_tree.h`). Node objects with left, right, parent and colour fields are changed in
  place. A ghost value, `tree`, is the tree the objects form; `Shaped()` says that every field of every member holds
  exactly what `tree` prescribes. Positions are a subtree together with the path above it (a one-hole context), so that
  each rotation and relinking is a local change; `Zippers` holds what both kinds of tree share. `RbShape`, `RbRules`,
  `RbTree` and `RbSearch` are the red-black tree, `SplayShape`, `SplayDepth` and `SplayTree` the splay tree; `Entries`
  describes both by the sequence of members from left to right.
* **The scheduler** (`nty_schedule.c`, `nty_coroutine.c`, `nty_socket.c`, `nty_queue.h`). `Schedule` holds the coroutine
  and the scheduler, `ScheduleRules` what every step keeps, `ScheduleRun` the run loop with bodies that create, yield,
  wait and end, `ScheduleSleep` the sleep tree, the pass over expired sleepers and the poll timeout, and `SchedulePlaces`
  what sleeping does to the other containers. A body is any finite series of library calls, which its turns carry out.
  The queue is a sequence and the trees are maps; `TailQueue`, `OrderedMap` and `TreeMap` justify that.
* **The thread pool** (`thrd_pool.c`, `spinlock.h`). `ThreadPool` is a state machine: any number of workers and callers
  and one thread that waits for the end, one step for each access to shared memory. `ThreadPoolSafety` and
  `ThreadPoolTasks` hold the inductive invariant, `ThreadPoolRuns` the theorems over whole runs, `ThreadPoolCalls` those
  about what every call comes to, `ThreadPoolSignals` says when no wake-up is lost, `ThreadPoolLostSignal` is a run that
  loses one.
* **The region allocator** (`mmpool-success.c`). `PoolHeap` is the allocator below, which may fail at any time,
  `PoolNodes` the arithmetic of nodes, failure counts, regions and records, `MemPool` the operations.

Addresses and sizes are those of a 64-bit target: a node header has 32 bytes, the pool header 24, a large-block record 16.
A predicate written `var ok := ...; ok` is a conjunction that proofs carry as a whole.

Five results say where the code falls short. The fit test of the region allocator is an unsigned subtraction: a request
whose aligned start lies past the end of its node is granted, `PoolNodes.Overshoot` gives one, and
`PoolNodes.GaveInside` says that a region lies inside its node exactly when it starts there. The poll timeout drops
everything below a second once it reaches one second (`ScheduleSleep.TimeoutShort`, `ScheduleSleep.TimeoutOneSecondShort`).
Before the shutdown a posted task can stay in the queue while every worker sleeps (`ThreadPoolLostSignal.SignalLost`);
`ThreadPoolSignals.ServedRun` says that it does not exactly when no signal is given to nobody. A coroutine that ends
while in the sleep tree stays there: `ScheduleSleep.RunKept` says that the tree is in order exactly when none does. One
that yields while in the sleep tree can be resumed while it is queued and be queued twice (`SchedulePlaces.QueuedTwice`);
`SchedulePlaces.RunPlaced` says that everybody is in one place exactly when no expiry meets a queued coroutine.

## Model

| member | source | states |
|---|---|---|
| RbTree.RbTree.RotateLeft | cppNetwork/NtyCo/core/nty_tree.h:325-343 | in place, all links, parent links and the root become those of the rotated tree; same node objects |
| RbTree.RbTree.RotateRight | cppNetwork/NtyCo/core/nty_tree.h:346-364 | mirror image of the left rotation |
| Zippers.RotatedInorder | cppNetwork/NtyCo/core/nty_tree.h:325-364 | a rotation keeps the order of the entries |
| RbTree.RbTree.InsertColor | cppNetwork/NtyCo/core/nty_tree.h:390-431 | from "the only broken rule is red elm under a red parent or as root", every red-black rule is restored, entries and node objects stay, at most two rotations; the loop moves towards the root |
| RbTree.RbTree.InsertColorLeft | cppNetwork/NtyCo/core/nty_tree.h:396-411 | one round below a left parent leaves the possibly broken position nearer to the root, or nothing broken |
| RbTree.RbTree.InsertColorRight | cppNetwork/NtyCo/core/nty_tree.h:412-428 | the same below a right parent |
| RbRules.UncleRed | cppNetwork/NtyCo/core/nty_tree.h:398-403 | recolouring under a red uncle moves the only possible breakage to the grandparent |
| RbRules.InnerRotated | cppNetwork/NtyCo/core/nty_tree.h:404-409 | rotating an inner child outward keeps the only breakage where it was |
| RbRules.OuterRotated | cppNetwork/NtyCo/core/nty_tree.h:410-411 | recolouring and rotating the grandparent leaves nothing broken below a black node |
| RbTree.RbTree.Insert | cppNetwork/NtyCo/core/nty_tree.h:579-606 | either the member with the same key comes back and nothing changed, or exactly that node object is entered at its place in the order and the tree is valid |
| RbTree.RbTree.RemoveColor | cppNetwork/NtyCo/core/nty_tree.h:433-509 | from "one black node short through elm", every rule is restored, entries and node objects stay; a red sibling costs one rotation and then the loop ends, at most three rotations in all |
| RbTree.RbTree.RemoveColorLeft | cppNetwork/NtyCo/core/nty_tree.h:439-471 | one round for a short left child repairs the tree, or makes a nearer or a red position the short one |
| RbTree.RbTree.RemoveColorRight | cppNetwork/NtyCo/core/nty_tree.h:472-504 | the same for a short right child |
| RbRules.RemoveBreaks | cppNetwork/NtyCo/core/nty_tree.h:560-574 | taking out a black node with at most one child leaves one short position; a red one breaks nothing |
| RbRules.ShortSibling | cppNetwork/NtyCo/core/nty_tree.h:440-450 | a short position has a sibling, and a red sibling has two black children, so the unchecked reads are safe |
| RbRules.SiblingRed | cppNetwork/NtyCo/core/nty_tree.h:441-445 | raising a red sibling keeps the position short, now under a red parent with a black sibling |
| RbRules.NephewsBlack | cppNetwork/NtyCo/core/nty_tree.h:446-452 | reddening a sibling with black children moves the shortage to the parent |
| RbRules.NearRed | cppNetwork/NtyCo/core/nty_tree.h:454-463 | raising a red inner nephew keeps the position short, now with a red outer nephew |
| RbRules.FarRed | cppNetwork/NtyCo/core/nty_tree.h:464-470 | raising the sibling of a red outer nephew repairs everything |
| RbTree.RbTree.RelinkSuccessor | cppNetwork/NtyCo/core/nty_tree.h:520-551 | with two children the successor object is taken out and relinked in the place of the removed one |
| RbTree.RbTree.Remove | cppNetwork/NtyCo/core/nty_tree.h:511-576 | removing any member of a valid tree leaves a valid tree of exactly the other node objects in the same order |
| RbRules.SuccessorEntries | cppNetwork/NtyCo/core/nty_tree.h:520-551 | relinking the successor takes exactly the removed entry out of the order |
| RbRules.SuccessorRules | cppNetwork/NtyCo/core/nty_tree.h:520-574 | relinking the successor breaks at most what taking the successor out breaks |
| RbRules.HeightBound | cppNetwork/NtyCo/core/nty_tree.h:584-644 | n + 1 >= 2^(black height) and height <= 2 * black height, so 2^height <= (n + 1)^2 |
| RbRules.SearchBound | cppNetwork/NtyCo/core/nty_tree.h:584-644 | a search path in a tree of n nodes has at most 2 * log2(n + 1) nodes |
| RbTree.RbTree.InsertionPoint | cppNetwork/NtyCo/core/nty_tree.h:579-598 | the descent of insert finds the member with the key, or the empty position it belongs in; the nodes compared are those of the search path |
| RbSearch.Find | cppNetwork/NtyCo/core/nty_tree.h:609-623 | the member with the key, null exactly when there is none; the nodes compared are those of the search path |
| RbSearch.NFind | cppNetwork/NtyCo/core/nty_tree.h:626-644 | the least member not below the key, null exactly when all are below; the nodes compared are those of the search path |
| RbSearch.MinMax | cppNetwork/NtyCo/core/nty_tree.h:690-703 | the first or the last member of the order, null for an empty tree |
| RbSearch.Next | cppNetwork/NtyCo/core/nty_tree.h:647-666 | the member after this one in key order, null after the last |
| RbSearch.Prev | cppNetwork/NtyCo/core/nty_tree.h:669-688 | the member before this one, null before the first |
| RbSearch.NextThenPrev | cppNetwork/NtyCo/core/nty_tree.h:647-688 | stepping back undoes stepping forward |
| RbSearch.ForEach | cppNetwork/NtyCo/core/nty_tree.h:717-720 | the loop from the least member visits every member once, in increasing order, and ends |
| RbSearch.ForEachReverse | cppNetwork/NtyCo/core/nty_tree.h:732-735 | the loop from the greatest member visits every member once, in decreasing order |
| SplayTree.SplayTree.RotateRight | cppNetwork/NtyCo/core/nty_tree.h:73-77 | the middle tree is rotated in place, the side trees stay |
| SplayTree.SplayTree.RotateLeft | cppNetwork/NtyCo/core/nty_tree.h:79-83 | mirror image |
| SplayTree.SplayTree.LinkLeft | cppNetwork/NtyCo/core/nty_tree.h:85-89 | the middle root and its right subtree are hung at the open end of the right side tree |
| SplayTree.SplayTree.LinkRight | cppNetwork/NtyCo/core/nty_tree.h:91-95 | mirror image for the left side tree |
| SplayTree.SplayTree.Assemble | cppNetwork/NtyCo/core/nty_tree.h:97-102 | the dummy node's two trees become the subtrees of the middle root; nothing is lost or shared |
| SplayShape.AssembledInorder | cppNetwork/NtyCo/core/nty_tree.h:97-102 | assembly puts left side tree, middle tree and right side tree in that order |
| SplayShape.PartedLink | cppNetwork/NtyCo/core/nty_tree.h:85-95 | what is linked to a side tree lies on that side of the key, and the order of all entries is kept |
| SplayShape.PartedNearest | cppNetwork/NtyCo/core/nty_tree.h:197-220 | when the loop stops, the assembled root has the key or is its neighbour in the order |
| SplayDepth.LeftHalves | cppNetwork/NtyCo/core/nty_tree.h:197-207 | a round for a key below the root passes one node of the search path, or two when it rotates, and links one node: the side trees stay at most half as deep as the path passed |
| SplayDepth.RightHalves | cppNetwork/NtyCo/core/nty_tree.h:208-217 | the same for a key above the root |
| SplayDepth.AssembledShorter | cppNetwork/NtyCo/core/nty_tree.h:189-221 | after the assembly every node of the search path is within half its depth and two |
| SplayTree.SplayTree.Splay | cppNetwork/NtyCo/core/nty_tree.h:189-221 | for any key, terminates with the same node objects in the same order and a root that has the key, or else is its immediate predecessor or successor; every node that a search for the key would have met at depth i is then at depth i / 2 + 2 or less |
| SplayTree.SplayTree.MinMax | cppNetwork/NtyCo/core/nty_tree.h:223-254 | the first or last entry becomes the root; same objects, same order, and the path to it is half as deep |
| SplayTree.SplayTree.MinOrMax | cppNetwork/NtyCo/core/nty_tree.h:137-141 | the first or last member, null for an empty tree |
| SplayTree.SplayTree.Find | cppNetwork/NtyCo/core/nty_tree.h:115-122 | the member with the key, null exactly when there is none; it ends up as the root |
| SplayTree.SplayTree.Next | cppNetwork/NtyCo/core/nty_tree.h:124-135 | the member after this one, null after the last; same objects, same order |
| SplayTree.SplayTree.Insert | cppNetwork/NtyCo/core/nty_tree.h:146-166 | the member with the same key comes back with all members as before, or exactly the node object is entered in order, as the root |
| SplayTree.SplayTree.Remove | cppNetwork/NtyCo/core/nty_tree.h:168-187 | the member with the key leaves, and only that one; the argument comes back, null when the key is absent |
| SplayTree.SplayTree.RemoveRoot | cppNetwork/NtyCo/core/nty_tree.h:174-184 | both ways of joining the subtrees of the removed root leave exactly the other entries in order |
| SplayShape.NearestLast | cppNetwork/NtyCo/core/nty_tree.h:178-181 | splaying the left subtree for the removed key leaves a root without a right child |
| SplayTree.SplayTree.ForEach | cppNetwork/NtyCo/core/nty_tree.h:268-271 | although each step restructures the tree, every member is visited once, in increasing order |
| OrderedMap.LookUp | cppNetwork/NtyCo/core/nty_tree.h:609-623 | read as a map, the entries hold a key exactly when a member has it, with that member |
| OrderedMap.InsertAdds | cppNetwork/NtyCo/core/nty_tree.h:579-606 | entering a member is a map update |
| OrderedMap.RemoveTakesOut | cppNetwork/NtyCo/core/nty_tree.h:511-576 | taking a member out removes its key |
| OrderedMap.LeastFirst | cppNetwork/NtyCo/core/nty_tree.h:690-703 | the first member has the least key |
| TreeMap.Find | cppNetwork/NtyCo/core/nty_schedule.c:90-140 | the tree's find is the look-up of the scheduler's maps |
| TreeMap.Insert | cppNetwork/NtyCo/core/nty_schedule.c:98-172 | the tree's insert is the update of the scheduler's maps, or reports the holder of the key |
| TreeMap.Remove | cppNetwork/NtyCo/core/nty_schedule.c:92-142 | the tree's remove takes one key out of the scheduler's maps |
| TreeMap.Min | cppNetwork/NtyCo/core/nty_schedule.c:251-272 | the tree's minimum is the least key of the scheduler's map |
| TailQueue.LinkedOnce | cppNetwork/NtyCo/core/nty_queue.h:398-413 | a queue head holds one sequence only |
| TailQueue.Init | cppNetwork/NtyCo/core/nty_queue.h:486-490 | the head holds the empty queue |
| TailQueue.First | cppNetwork/NtyCo/core/nty_queue.h:463-463 | the first element, null for an empty queue |
| TailQueue.Last | cppNetwork/NtyCo/core/nty_queue.h:551-552 | reading the owner of the last slot as a head gives the last element, null for an empty queue |
| TailQueue.Next | cppNetwork/NtyCo/core/nty_queue.h:554-554 | the element after this one |
| TailQueue.Prev | cppNetwork/NtyCo/core/nty_queue.h:556-557 | reading the owner of the previous slot as a head gives the element before this one, null for the first |
| TailQueue.InsertHead | cppNetwork/NtyCo/core/nty_queue.h:528-538 | the queue holds elm and then what it held |
| TailQueue.InsertTail | cppNetwork/NtyCo/core/nty_queue.h:540-549 | the queue holds what it held and then elm |
| TailQueue.InsertAfter | cppNetwork/NtyCo/core/nty_queue.h:492-505 | elm is entered right after the given element |
| TailQueue.InsertBefore | cppNetwork/NtyCo/core/nty_queue.h:507-515 | elm is entered right before the given element, without the head being named |
| TailQueue.Remove | cppNetwork/NtyCo/core/nty_queue.h:559-573 | the queue holds the other elements in order |
| TailQueue.Concat | cppNetwork/NtyCo/core/nty_queue.h:451-459 | the first queue holds both sequences, the second none |
| TailQueue.Swap | cppNetwork/NtyCo/core/nty_queue.h:575-590 | the two heads exchange their sequences, also when one is empty or both are the same |
| TailQueue.ForEach | cppNetwork/NtyCo/core/nty_queue.h:465-468 | visits the elements in order |
| TailQueue.ForEachReverse | cppNetwork/NtyCo/core/nty_queue.h:475-478 | visits the elements from the last to the first |
| ScheduleRules.InOnePlace | cppNetwork/NtyCo/core/nty_schedule.c:316-368 | no coroutine is lost: a suspended one is in exactly one of the ready queue and the wait tree, there under its descriptor |
| ScheduleRules.BodyMade | cppNetwork/NtyCo/core/nty_coroutine.c:214-255 | the calls a coroutine made in its turns, and then those still to come, are the calls of its body: none is skipped, made twice or made out of order, and one that has ended and was freed has made them all |
| ScheduleRules.FifthRenice | cppNetwork/NtyCo/core/nty_coroutine.c:214-265 | in the calls between two suspensions, or before the end, a renice suspends exactly if it is the fifth |
| ScheduleRules.TurnStretch | cppNetwork/NtyCo/core/nty_coroutine.c:226-255 | the calls of every turn of a run are such a stretch |
| ScheduleRun.Create | cppNetwork/NtyCo/core/nty_coroutine.c:299-349 | a new coroutine with the given body is at the end of the ready queue, and nothing else has changed there or in the wait tree |
| ScheduleRun.Renice | cppNetwork/NtyCo/core/nty_coroutine.c:258-265 | it yields exactly when four calls that did not yield came before since the coroutine last went on, and then the coroutine is last in the ready queue; a call that does not yield only counts one more |
| ScheduleRun.Requeue | cppNetwork/NtyCo/core/nty_coroutine.c:268-273 | a sleep of zero puts the caller last in the ready queue and yields |
| ScheduleRun.Poll | cppNetwork/NtyCo/core/nty_socket.c:93-106 | the caller is in the wait tree under the descriptor; the assertions of nty_schedule_sched_wait hold |
| ScheduleRun.PollEnd | cppNetwork/NtyCo/core/nty_socket.c:108-116 | after the yield the caller leaves the wait tree and no other; its cleared status finds it in no sleep tree |
| ScheduleRun.MakeCall | cppNetwork/NtyCo/core/nty_coroutine.c:258-349 | what each library call does: who is created with which body, queued, entered in the wait tree or marked, and whether it suspends; all else stays |
| ScheduleRun.Body | cppNetwork/NtyCo/core/nty_coroutine.c:214-224 | from one resumption on the calls of the body are made one after the other, each with the effect of that call, up to the first that suspends or to the end of the body; every other waiter stays, later arrivals queue behind in order, nobody else makes a call or has a turn |
| ScheduleRun.Renew | cppNetwork/NtyCo/core/nty_coroutine.c:228-230 | a new coroutine has its context set up at its first turn, and at no other: then it is new no longer |
| ScheduleRun.Resume | cppNetwork/NtyCo/core/nty_coroutine.c:226-255 | a resumption is one turn, with the status at its start and the calls made, whose effects, from leaving the wait tree to the end, are all that it does; after it every live coroutine is in its place again with its renices counted from zero, and one is freed exactly when its body has made its last call without being suspended |
| ScheduleRun.Free | cppNetwork/NtyCo/core/nty_coroutine.c:175-188 | a freed coroutine is in no container, and it has ended or had the end-of-file bit in the queue |
| ScheduleRun.ReadyPass | cppNetwork/NtyCo/core/nty_schedule.c:329-341 | the pass ends; the turns it adds to the history of all turns are those of the coroutines queued at its start, in order, each resumed, or of those up to the first that has the end-of-file bit at its turn, which is freed; what arrived meanwhile is behind the rest, in order of arrival |
| ScheduleRun.TakeTurn | cppNetwork/NtyCo/core/nty_schedule.c:331-339 | the first of the queue has its turn: it is freed exactly when it has the end-of-file bit then, which it got in the queue, and resumed otherwise |
| ScheduleRun.PassEnds | cppNetwork/NtyCo/core/nty_schedule.c:329-340 | the coroutine queued last is met only at its place, and then the pass is over |
| ScheduleRun.EventPass | cppNetwork/NtyCo/core/nty_schedule.c:345-362 | the turns added are, last event first, exactly those of the coroutines that waited for the descriptors when the batch was taken, whatever the earlier ones did, with the end-of-file bit as the event says |
| ScheduleRun.Epoll | cppNetwork/NtyCo/core/nty_schedule.c:283-314 | epoll is asked exactly when nobody is ready, for up to three seconds as nobody sleeps; its report, which is recorded, has the first of the events there are for each registered descriptor |
| ScheduleRun.IsDone | cppNetwork/NtyCo/core/nty_schedule.c:261-266 | empty containers mean that no coroutine is left |
| ScheduleRun.Run | cppNetwork/NtyCo/core/nty_schedule.c:316-368 | a chain of rounds from the first state to the last: each begins with the queue, wait tree and history the one before left, passes once through the ready queue, asks epoll if nobody is ready then, and answers every event of its report; between rounds no coroutine is lost. When the loop ends, the coroutines ever created are exactly those that have ended, having made in their turns all calls of their bodies in order, and those that got the end-of-file bit while queued, and none is both; if none got it there, all have ended, every turn was a resumption and every pass took the whole queue |
| ScheduleRun.NobodyLeft | cppNetwork/NtyCo/core/nty_schedule.c:261-266 | with empty containers the coroutines ever created are exactly those that have ended and those marked in the queue, and none is both; those that ended made all calls of their bodies, in order |
| ScheduleRun.NobodyMarked | cppNetwork/NtyCo/core/nty_schedule.c:329-341 | if no coroutine gets the end-of-file bit while it is queued, every turn of a run is a resumption and no pass is cut short |
| ScheduleRun.TurnsGiven | cppNetwork/NtyCo/core/nty_schedule.c:316-368 | the turns of a chain of rounds are, in order, those of their passes and of their events, and no others |
| ScheduleSleep.StaleUnheld | cppNetwork/NtyCo/core/nty_schedule.c:90-93 | the stale deadline of an awake coroutine is held by no sleeper, so the find can only find the caller |
| ScheduleSleep.EndKept | cppNetwork/NtyCo/core/nty_coroutine.c:175-188 | freeing a coroutine, which leaves the sleep tree as it is, keeps the rules of the tree exactly when the coroutine is not in it |
| ScheduleSleep.RunKept | cppNetwork/NtyCo/core/nty_schedule.c:87-109 | the rules of the sleep tree hold in all states of a run of creations, expiries, ends and sleeps by any coroutines exactly when nobody ends while in the tree |
| ScheduleSleep.RunSleeps | cppNetwork/NtyCo/core/nty_schedule.c:87-109 | in such a run no sleeper has the stale deadline of a coroutine that is awake; a caller that sleeps, asleep or not, gets the least unheld deadline at or after the one asked for, and all others keep theirs |
| ScheduleSleep.SchedSleepdown | cppNetwork/NtyCo/core/nty_schedule.c:87-109 | the collision loop ends at the least unheld deadline at or after the one asked for; every other sleeper keeps its deadline |
| ScheduleSleep.Expired | cppNetwork/NtyCo/core/nty_schedule.c:248-259 | the sleeper with the least deadline leaves if that has passed, and is recorded with its deadline, the clock and the tree; otherwise nobody is due |
| ScheduleSleep.ResumeSleeper | cppNetwork/NtyCo/core/nty_schedule.c:324-327 | the calls planned for a resumed coroutine are made one after the other, and it ends if it is to and is not asleep; whatever they are, in the sleep tree already or not, nobody else enters or leaves the tree, and it enters only with a deadline later than the clock |
| ScheduleSleep.ExpiredPass | cppNetwork/NtyCo/core/nty_schedule.c:323-327 | the sleepers recorded as leaving the tree have strictly increasing deadlines, each the least in the tree it left and not past the clock, and each of them has its turn, in that order, carrying out its plan, and nobody else; when it is done a look has found nobody due, and who was asleep before has left or is in the tree as before |
| ScheduleSleep.MinTimeout | cppNetwork/NtyCo/core/nty_schedule.c:268-281 | the time to the earliest deadline, zero exactly when one is due, three seconds when nobody sleeps |
| ScheduleSleep.TimeoutRounds | cppNetwork/NtyCo/core/nty_schedule.c:289-295 | the milliseconds are whole ones below a second and whole seconds from one second on |
| ScheduleSleep.TimeoutShort | cppNetwork/NtyCo/core/nty_epoll.c:56-56 | the wait never exceeds the time to the deadline and is short by less than a second; by less than a millisecond under exactly the stated condition |
| ScheduleSleep.EpollTimeout | cppNetwork/NtyCo/core/nty_schedule.c:283-298 | epoll is called exactly when nobody is ready and no sleeper is due; its timeout is the time to the earliest deadline in whole milliseconds if that is below a second and in whole seconds from there on, and 3000 milliseconds when nobody sleeps |
| ScheduleSleep.TimeoutOneSecondShort | cppNetwork/NtyCo/core/nty_schedule.c:290-292 | a wait of 1999999 microseconds becomes one of 1000 milliseconds |
| SchedulePlaces.StepPlaced | cppNetwork/NtyCo/core/nty_schedule.c:87-179 | with sleeps for a positive time: a step keeps every live coroutine in one place (running, queued or waiting) exactly when it is no expiry of a queued coroutine and no end of a sleeping one |
| SchedulePlaces.RunPlaced | cppNetwork/NtyCo/core/nty_schedule.c:316-368 | throughout a run, whatever the order of turns, this holds exactly when all its steps are of that kind |
| SchedulePlaces.RunOnePlace | cppNetwork/NtyCo/core/nty_schedule.c:316-368 | no coroutine is lost in such a run: nobody is queued twice, and a suspended one is in the ready queue exactly when it is not in the wait tree |
| SchedulePlaces.CarefulRun | cppNetwork/NtyCo/core/nty_coroutine.c:258-278 | it is enough that nobody yields or ends while in the sleep tree; then nobody in the queue is asleep |
| SchedulePlaces.QueuedTwice | cppNetwork/NtyCo/core/nty_coroutine.c:268-278 | a coroutine that sleeps for a millisecond and then yields is resumed by its expiry while it is queued, and is queued twice when it yields again |
| ThreadPoolSafety.LockKept | tools/thread_pool/src/spinlock.h:72-91 | every step keeps: the lock is taken exactly while one thread is in the critical section |
| ThreadPoolSafety.MutexKept | tools/thread_pool/src/thrd_pool.c:64-70 | every step keeps: the mutex is held exactly by the thread whose place says so, waiting included |
| ThreadPoolSafety.BlockKept | tools/thread_pool/src/thrd_pool.c:100-120 | every step keeps: block is cleared only on the way to a broadcast, and nobody goes to sleep after that |
| ThreadPoolTasks.LedgerKept | tools/thread_pool/src/thrd_pool.c:72-98 | every step keeps every record in exactly one place: in one thread's hands, in the queue, or freed |
| ThreadPoolTasks.HandsKept | tools/thread_pool/src/thrd_pool.c:135-150 | every step keeps one owner for each record in hands |
| ThreadPoolTasks.QueueKept | tools/thread_pool/src/thrd_pool.c:72-98 | every step keeps head, next fields and tail in line with the queue, through each store of push and pop |
| ThreadPoolTasks.ChainLinked | tools/thread_pool/src/thrd_pool.c:77-77 | the store through tail appends the record to the chain and touches no other record's link |
| ThreadPoolRuns.RunInvariant | tools/thread_pool/src/thrd_pool.c:64-237 | the invariant holds in every state of every run of any number of threads |
| ThreadPoolRuns.MutualExclusion | tools/thread_pool/src/spinlock.h:72-91 | in every run at most one thread is in the critical section, and at most one has the mutex |
| ThreadPoolRuns.TailAddressesHead | tools/thread_pool/src/thrd_pool.c:92-95 | outside the critical section tail addresses the head slot exactly when the queue is empty |
| ThreadPoolRuns.QueueInMemory | tools/thread_pool/src/thrd_pool.c:72-98 | head and the next fields always link exactly the tasks linked and not yet popped, in order |
| ThreadPoolRuns.NoFault | tools/thread_pool/src/thrd_pool.c:72-150 | no step of any run reads, writes or frees a record that has been freed |
| ThreadPoolRuns.PoppedInOrder | tools/thread_pool/src/thrd_pool.c:72-98 | tasks are popped in the order they were linked; none is freed or begun twice; a popped one is freed or in one thread's hands |
| ThreadPoolRuns.AllFreed | tools/thread_pool/src/thrd_pool.c:122-132 | when the pool is destroyed every record ever allocated has been freed exactly once and nobody else is inside |
| ThreadPoolRuns.ShutdownComplete | tools/thread_pool/src/thrd_pool.c:64-70 | once a broadcast of the shutdown has run, no worker is asleep, then or ever again |
| ThreadPoolRuns.SleeperWillBeWoken | tools/thread_pool/src/thrd_pool.c:64-70 | while a worker is still asleep after block was cleared, some terminator is about to broadcast |
| ThreadPoolRuns.OneLateTask | tools/thread_pool/src/thrd_pool.c:140-147 | each worker begins at most one further task after quit is stored, in any run |
| ThreadPoolRuns.RankFalls | tools/thread_pool/src/thrd_pool.c:100-150 | after the shutdown every step of a worker but one that finds the spinlock taken brings it nearer to its exit, and no other thread's step takes it away |
| ThreadPoolRuns.WorkerExits | tools/thread_pool/src/thrd_pool.c:134-160 | after the shutdown a worker takes at most 13 steps that do not find the spinlock taken, for each time that it loses the race for it one more |
| ThreadPoolRuns.HoldersMove | tools/thread_pool/src/thrd_pool.c:65-117 | whoever holds the spinlock or the mutex never waits for anything |
| ThreadPoolRuns.ShutdownMoves | tools/thread_pool/src/thrd_pool.c:134-160 | while a worker has not exited, some thread can take a step that does not find the spinlock taken |
| ThreadPoolCalls.TasksRun | tools/thread_pool/src/thrd_pool.c:134-150 | in every run the function of a task is called once for each record that a worker began, by the thread that began it or is at it now, and of no other record; what was freed was begun by a worker or drained, and not both |
| ThreadPoolCalls.AllRan | tools/thread_pool/src/thrd_pool.c:122-132 | when the pool is destroyed every task linked has run or was drained |
| ThreadPoolCalls.CallsReturn | tools/thread_pool/src/thrd_pool.c:100-233 | each call of __get_task came to a task or to NULL, each post linked its record or was refused, each call of terminate broadcast, but for the one under way; no worker exits before quit was stored |
| ThreadPoolCalls.CallEnds | tools/thread_pool/src/thrd_pool.c:64-227 | a call of post or terminate takes at most nine steps that do not find the spinlock taken, and one more for each time it loses the race for it |
| ThreadPoolCalls.OneLatePost | tools/thread_pool/src/thrd_pool.c:215-227 | after quit is stored each caller links at most one more record |
| ThreadPoolSignals.ServedStep | tools/thread_pool/src/thrd_pool.c:72-120 | a step keeps "a queued task, before quit, has a worker heading for the queue or a signal on its way" exactly when it is no signal that finds no sleeper and no other thread looking after the queue |
| ThreadPoolSignals.ServedRun | tools/thread_pool/src/thrd_pool.c:72-120 | in every run this holds at all times exactly when every signal of the run is heard in that sense |
| ThreadPoolSignals.ServedAwake | tools/thread_pool/src/thrd_pool.c:104-116 | as long as every signal was heard, workers are all asleep over a queued task only while another signal is on its way |
| ThreadPoolLostSignal.SignalLost | tools/thread_pool/src/thrd_pool.c:72-120 | a run with a signal that is not heard: that of a post falls between a failed pop and the wait: the task is queued, the only worker sleeps, and no thread can move but by a new call or a spurious wake-up |
| PoolNodes.FitsMeans | tools/mem_pool/src/mmpool-success.c:219-223 | the unsigned test is "ends inside" exactly up to the end of the node, and always succeeds past it |
| PoolNodes.Overshoot | tools/mem_pool/src/mmpool-success.c:220-222 | in a pool made with 4096 bytes, 4088 bytes and then 512 are granted, the second past the end of the block |
| PoolNodes.GaveInside | tools/mem_pool/src/mmpool-success.c:208-257 | a small region lies inside its node, and the pool stays sound, exactly when it starts inside; a new node always has room |
| PoolNodes.GaveKept | tools/mem_pool/src/mmpool-success.c:120-228 | giving a region keeps every invariant of the pool; current stays in the chain, moves on by at most one node and at most seven nodes remain from it |
| PoolNodes.GaveAligned | tools/mem_pool/src/mmpool-success.c:219-222 | mp_alloc gives multiples of 32; mp_nalloc always starts inside |
| PoolNodes.NextBehind | tools/mem_pool/src/mmpool-success.c:213-228 | of two requests in a row the second, unless an earlier node has room, lies right behind the first, up to the next multiple of 32 for mp_alloc, if it fits there: no space of a node is lost |
| PoolNodes.EmptyGives | tools/mem_pool/src/mmpool-success.c:101-118 | in an emptied pool the node at current has room for any mp_nalloc of the pool's size, and for any mp_alloc up to what aligning costs |
| PoolNodes.RegionsApart | tools/mem_pool/src/mmpool-success.c:208-257 | no two regions handed out since the last reset share a byte, across nodes and records |
| PoolNodes.RegionHome | tools/mem_pool/src/mmpool-success.c:57-76 | every region lies in the payload of its node, inside a block in use |
| PoolNodes.CountedAppend | tools/mem_pool/src/mmpool-success.c:142-149 | appending a node keeps the failure counts from current at 0 or k, ..., 1, 0, 0 with k at most 5; current is the head up to seven nodes, and from there on the seventh node from the end |
| MemPool.Create | tools/mem_pool/src/mmpool-success.c:57-76 | a new pool has one empty node, with all of its space free, and one block, or nothing was allocated; the block holds the pool, so that the pool is in order, exactly when the sum of the sizes does not wrap around |
| MemPool.Pool.FirstFit | tools/mem_pool/src/mmpool-success.c:215-225 | the first node with room from current on; at most seven nodes are looked at, however many there are |
| MemPool.Pool.Bump | tools/mem_pool/src/mmpool-success.c:140-149 | each node passed but the last counts one failure more; current passes exactly the first when it had more than four |
| MemPool.Pool.AllocBlock | tools/mem_pool/src/mmpool-success.c:120-153 | a new node in a new block with the region at its front; it fails, changing nothing, only when the allocator below refused |
| MemPool.Pool.Small | tools/mem_pool/src/mmpool-success.c:213-228 | a region from the first node with room or a new node, right behind what the node gave before, up to alignment; all invariants kept, and no region past its node exactly when this one starts inside; it fails, changing nothing, only when no node has room and the allocator below refused |
| MemPool.Pool.Alloc | tools/mem_pool/src/mmpool-success.c:208-257 | a small region, right behind what its node gave before up to alignment, or a large block that one record names, with no region past its node exactly when the region, or the new record's, starts inside; with max at least 16 a large request calls mp_alloc_large once; with less every large request fails and leaves no trace |
| MemPool.Pool.FindFree | tools/mem_pool/src/mmpool-success.c:160-168 | the first record without a block among the first five, and every record read is stored in a block in use |
| MemPool.Pool.AllocLarge | tools/mem_pool/src/mmpool-success.c:155-181 | the new block is named by the first of five records that had none, or else by a new one whose storage is a fresh region, inside its node exactly when it starts there; a failure, after a refusal below, frees the block again |
| MemPool.Pool.Memalign | tools/mem_pool/src/mmpool-success.c:183-203 | an aligned block that a new record names, with no region past its node exactly when the record's starts inside; or nothing changed |
| MemPool.OneMoreLarge | tools/mem_pool/src/mmpool-success.c:155-203 | a large request adds exactly one block to those named by records, and none was lost |
| MemPool.Pool.Free | tools/mem_pool/src/mmpool-success.c:270-282 | a large block in use is freed once and its record names none; any other pointer changes nothing |
| MemPool.Pool.FreeLarges | tools/mem_pool/src/mmpool-success.c:83-110 | every large block in use is freed exactly once, and no record is read after its storage |
| MemPool.Pool.Reset | tools/mem_pool/src/mmpool-success.c:101-118 | large blocks are freed, all nodes are empty and kept, the counts and current stay, the invariants hold; what fits in an empty node is then given by the node at current |
| MemPool.Pool.ResetGives | tools/mem_pool/src/mmpool-success.c:101-118 | after a reset the first node looked at has room for whatever fits in an empty node |
| MemPool.Pool.Destroy | tools/mem_pool/src/mmpool-success.c:78-99 | exactly the pool's blocks go back, each once, and no header is read after its block |
| PoolNodes.RecordCovered | tools/mem_pool/src/mmpool-success.c:162-177 | while the nodes' blocks are in use, so is the storage of every record |
| PoolNodes.LargeFreed | tools/mem_pool/src/mmpool-success.c:83-110 | in each round of the freeing loops the record read and the block freed are still there |

## Left out

- Comparators: keys are integers, and `cmp` is their order.
- RB_AUGMENT: it expands to nothing, so the loop at lines 552-557 of `nty_tree.h` is not there.
- RB_FOREACH_FROM, RB_FOREACH_SAFE and their reverse forms: the same steps as the two loops that are there.
- SPLAY_MINMAX for zero: its loop does nothing for ever; callers pass -1 or 1.
- SLIST, STAILQ and LIST macros: easier than the tail queue. TRASHIT expands to nothing outside debugging.
- TAILQ_CONCAT of a queue with itself: it would close a cycle, and the macro leaves that to its callers.
- nty_coroutine_sleep for a positive time puts the caller in the sleep tree and, against the comment at line 108 of `nty_schedule.c`, does not yield; the model follows the code.
- Context switching and stacks: a resumption is a body that goes on with its calls until one suspends it.
- ScheduleRun.Body: a body is a finite series of calls, fixed when the coroutine is created, though of any length and content; a call of poll names one descriptor, with timeout 1, and is left out when somebody waits for that descriptor, as the code asserts that nobody does; nobody sleeps for a positive time. Coroutines that do are those of SchedulePlaces, where the order of turns is open and the end-of-file bit is left out. A body may give a queued coroutine the end-of-file bit, though no library step does (`nty_coroutine.c`, lines 75 and 147, sets it on a coroutine that ends, `nty_schedule.c`, line 356, on one that waits): it is what reaches the branch at line 334. Waits with other timeouts or several descriptors enter one node under several keys, and no caller shown does that.
- ScheduleRun.Run: stated for every number of rounds, as the loop need not end; which events there are in each round is an input.
- ScheduleSleep.ExpiredPass: stated for every number of rounds, as sleepers can keep expiring, and for any plans of what the resumed ones do about sleeping; sleepers leave the tree only by expiry or by sleeping again, and the clock does not run backwards.
- ScheduleSleep.SchedSleepdown: a time of zero, which no caller in the sources passes to it, is not modelled, nor is the 64-bit wrap of deadlines.
- ScheduleSleep.TimeoutMs: computed over reals; the conversion of waits beyond the range of an int is not modelled.
- Sockets, epoll and the hooks: what epoll reports is the first event there is for each registered descriptor; EINTR, event masks and the bound on the size of a batch are not there.
- Status bits nobody reads, `busy` and `defer` lists that stay empty, creation failures of coroutines and schedulers.
- ThreadPool: addresses of task records are not used again after `free`; a task function returns and, when it posts, does so as another caller; a mutex and a condition variable behave as POSIX says, spurious wake-ups included.
- ThreadPoolRuns.AllFreed: calls of post and terminate are over before the queue is destroyed, which the code leaves to its callers.
- Liveness of a posted task, which need not run (`ThreadPoolLostSignal.SignalLost`). Fairness, and that a spinning thread gets the lock in the end, are not modelled.
- Creation of the thread pool with its rollback, spinlock_trylock, and the variant of the spinlock on a mutex.
- MemPool: the chains of nodes and of records are sequences in chain order instead of linked structures, and `head->next`, which mp_create_pool does not set, is taken to be NULL. Contents of memory, and so the clearing of mp_calloc, are not there.
- MemPool.Pool.Alloc: in a pool too small for records the recursion ends because the allocator below runs out; the depth of the C stack is not modelled.
- The other allocators, pools, servers and the second copy of the coroutine sources.
