# Lunchbox, verified

A Dafny model of the concurrent containers and synchronisation protocols of the
Lunchbox library, with proofs of what each promises for every input, every run
and every interleaving.

| files | what they model |
|---|---|
| IntervalEdges, IntervalIterator, IntervalSet | `IntervalSet`: a set of naturals kept as a sorted list of interval edges with a cached cardinality |
| MTQueue, MTQueueCalls, MTQueueOrder, MTQueueBarrier, MTQueueMonitor | `MTQueue`: a bounded monitor queue, and `popBarrier` as termination detection |
| Bits, LFVectorIndex, LFVector, LFVectorReaders | `LFVector`: a vector that never moves its elements, alone and under unlocked readers |
| RequestHandler, RequestCalls, RequestObjects | `RequestHandler` and `Request`: register, serve, wait, unregister over recycled records |
| Common | definitions the others share |
| LFQueue | `LFQueue`: a ring between one writer and one reader |
| SpinLock | `SpinLock`: a read-write lock on one 32-bit word |
| ThreadPool | `ThreadPool`: posters, workers, destructor |
| Buffer | `Buffer`: growth with an eighth of headroom |
| CommandLine | the tokeniser of `fork` |

Sequential code is written as classes, arrays and loops, and proved against a
plain mathematical value: a set, a sequence, a list of strings. Concurrent code
is written as a transition system, `Enabled` and `Step` over a `State`, at the
grain of one critical section split at its condition waits, or of one atomic
load, store or compare-and-swap. A `Run` starts in `Init` and takes any enabled
steps in any order, so its theorems hold for all thread counts and all
interleavings, with spurious wakeups. Histories kept in a state are tied to the
calls among the actions of the run. Sequential consistency is assumed.
MTQueueMonitor and RequestObjects hold the same critical sections as methods
that update an object and keep its invariant. Those of the queue equal the steps
of its transition system in queue, bound, waiting_, answer and notification;
registering and releasing a request equal the functions its system steps by.

## Where the code does less than its documentation says

The model follows the code. For each case the exact condition is proved.

- `IntervalSet::swap` exchanges the edges but not the sizes. Both sets stay
  consistent if and only if they are equally large.
- `IntervalSet::insert(const IntervalSet&)` passes an edge's start flag as the
  end of an interval. With assertions enabled it produces the union if and only
  if the set inserted is empty, or is another set {0} and 1 was already stored.
- `LFVector::expand` is documented to update the size after all elements. The
  code bumps it for each element, so every size in between can be loaded. It is
  updated in one go if and only if the call asks for at most one element more, or
  there is room for at most one.
- `LFVector::resize` releases at most one slot. The bound on unused storage
  survives it if and only if no other slot became superfluous.
- The `ThreadPool` destructor is documented to block until all tasks are done.
  All tasks were run if and only if none was pending at the stop and none was
  posted after it.
- A request that is being served, or has been served but not waited for, must
  not be unregistered: from every such state the wait for a later request can
  return a value nobody served it with. Before the serving has begun it cannot.
- The tokeniser of `fork` can produce a list of arguments if and only if none of
  them holds a NUL. An empty last argument takes a trailing backslash; escaping or
  quoting it and joining with spaces loses it, so that round trip holds if and only
  if, in addition, the last argument is not empty.

## Model

| member | source | states |
|---|---|---|
| `IntervalEdges.MergedElements` | lunchbox/intervalSet.ipp:107-218 | Replacing everything [a, b] touches by one interval keeps the edges alternating, maximal and non-adjacent, denotes the union, and changes the cardinality by what [s, e] did not share |
| `IntervalEdges.KeptElements` | lunchbox/intervalSet.ipp:221-300 | Cutting [s, e] out, in the middle of an interval too, keeps the canonical form, denotes the difference, and lowers the cardinality by what was shared |
| `IntervalEdges.LowerBound` | lunchbox/intervalSet.h:90-105 | The first position not below the key in the edge order, in which a start precedes an end of equal value |
| `IntervalEdges.UpperBound` | lunchbox/intervalSet.h:90-105 | The first position above the key in the edge order |
| `IntervalSet.WalkStep` | lunchbox/intervalSet.ipp:178-197 | One turn of the edge walk keeps the running overlap equal to the number of stored elements behind the walk, counting from s |
| `IntervalSet.WalkDone` | lunchbox/intervalSet.ipp:178-214 | When the walk has passed e, the running overlap plus the open interval is exactly the number of stored elements in [s, e] |
| `IntervalSet.Set.constructor` | lunchbox/intervalSet.ipp:89-92 | A new set is empty and consistent |
| `IntervalSet.Set.Insert` | lunchbox/intervalSet.ipp:107-218 | The denoted set becomes the union with [s, e], the edges stay canonical, the cached size stays the cardinality |
| `IntervalSet.Set.OpenStart` | lunchbox/intervalSet.ipp:122-177 | Where the new interval starts: at s, or at the start of the interval that contains or ends right before s, which is fused |
| `IntervalSet.Set.Walk` | lunchbox/intervalSet.ipp:178-197 | The loop removes exactly the edges up to e and accounts for all of the overlap with [s, e] |
| `IntervalSet.Set.CloseEnd` | lunchbox/intervalSet.ipp:199-214 | Where the new interval ends: at e, or at the end of the interval that contains or starts right after e, which is fused |
| `IntervalSet.Set.Erase` | lunchbox/intervalSet.ipp:221-300 | The denoted set becomes the difference with [s, e], the edges stay canonical, the cached size stays the cardinality |
| `IntervalSet.Set.CutStart` | lunchbox/intervalSet.ipp:245-272 | An interval that s cuts is closed at s - 1 |
| `IntervalSet.Set.ReopenEnd` | lunchbox/intervalSet.ipp:289-296 | An interval that e cuts is reopened at e + 1 |
| `IntervalSet.Set.Find` | lunchbox/intervalSet.ipp:326-346 | An iterator on the element if it is stored, end() if and only if it is not |
| `IntervalSet.Set.Exists` | lunchbox/intervalSet.ipp:320-323 | True if and only if the element is stored |
| `IntervalSet.Set.InsertSet` | lunchbox/intervalSet.ipp:303-310 | Inserting a set trips the assertion of insert(start, end) unless it is empty or another set {0}, so a non-empty set cannot be inserted into itself; it is a union if and only if the set inserted is empty, or is another set {0} and 1 was stored |
| `IntervalSet.InsertSetAddsTooMuch` | lunchbox/intervalSet.ipp:303-310 | Inserting {0} into the empty set yields {0, 1} |
| `IntervalSet.InsertSetStops` | lunchbox/intervalSet.ipp:303-310 | Inserting {5} trips the assertion |
| `IntervalSet.Set.Swap` | lunchbox/intervalSet.ipp:375-378 | The denoted sets are exchanged; both caches are right afterwards if and only if the sets are equally large |
| `IntervalSet.SwapGoesWrong` | lunchbox/intervalSet.ipp:375-378 | Swapping {5} with the empty set leaves a wrong cached size |
| `IntervalSet.Set.Clear` | lunchbox/intervalSet.ipp:313-317 | The set is empty and consistent |
| `IntervalIterator.IterationEnumerates` | lunchbox/intervalSet.ipp:349-366 | Iterating from begin() to end() terminates and yields every element once, in strictly ascending order, size() of them |
| `IntervalIterator.VisitedAhead` | lunchbox/intervalSet.ipp:56-80 | From any position, iteration visits exactly the elements not below it, ascending |
| `IntervalIterator.FindSplits` | lunchbox/intervalSet.ipp:326-346 | A lower bound search for (x, end) lands behind a start edge if and only if x is stored |
| `IntervalIterator.EqualIff` | lunchbox/intervalSet.ipp:75-80 | Iterators are equal if and only if both are at the end or on the same element, and if and only if they have the same elements ahead of them |
| `IntervalIterator.ConstIterator.Increment` | lunchbox/intervalSet.ipp:56-73 | Increment drops exactly the first of the elements still to be visited, and stays put at end() |
| `MTQueue.RunKeepsInv` | lunchbox/mtQueue.ipp:22-270 | In every run the size stays within the bound, so the unsigned difference never wraps; waiting_ counts who is inside popBarrier or left it with false; no blocked thread without a pending notification has a true wait predicate |
| `MTQueue.StepKeepsInv` | lunchbox/mtQueue.ipp:22-270 | Every call, resumption, timeout and spurious wakeup keeps that invariant |
| `MTQueue.EnterWakes` | lunchbox/mtQueue.ipp:184-189 | Counting itself in without notifying can make another member ready only if the entering thread itself gets through and notifies |
| `MTQueue.EffectFrame` | lunchbox/mtQueue.ipp:22-270 | A critical section keeps the queue within its bound, changes the bound only in setMaxSize and operator=, changes waiting_ only of its own group and only when it takes an element, and changes nothing if it does not notify |
| `MTQueueCalls.StepDecides` | lunchbox/mtQueue.ipp:22-270 | A thread that runs returns if and only if its wait predicate holds or its time is up, with an answer to the operation it called; otherwise it sleeps, having changed nothing but its entry in the barrier |
| `MTQueueCalls.StepLeavesOthers` | lunchbox/mtQueue.ipp:22-270 | No step moves another thread, except to wake it up |
| `MTQueueCalls.RunMatchesCalls` | lunchbox/mtQueue.ipp:22-270 | In every run the operations that returned to a thread, followed by the one it is in, are exactly those it called, in order |
| `MTQueueCalls.LogGrows` | lunchbox/mtQueue.ipp:22-270 | What has returned stays returned |
| `MTQueueOrder.EffectLaw` | lunchbox/mtQueue.ipp:22-270 | Every critical section obeys the law of a plain deque: what it took followed by what it left is what it added around what it found, and it answers as much as it owes |
| `MTQueueOrder.LawDetermines` | lunchbox/mtQueue.ipp:22-270 | That law leaves no choice: queue and operation determine the answer and the new queue |
| `MTQueueOrder.LawIsEffect` | lunchbox/mtQueue.ipp:22-270 | What the law allows is exactly what the critical section does |
| `MTQueueOrder.RunIsHistory` | lunchbox/mtQueue.ipp:22-270 | Every run of any mix of operations by any threads is a legal history of one deque used by one caller at a time, made up of the calls of each thread in its order less the pending one, in the order of completion, ending with the actual queue |
| `MTQueueOrder.HistoryIsUnique` | lunchbox/mtQueue.ipp:22-270 | The log alone determines every queue in between |
| `MTQueueOrder.SegmentIsFifo` | lunchbox/mtQueue.ipp:22-270 | Between any two moments without a front push or a reset, the queue found followed by what is pushed comes out in exactly that order |
| `MTQueueOrder.RunKeepsElements` | lunchbox/mtQueue.ipp:22-270 | In every run everything the completed calls brought in went out or is still there, as multisets; until the first front push or reset it comes out in exactly the order it came in |
| `MTQueueOrder.FrontBatchComesOutFirst` | lunchbox/mtQueue.ipp:260-270 | A batch pushed to the front comes out first and in its own order, before what was there and what is pushed later, by whatever pops and whoever calls them |
| `MTQueueOrder.LooksAgree` | lunchbox/mtQueue.ipp:204-225 | getFront, operator[] and getBack return what popping would take next, what it would take after that many others, and what was pushed last |
| `MTQueueBarrier.FalseMeansDone` | lunchbox/mtQueue.ipp:179-201 | In a closed group, once popBarrier has returned false to anyone, at every later moment the queue is empty, the elements taken are exactly those pushed, waiting_ equals height_, and each member was told to stop or is awake and will be told next |
| `MTQueueBarrier.FalseKeepsTeam` | lunchbox/mtQueue.ipp:190-195 | The assertion waiting_ == height_ holds whenever popBarrier is about to return false |
| `MTQueueBarrier.SomebodyIsAwake` | lunchbox/mtQueue.ipp:179-201 | The members are never all asleep in popBarrier |
| `MTQueueBarrier.TeamRunKeepsInv` | lunchbox/mtQueue.ipp:157-201 | In every run of a closed group only members settle in the barrier, none retires twice, and after the first false the queue is drained and all have settled |
| `MTQueueBarrier.RetiredForever` | lunchbox/mtQueue.ipp:179-201 | Being told to stop is stable |
| `MTQueueMonitor.Queue.Push` | lunchbox/mtQueue.ipp:228-234 | Waits, changing nothing, if and only if the queue is at its bound; otherwise appends lawfully, stays within the bound and notifies |
| `MTQueueMonitor.Queue.PushAll` | lunchbox/mtQueue.ipp:237-247 | Waits if and only if the batch does not fit, because the unsigned difference cannot wrap; otherwise appends the batch in order, stays within the bound and notifies |
| `MTQueueMonitor.Queue.PushFront` | lunchbox/mtQueue.ipp:250-257 | Waits if and only if the queue is at its bound; otherwise everything queued follows the new element, within the bound |
| `MTQueueMonitor.Queue.PushFrontAll` | lunchbox/mtQueue.ipp:260-270 | Waits if and only if the batch does not fit, because the unsigned difference cannot wrap; otherwise everything queued follows the batch, within the bound |
| `MTQueueMonitor.Queue.Pop` | lunchbox/mtQueue.ipp:76-85 | Waits if and only if the queue is empty; otherwise the element in front of what is left is what was there |
| `MTQueueMonitor.Queue.TimedPop` | lunchbox/mtQueue.ipp:88-100 | Fails, changing nothing, if and only if the queue is empty when it wakes up or its time is up; otherwise the element in front of what is left is what was there |
| `MTQueueMonitor.Queue.At` | lunchbox/mtQueue.ipp:40-46 | Waits if and only if the index is not in the queue yet; otherwise sees the element there and tells nobody |
| `MTQueueMonitor.Queue.WaitSize` | lunchbox/mtQueue.ipp:59-65 | Waits if and only if there are fewer elements than asked for; otherwise returns how many there are |
| `MTQueueMonitor.Queue.GetFront` | lunchbox/mtQueue.ipp:204-213 | Fails if and only if the queue is empty; otherwise sees what the queue starts with |
| `MTQueueMonitor.Queue.GetBack` | lunchbox/mtQueue.ipp:216-225 | Fails if and only if the queue is empty; otherwise sees what the queue ends with |
| `MTQueueMonitor.Queue.TryPop` | lunchbox/mtQueue.ipp:126-136 | Fails, telling nobody, if and only if the queue is empty; otherwise the element in front of what is left is what was there |
| `MTQueueMonitor.Queue.TimedPopRange` | lunchbox/mtQueue.ipp:103-123 | Below the minimum nothing happens; otherwise the result in front of what is left is what was there, and it is short of the maximum only if nothing is left |
| `MTQueueMonitor.Queue.TryPopMany` | lunchbox/mtQueue.ipp:139-153 | The loop appends to the caller's vector a prefix of the queue in order, short of the number asked for only if nothing is left, and notifies if and only if it took something |
| `MTQueueMonitor.Queue.PopBarrier` | lunchbox/mtQueue.ipp:179-201 | Waits if and only if the queue is empty and the barrier not yet full with the caller in it; waiting_ grows by one unless an element is obtained, and then stays |
| `MTQueueMonitor.Queue.ResumeBarrier` | lunchbox/mtQueue.ipp:185-201 | A woken caller takes an element and is counted out, or fails if and only if the queue is empty and the barrier full, and stays counted |
| `MTQueueMonitor.Queue.SetMaxSize` | lunchbox/mtQueue.ipp:49-56 | Waits if and only if the queue holds more than the new bound, so the queue is within its bound before and after |
| `MTQueueMonitor.Queue.Clear` | lunchbox/mtQueue.ipp:68-73 | The queue is empty and the waiters are told |
| `MTQueueMonitor.Queue.Assign` | lunchbox/mtQueue.ipp:22-37 | Contents and bound equal the other queue's, which is left alone; assigning a queue to itself does not even notify |
| `MTQueueMonitor.FrontBatchRoundTrip` | lunchbox/mtQueue.ipp:103-123 | A batch that fits, pushed to the front and popped as a range, comes back as it was and leaves the queue as it was |
| `Bits.GetIndexOfLastBit` | lunchbox/bitOperation.h:73-79 | The loop returns the position of the most significant set bit, or -1 for zero |
| `Bits.XorLastBit` | lunchbox/lfVector.ipp:157 | Exclusive or with the most significant bit subtracts it |
| `LFVectorIndex.AddressingIsBijective` | lunchbox/lfVector.ipp:151-163 | Indices and places in slots of size 2^slot correspond one to one |
| `LFVectorIndex.SlotBelow` | lunchbox/lfVector.ipp:350-358 | Index i is in one of the first n slots if and only if i + 1 < 2^n |
| `LFVectorIndex.WriteCells` | lunchbox/lfVector.ipp:151-163 | Storing at one index changes that element and no other |
| `LFVectorIndex.CellsFit` | lunchbox/lfVector.h:45 | A vector of nSlots slots holds fewer than 2^nSlots elements |
| `LFVectorIndex.NullSlotBound` | lunchbox/lfVector.ipp:98-117 | No element is addressed to or beyond a slot that is null, also when shrinking has left gaps |
| `LFVectorIndex.TightIff` | lunchbox/lfVector.ipp:371-379 | At most 2 * size + 1 elements are allocated if and only if no slot is allocated beyond the one of the next element |
| `LFVector.Vector.constructor` | lunchbox/lfVector.ipp:27-31 | A new vector is empty and has no slot |
| `LFVector.Vector.Address` | lunchbox/lfVector.ipp:155-157 | The address computation yields the slot and offset of the index |
| `LFVector.Vector.At` | lunchbox/lfVector.ipp:166-177 | operator[] reads the element of the sequence, through an allocated slot |
| `LFVector.Vector.Store` | lunchbox/lfVector.ipp:151-163 | operator[] as a target updates that element of the sequence only |
| `LFVector.Vector.PushBackUnlocked` | lunchbox/lfVector.ipp:350-368 | Appends; fails, changing nothing, if and only if 2^nSlots - 1 elements are held; keeps the storage bound |
| `LFVector.Vector.PopBack` | lunchbox/lfVector.ipp:220-242 | Removes and returns the last element if there is one; keeps the storage bound |
| `LFVector.Vector.Trim` | lunchbox/lfVector.ipp:371-379 | Releases exactly the slot after the one of the next element, which holds nothing |
| `LFVector.Vector.EraseAt` | lunchbox/lfVector.ipp:245-261 | Removes the element at the position and closes the gap, or changes nothing at or beyond the end; keeps the storage bound |
| `LFVector.Vector.MoveDown` | lunchbox/lfVector.ipp:252-257 | The copy moves every later element down by one, reading one beyond the new end only |
| `LFVector.Vector.EraseElement` | lunchbox/lfVector.ipp:264-284 | Removes the last occurrence, or changes nothing if there is none; keeps the storage bound |
| `LFVector.Vector.Expand` | lunchbox/lfVector.ipp:200-205 | Pads up to the new size, or up to the capacity and then fails; never shrinks; keeps the storage bound |
| `LFVector.Vector.Resize` | lunchbox/lfVector.ipp:287-299 | Truncates or pads; fails if and only if the capacity is exceeded; the storage bound holds afterwards if and only if at most the one trimmed slot was superfluous |
| `LFVector.Vector.Clear` | lunchbox/lfVector.ipp:302-315 | No elements, no slots |
| `LFVector.Vector.CopyFrom` | lunchbox/lfVector.ipp:89-121 | Assignment yields the other vector's sequence and its pattern of allocated slots, gaps included |
| `LFVector.Vector.AssignFrom` | lunchbox/lfVector.ipp:326-347 | Copying from a vector with another number of slots yields its sequence, cut off at 2^nSlots - 1 elements; the assertion where copying stops early holds |
| `LFVector.Vector.Equals` | lunchbox/lfVector.ipp:124-141 | True if and only if the sequences are equal |
| `LFVector.Play` | lunchbox/lfVector.ipp:220-379 | Any history of push, pop, both erases and clear on a new vector yields what the same calls make of a plain sequence, in at most 2 * size + 1 allocated elements |
| `LFVector.ResizeKeepsSlots` | lunchbox/lfVector.ipp:287-299 | Eight elements resized to none leave more allocated than that bound |
| `LFVectorReaders.ReadersSeePushedItems` | lunchbox/lfVector.ipp:151-177 | Whatever the interleaving of pushers, expanders and unlocked readers, what a reader gets for an index below the size it loaded is, for the rest of the run, that element of what the calls make of a plain sequence; no read goes through a null pointer, and the size stays below 2^nSlots |
| `LFVectorReaders.ReadReturns` | lunchbox/lfVector.ipp:166-177 | A read of index i after one load of the size, through a slot load and an element load with anything in between, gets element i |
| `LFVectorReaders.RunPlaysJobs` | lunchbox/lfVector.ipp:200-217 | In every run the vector holds what its calls of push_back and expand, in the order they got the lock, make of a plain sequence |
| `LFVectorReaders.CallEndsWith` | lunchbox/lfVector.ipp:200-217 | From its lock to its release, a call of push_back appends its item if and only if there is room for one more, and a call of expand appends copies of its item up to the size asked for or the last there is room for |
| `LFVectorReaders.CallGoesOn` | lunchbox/lfVector.ipp:350-368 | While a call holds the lock it can take a step, and each of its steps releases the lock or leaves fewer to take |
| `LFVectorReaders.StepKeepsInv` | lunchbox/lfVector.ipp:350-368 | Every single load and store keeps the invariant, and the pushed sequence only grows |
| `LFVectorReaders.StoreIsPossible` | lunchbox/lfVector.ipp:361-366 | A writer that has seen to its slot always stores inside that slot's array |
| `LFVectorReaders.ElementsNeverMove` | lunchbox/lfVector.ipp:350-368 | Once a slot points to an array it points to that array for the rest of the run |
| `LFVectorReaders.ExpandEndsWith` | lunchbox/lfVector.ipp:200-205 | A call of expand, with readers and waiting writers around it, ends with the size asked for if that is larger and fits, with a full vector if it does not fit |
| `LFVectorReaders.ExpandIsAtomicIff` | lunchbox/lfVector.h:112-129 | At every moment of a call of expand a reader would load the size before or the size after it, if and only if it asks for at most one element more or there is room for at most one |
| `LFVectorReaders.EverySizeIsPublished` | lunchbox/lfVector.ipp:366-367 | Between two sizes of a run every size in between was there to be loaded at some moment |
| `LFVectorReaders.ExpandIsSeenHalfway` | lunchbox/lfVector.h:112-129 | A run in which a reader loads size 1 while expand to 2 is under way |
| `RequestHandler.WaitReturnsWhatWasServed` | lunchbox/requestHandler.cpp:84-116 | Every wait that returns, the first or a later one, returns exactly the value of a call of serveRequest that named its request while it was outstanding, despite recycled records and despite lookup, store and unlock being separate steps |
| `RequestCalls.ServeReachesWait` | lunchbox/requestHandler.cpp:225-240 | Once serveRequest has been called for an outstanding request and has come to its unlock, a wait for it returns that value, whatever else has happened |
| `RequestCalls.ServerAnswers` | lunchbox/requestHandler.cpp:225-240 | Serving goes through its steps for the request named if it is registered, and otherwise does nothing |
| `RequestCalls.WaitFindAnswers` | lunchbox/request.h:104-122 | A resolved request answers at once with the value served, an unregistered one does nothing, an unresolved one is looked up |
| `RequestCalls.WaiterAnswers` | lunchbox/requestHandler.cpp:98-116 | A request that was looked up is resolved with the value served and leaves the map, or the time is up and nothing has happened |
| `RequestCalls.RegisterAnswers` | lunchbox/requestHandler.cpp:65-82 | Registering makes an unresolved request under the next identifier |
| `RequestCalls.UnregisterAnswers` | lunchbox/request.h:92-99 | Unregistering forgets an unresolved request, and changes nothing otherwise |
| `RequestCalls.TicketsAreRegistrations` | lunchbox/requestHandler.cpp:65-82 | The tickets are the calls of registerRequest, in order |
| `RequestHandler.ServedOnce` | lunchbox/requestHandler.cpp:225-240 | The value a request was served with never changes |
| `RequestHandler.RecordsAreConserved` | lunchbox/requestHandler.cpp:65-128 | Each record is under exactly one identifier or exactly once in the free list, free records are locked, and the n-th identifier is IdOf(n) |
| `RequestHandler.IdsDistinct` | lunchbox/types.h:70-77 | Identifiers repeat only after LB_MAX_UINT32 registrations and stay below it, clear of the undefined value |
| `RequestHandler.ReadyMeansServed` | lunchbox/requestHandler.cpp:296-308 | The record of an unresolved request can be locked if and only if the request has been served to the end |
| `RequestHandler.PickUpIsPossible` | lunchbox/requestHandler.cpp:100-106 | A waiter that got the lock finds a result, and its request still registered |
| `RequestHandler.RunKeepsInv` | lunchbox/requestHandler.cpp:65-128 | Every disciplined run keeps map, free list, locks, results and Request objects consistent |
| `RequestHandler.UnregisterIsSafeIff` | lunchbox/requestHandler.cpp:118-128 | Unregistering an unresolved request before its serving has begun keeps the handler sound, and no disciplined continuation misleads a wait; if another request may be registered, some disciplined continuation misleads a wait if and only if the serving had begun |
| `RequestHandler.UnregisterServedMisleads` | lunchbox/requestHandler.cpp:118-128 | From every state in which a request is unregistered whose serving is under way or complete, some continuation has a wait return for a request nobody served |
| `RequestHandler.UnregisterAfterServeGoesWrong` | lunchbox/requestHandler.cpp:118-128 | After serving and unregistering one request, the wait for the next returns at once with a value nobody served it with |
| `RequestObjects.Handler.RegisterRequest` | lunchbox/requestHandler.cpp:65-82 | The new request is unserved, whatever became of its record before, and no other is touched; the handler stays sound if and only if the identifier was not still outstanding |
| `RequestObjects.RegisteredSoundIff` | lunchbox/requestHandler.cpp:65-82 | Registering loses a record if and only if it reuses an identifier still outstanding |
| `RequestObjects.Handler.UnregisterRequest` | lunchbox/requestHandler.cpp:118-128 | The request is forgotten and no other is touched; the handler stays sound if and only if the request had not been served |
| `RequestObjects.ReleasedSoundIff` | lunchbox/requestHandler.cpp:118-128 | Releasing leaves an unlocked record in the free list if and only if the request had been served |
| `RequestObjects.Handler.ServeRequest` | lunchbox/requestHandler.cpp:225-240 | A registered request becomes served with the value, an unknown identifier is ignored, and no other request is touched |
| `RequestObjects.Handler.WaitRequest` | lunchbox/requestHandler.cpp:84-116 | A served request yields its value, is forgotten, and its record goes locked to the front of the free list; otherwise nothing changes |
| `RequestObjects.Handler.IsRequestReady` | lunchbox/requestHandler.cpp:296-308 | True if and only if the request is served, and nothing is changed |
| `RequestObjects.Handler.Perform` | lunchbox/requestHandler.cpp:65-128 | Any sequence of calls, those the discipline forbids left out, does to the pool what the calls do one by one, and leaves a request that none of them names as it was |
| `RequestObjects.Request.Wait` | lunchbox/request.h:104-122 | The handler is asked only while unresolved: the value served, kept from then on, or a timeout that changes nothing; an unregistered request reports that |
| `RequestObjects.Request.IsReady` | lunchbox/request.h:124-135 | True if and only if resolved, or unresolved and served |
| `RequestObjects.Request.Unregister` | lunchbox/request.h:92-99 | An unresolved request is forgotten for good, soundly if and only if it had not been served; otherwise nothing changes |
| `RequestObjects.WaitTwice` | lunchbox/request.h:92-146 | With any calls about other requests in between, a request times out until it is served, then its first and every later wait return the value it was served with |
| `RequestObjects.AnswerSurvivesRecycling` | lunchbox/requestHandler.cpp:65-128 | A second request gets the first one's record and is served with another value; each still answers with its own |
| `LFQueue.RunIsFifo` | lunchbox/lfQueue.ipp:38-71 | Under every interleaving, what was popped followed by what the ring holds are the arguments of the pushes that succeeded, and at most getCapacity() elements are held |
| `LFQueue.PopReturnsNthPush` | lunchbox/lfQueue.ipp:38-71 | The n-th element pop returns is the argument of the n-th push that succeeded, and getFront returns what pop would |
| `LFQueue.WriterFollows` | lunchbox/lfQueue.ipp:61-71 | push goes from its argument to its load, returns false if and only if the queue is full then, and otherwise stores and then publishes |
| `LFQueue.ReaderFollows` | lunchbox/lfQueue.ipp:38-58 | pop and getFront return false if and only if the queue is empty at their load, and otherwise load the element and return |
| `LFQueue.CallsAreRecorded` | lunchbox/lfQueue.ipp:38-71 | The pushed and popped histories are those of the calls made |
| `LFQueue.ReaderGetsTheOldest` | lunchbox/lfQueue.ipp:38-58 | What pop and getFront load is the first element pushed and not yet popped |
| `LFQueue.FalseIsHonest` | lunchbox/lfQueue.ipp:61-66 | At the load that decides it, push fails if and only if the queue is full, pop and getFront if and only if it is empty |
| `LFQueue.WriterStep` | lunchbox/lfQueue.ipp:61-71 | No step of push changes an unread element; the last one appends the argument of the push under way |
| `LFQueue.ReaderStep` | lunchbox/lfQueue.ipp:38-58 | No step of pop changes the contents but the last, which removes the front; getFront changes nothing |
| `SpinLock.WordCountsHolders` | lunchbox/spinLock.cpp:50-103 | In every run of fewer than 2^31 threads the word is -1 if and only if one writer and no reader is inside, and n >= 0 if and only if n readers and no writer are |
| `SpinLock.HoldersFollow` | lunchbox/spinLock.cpp:50-99 | Who comes and goes: trySet enters exactly an empty lock, unset empties it, a successful read or leave attempt adds or removes just that reader, and nothing else changes who is inside |
| `SpinLock.LeaveAttemptIff` | lunchbox/spinLock.cpp:74-84 | unsetRead leaves if and only if as many readers are inside as at its load, and otherwise stays to try again |
| `SpinLock.WriterIsAlone` | lunchbox/spinLock.cpp:50-84 | A writer excludes everybody else, and the assertions in unset and unsetRead hold |
| `SpinLock.WriteAttemptIff` | lunchbox/spinLock.cpp:56-62 | trySet succeeds if and only if nobody is inside at its compare-and-swap |
| `SpinLock.ReadAttemptIff` | lunchbox/spinLock.cpp:86-99 | trySetRead succeeds if and only if, at its compare-and-swap, no writer is inside and as many readers as at its load, or none if a writer was inside then |
| `SpinLock.ReaderEnters` | lunchbox/spinLock.cpp:86-99 | A compare-and-swap with a stale expectation keeps the count right, and no count overflows |
| `ThreadPool.WorkIsConserved` | lunchbox/threadPool.cpp:61-76 | In every run the tasks of the calls of post are the dequeued ones followed by the pending ones, each is started at most once, and before the stop, while a worker sleeps, pending tasks are at most the woken workers plus the posters that owe a notification |
| `ThreadPool.WorkersFollow` | lunchbox/threadPool.cpp:61-76 | A worker leaves only after the stop, sleeps only when nothing is pending, and otherwise takes the oldest pending task, runs it and comes back; no step moves another worker, except that the stop wakes all |
| `ThreadPool.SleepMeansNoWork` | lunchbox/threadPool.h:95-119 | With a worker asleep, none woken and no notification owed, no task is pending |
| `ThreadPool.StopWakesEverybody` | lunchbox/threadPool.cpp:34-70 | After the stop no worker sleeps, and each that evaluates its wait predicate leaves, so the join cannot hang on a lost notification |
| `ThreadPool.DestructorFinishesAllIff` | lunchbox/threadPool.cpp:34-76 | When the workers are joined, all tasks were run if and only if none was pending at the stop and none was posted after it |
| `ThreadPool.DestructorDropsATask` | lunchbox/threadPool.h:50-53 | A run whose destructor returns with a task that was never started |
| `Buffer.CopyingIsAmortised` | lunchbox/buffer.ipp:73-128 | Over any run of append, resize, grow and setSize from empty, reallocation copies at most 9 times the largest size reached, and the allocation is at most nine eighths of that size |
| `Buffer.AppendsAreAmortised` | lunchbox/buffer.ipp:73-128 | Over any run of appends from empty, at most 9 elements are copied for each one appended |
| `Buffer.Play` | lunchbox/buffer.ipp:73-128 | Any chunks appended to a new buffer leave their concatenation, with at most nine elements copied for each one held and at most nine eighths allocated |
| `Buffer.Block.Resize` | lunchbox/buffer.ipp:73-85 | Keeps the elements up to the new size, with the allocation rule the amortised bound is about |
| `Buffer.Block.Grow` | lunchbox/buffer.ipp:88-92 | Never shrinks, keeps all elements |
| `Buffer.Block.Reserve` | lunchbox/buffer.ipp:95-103 | Keeps the elements and the size, allocates exactly |
| `Buffer.Block.Reset` | lunchbox/buffer.ipp:106-111 | Takes the new size, keeping what fits, allocates exactly |
| `Buffer.Block.Append` | lunchbox/buffer.ipp:114-128 | The contents become the concatenation, within the allocation |
| `Buffer.Block.Replace` | lunchbox/buffer.ipp:131-139 | The contents become exactly the given elements |
| `Buffer.Block.Pack` | lunchbox/buffer.ipp:43-51 | Keeps the elements and drops the headroom |
| `Buffer.Block.SetSize` | lunchbox/buffer.ipp:158-166 | Succeeds if and only if the size fits the allocation, otherwise changes nothing |
| `CommandLine.BuildCommandLine` | lunchbox/fork.cpp:41-91 | For every input all buffer accesses are in bounds, and the result is the token list of the recursive specification |
| `CommandLine.RoundTripIff` | lunchbox/fork.cpp:41-91 | Escaping or quoting each argument, joining with spaces and tokenising gives the list back if and only if no argument holds a NUL and the last is not empty; in general an empty last argument is dropped and each of the others is cut at its first NUL |
| `CommandLine.JoinRecovered` | lunchbox/fork.cpp:54-89 | The same for any encoding that adds exactly its argument to the token being read |
| `CommandLine.EmptyLastArgumentIsLost` | lunchbox/fork.cpp:84-88 | A quoted empty last argument disappears |
| `CommandLine.ProducibleIff` | lunchbox/fork.cpp:41-91 | Some command, even one without a NUL, has the given token list if and only if no argument of it holds a NUL |
| `CommandLine.CommandForTokens` | lunchbox/fork.cpp:54-89 | Escaping and joining, with a lone backslash for an empty last argument, round-trips every list of arguments without a NUL |
| `CommandLine.TokensAreNulFree` | lunchbox/fork.cpp:60-88 | From any state of the loop, no token holds a NUL |
| `CommandLine.BackslashSpells` | lunchbox/fork.cpp:73-76 | A backslash makes any character stand for itself, inside quotes and outside |
| `CommandLine.OpenQuote` | lunchbox/fork.cpp:69-88 | A quote that is never closed is closed by the end of the command |
| `CommandLine.TrailingBackslash` | lunchbox/fork.cpp:72-88 | A trailing backslash takes the terminating NUL and makes an empty last argument |

## Left out

- The slot arrays are values in the class LFVector.Vector; the arrays, the pointers to them and that they stay put are modelled in LFVectorReaders.
- LFVector.Vector.CopyFrom: locks are not part of the class; the deadlock of two opposite assignments, which the source mentions, is not modelled.
- IntervalSet.Set.InsertSet: a build in which the assertion of insert is compiled out is not modelled.
- Buffer.Block.Append: appending a piece of the buffer to itself, and byte counts that overflow, are not modelled; elements are values.
- RequestHandler.WaitReturnsWhatWasServed: stated for one waiting and one serving thread, each request served at most once and used through one Request object; the result union is one value type.
- RequestObjects.Handler.ServeRequest: serving a request twice would unlock a mutex that is not locked, which is undefined and not modelled.
- SpinLock, LFQueue, ThreadPool, LFVectorReaders and the runs of MTQueue and RequestHandler are transition systems on values: aliasing and memory reclamation are not captured, and weak memory effects and barriers are not modelled.
- Fairness and progress: set, setRead and unsetRead spin, and a blocked push may wait forever; only safety and the absence of lost wakeups are proved.
- `Group::setHeight` during use, and the reference that `MTQueue::operator[]` hands out after unlocking.
- Concurrent shrinking of an LFVector with readers; the sized constructors, iterators and serialisation of LFVector; the shift width of `1 << i` on int.
- `LFQueue::clear` and `resize`, `Buffer::setZero`, `Buffer::swap` and moves, the opaque data pointer of a request record: easier members.
- RefPtr, Referenced, Monitor, Pool, FutureFunction, Any, Result, string helpers, byteswap: easier members, or ones that repeat the counting and wakeup arguments above.
- Log, Clock, DSO, MemoryMap, files, RNG, thread-local storage, threads, daemon, process creation and plugin loading: input and output, operating system calls or libraries outside the repository.
