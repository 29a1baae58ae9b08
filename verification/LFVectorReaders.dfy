/** LFVector growing under concurrent reads: any number of threads push or
    expand, one at a time behind the spin lock, while any number of threads read
    without a lock. Every load and store is a step of its own. */
module LFVectorReaders {
  import opened Bits
  import opened Common
  import opened LFVectorIndex

  type Tid = nat
  type Address = nat

  /** What a thread that holds the lock has been called for. */
  datatype Job<T> = PushBack(item: T) | Expand(newSize: nat, item: T)

  /** How far push_back_unlocked_ has got: `i` is size_ + 1 as it was loaded. */
  datatype Phase = Start | Sized(i: nat) | HasSlot(i: nat, slot: nat) | Stored(i: nat, slot: nat)

  datatype Writer<T> = Writer(job: Job<T>, phase: Phase)

  /** Unlocked reading: load size_ once, then for any number of indices below it load
      slots_[slot] and the element. */
  datatype Reader<T> =
    | Resting
    | Bound(n: nat)
    | HasPointer(n: nat, i: nat, p: Option<Address>)
    | Got(n: nat, i: nat, x: T)
    | Crashed

  /** `memory` holds the arrays ever allocated, `slots` points into it, and
      `pushed` lists the items in the order in which size_ counted them. */
  datatype State<T> = State(memory: seq<seq<T>>, slots: seq<Option<Address>>, size: nat,
                            lock: Option<Writer<T>>, readers: map<Tid, Reader<T>>, pushed: seq<T>)

  datatype Action<T> =
    | Acquire(job: Job<T>)
    | LoadSize
    | CheckSlot(row: seq<T>)
    | StoreItem
    | BumpSize
    | ReadSize(t: Tid)
    | ReadSlot(t: Tid, i: nat)
    | ReadItem(t: Tid)

  ghost predicate Init<T>(s: State<T>) {
    && s.memory == [] && s.size == 0 && s.pushed == [] && s.lock == None
    && (forall k :: 0 <= k < |s.slots| ==> s.slots[k] == None)
    && forall t :: t in s.readers ==> s.readers[t] == Resting
  }

  function Item<T>(job: Job<T>): T {
    job.item
  }

  ghost predicate Enabled<T>(s: State<T>, a: Action<T>) {
    match a
    case Acquire(_) => s.lock == None
    case LoadSize => s.lock.Some? && s.lock.value.phase.Start?
    // new T[sz] yields sz elements of whatever value.
    case CheckSlot(row) =>
      s.lock.Some? && s.lock.value.phase.Sized? && s.lock.value.phase.i > 0 &&
      |row| == Pow2(LastBit(s.lock.value.phase.i))
    case StoreItem =>
      && s.lock.Some? && s.lock.value.phase.HasSlot?
      && var ph := s.lock.value.phase;
      && ph.slot < |s.slots| && s.slots[ph.slot].Some? && s.slots[ph.slot].value < |s.memory|
      && Xor(ph.i, Pow2(ph.slot)) < |s.memory[s.slots[ph.slot].value]|
    case BumpSize => s.lock.Some? && s.lock.value.phase.Stored?
    case ReadSize(t) => t in s.readers
    case ReadSlot(t, i) => t in s.readers && (s.readers[t].Bound? || s.readers[t].Got?) && i < s.readers[t].n
    case ReadItem(t) => t in s.readers && s.readers[t].HasPointer?
  }

  ghost function At<T>(s: State<T>, ph: Phase): State<T>
    requires s.lock.Some?
  {
    s.(lock := Some(s.lock.value.(phase := ph)))
  }

  ghost function Step<T>(s: State<T>, a: Action<T>): State<T>
    requires Enabled(s, a)
  {
    match a
    case Acquire(job) => s.(lock := Some(Writer(job, Start)))
    case LoadSize =>
      var job := s.lock.value.job;
      // expand stops as soon as the size has been reached.
      if job.Expand? && job.newSize <= s.size then s.(lock := None) else At(s, Sized(s.size + 1))
    case CheckSlot(row) =>
      var i := s.lock.value.phase.i;
      var slot := LastBit(i);
      // A full vector throws, which releases the lock.
      if slot >= |s.slots| then s.(lock := None)
      else if s.slots[slot] == None then
        At(s.(memory := s.memory + [row], slots := s.slots[slot := Some(|s.memory|)]), HasSlot(i, slot))
      else At(s, HasSlot(i, slot))
    case StoreItem =>
      var ph := s.lock.value.phase;
      var p := s.slots[ph.slot].value;
      var written := s.memory[p][Xor(ph.i, Pow2(ph.slot)) := Item(s.lock.value.job)];
      At(s.(memory := s.memory[p := written]), Stored(ph.i, ph.slot))
    case BumpSize =>
      var job := s.lock.value.job;
      var r := s.(size := s.size + 1, pushed := s.pushed + [Item(job)]);
      if job.PushBack? then r.(lock := None) else At(r, Start)
    case ReadSize(t) => s.(readers := s.readers[t := Bound(s.size)])
    case ReadSlot(t, i) =>
      var slot := Slot(i);
      var p := if slot < |s.slots| then s.slots[slot] else None;
      s.(readers := s.readers[t := HasPointer(s.readers[t].n, i, p)])
    case ReadItem(t) =>
      var r := s.readers[t];
      var got := if r.p.Some? && r.p.value < |s.memory| && Offset(r.i) < |s.memory[r.p.value]|
                 then Got(r.n, r.i, s.memory[r.p.value][Offset(r.i)]) else Crashed;
      s.(readers := s.readers[t := got])
  }

  /** The slot array as its reader sees it: pointers followed. */
  ghost function Followed<T>(memory: seq<seq<T>>, slots: seq<Option<Address>>): Slots<T> {
    seq(|slots|, k requires 0 <= k < |slots| =>
      if slots[k].Some? && slots[k].value < |memory| then Some(memory[slots[k].value]) else None)
  }

  /** Each slot has an array to itself. */
  ghost predicate Pointers<T>(memory: seq<seq<T>>, slots: seq<Option<Address>>) {
    && (forall k :: 0 <= k < |slots| && slots[k].Some? ==> slots[k].value < |memory|)
    && forall k, l :: 0 <= k < l < |slots| && slots[k].Some? && slots[l].Some? ==> slots[k].value != slots[l].value
  }

  ghost predicate WriterInv<T>(s: State<T>, w: Writer<T>) {
    match w.phase
    case Start => true
    case Sized(i) => i == s.size + 1
    case HasSlot(i, slot) =>
      i == s.size + 1 && slot == Slot(s.size) && slot < |s.slots| && s.slots[slot].Some?
    case Stored(i, slot) =>
      i == s.size + 1 && Holds(Followed(s.memory, s.slots), s.size, Item(w.job))
  }

  ghost predicate ReaderInv<T>(s: State<T>, r: Reader<T>) {
    match r
    case Resting => true
    case Bound(n) => n <= s.size
    case HasPointer(n, i, p) => i < n <= s.size && Slot(i) < |s.slots| && p.Some? && s.slots[Slot(i)] == p
    case Got(n, i, x) => i < n <= |s.pushed| && x == s.pushed[i]
    case Crashed => false
  }

  ghost predicate Inv<T>(s: State<T>) {
    && Pointers(s.memory, s.slots)
    && |s.pushed| == s.size && Cells(Followed(s.memory, s.slots), s.pushed)
    && (s.lock.Some? ==> WriterInv(s, s.lock.value))
    && forall t :: t in s.readers ==> ReaderInv(s, s.readers[t])
  }

  lemma FollowedAllocate<T>(memory: seq<seq<T>>, slots: seq<Option<Address>>, k: nat, row: seq<T>)
    requires Pointers(memory, slots) && k < |slots|
    ensures Pointers(memory + [row], slots[k := Some(|memory|)])
    ensures Followed(memory + [row], slots[k := Some(|memory|)]) == Followed(memory, slots)[k := Some(row)]
  {
  }

  lemma FollowedWrite<T>(memory: seq<seq<T>>, slots: seq<Option<Address>>, k: nat, index: nat, x: T)
    requires Pointers(memory, slots) && k < |slots| && slots[k].Some? && index < |memory[slots[k].value]|
    ensures var p := slots[k].value;
            Followed(memory[p := memory[p][index := x]], slots) == Write(Followed(memory, slots), k, index, x)
  {
    var p := slots[k].value;
    var r := memory[p := memory[p][index := x]];
    forall l | 0 <= l < |slots|
      ensures Followed(r, slots)[l] == Write(Followed(memory, slots), k, index, x)[l]
    {
      assert l < k && slots[l].Some? ==> slots[l].value != p;
      assert k < l && slots[l].Some? ==> slots[l].value != p;
    }
  }

  lemma AllocateKeepsInv<T>(s: State<T>, row: seq<T>)
    requires Inv(s) && Enabled(s, CheckSlot(row))
    ensures Inv(Step(s, CheckSlot(row)))
  {
    var slot := LastBit(s.lock.value.phase.i);
    assert slot == Slot(s.size);
    if slot < |s.slots| && s.slots[slot] == None {
      FollowedAllocate(s.memory, s.slots, slot, row);
      OtherSlotCells(Followed(s.memory, s.slots), s.pushed, slot, Some(row));
    }
  }

  /** The store goes to the place for index size, which no reader may look at. */
  lemma StoreKeepsInv<T>(s: State<T>)
    requires Inv(s) && Enabled(s, StoreItem)
    ensures Inv(Step(s, StoreItem))
  {
    var w := s.lock.value;
    var rows := Followed(s.memory, s.slots);
    var index := Xor(w.phase.i, Pow2(w.phase.slot));
    assert index == Offset(s.size);
    FollowedWrite(s.memory, s.slots, w.phase.slot, index, Item(w.job));
    PushCells(rows, s.pushed, Item(w.job));
    var r := Step(s, StoreItem);
    var after := s.pushed + [Item(w.job)];
    assert Holds(Followed(r.memory, r.slots), s.size, after[s.size]);
    PrefixCells(Followed(r.memory, r.slots), after, s.size);
    assert after[..s.size] == s.pushed;
  }

  /** A writer that has its slot can always store: the pointer is good and the
      place is inside the array. */
  lemma StoreIsPossible<T>(s: State<T>)
    requires Inv(s) && s.lock.Some? && s.lock.value.phase.HasSlot?
    ensures Enabled(s, StoreItem)
  {
    var slot := s.lock.value.phase.slot;
    assert Followed(s.memory, s.slots)[slot] == Some(s.memory[s.slots[slot].value]);
    assert Xor(s.size + 1, Pow2(slot)) == Offset(s.size);
  }

  lemma BumpKeepsInv<T>(s: State<T>)
    requires Inv(s) && Enabled(s, BumpSize)
    ensures Inv(Step(s, BumpSize))
  {
  }

  lemma ReadKeepsInv<T>(s: State<T>, a: Action<T>)
    requires Inv(s) && Enabled(s, a) && (a.ReadSize? || a.ReadSlot? || a.ReadItem?)
    ensures Inv(Step(s, a))
  {
    var rows := Followed(s.memory, s.slots);
    if a.ReadSlot? {
      assert Holds(rows, a.i, s.pushed[a.i]);
    } else if a.ReadItem? {
      var i := s.readers[a.t].i;
      assert Holds(rows, i, s.pushed[i]);
    }
  }

  lemma StepKeepsInv<T>(s: State<T>, a: Action<T>)
    requires Inv(s) && Enabled(s, a)
    ensures Inv(Step(s, a)) && s.pushed <= Step(s, a).pushed
  {
    match a
    case Acquire(_) =>
    case LoadSize =>
    case CheckSlot(row) => AllocateKeepsInv(s, row);
    case StoreItem => StoreKeepsInv(s);
    case BumpSize => BumpKeepsInv(s);
    case ReadSize(_) => ReadKeepsInv(s, a);
    case ReadSlot(_, _) => ReadKeepsInv(s, a);
    case ReadItem(_) => ReadKeepsInv(s, a);
  }

  ghost predicate Run<T(!new)>(states: seq<State<T>>, actions: seq<Action<T>>) {
    && |states| == |actions| + 1 && Init(states[0])
    && forall i :: 0 <= i < |actions| ==>
         Enabled(states[i], actions[i]) && states[i + 1] == Step(states[i], actions[i])
  }

  lemma {:induction false} RunKeepsInv<T(!new)>(states: seq<State<T>>, actions: seq<Action<T>>, i: nat)
    requires Run(states, actions) && i < |states|
    ensures Inv(states[i]) && |states[i].slots| == |states[0].slots|
  {
    if i > 0 {
      RunKeepsInv(states, actions, i - 1);
      StepKeepsInv(states[i - 1], actions[i - 1]);
    }
  }

  lemma {:induction false} PushedGrows<T(!new)>(states: seq<State<T>>, actions: seq<Action<T>>, i: nat, j: nat)
    requires Run(states, actions) && i <= j < |states|
    ensures states[i].pushed <= states[j].pushed
  {
    if i < j {
      PushedGrows(states, actions, i, j - 1);
      PushedStays(states[j - 1], actions[j - 1]);
    }
  }

  lemma PushedStays<T>(s: State<T>, a: Action<T>)
    requires Enabled(s, a)
    ensures s.pushed <= Step(s, a).pushed
  {
  }

  /** Elements never move: the array a slot points to stays the same for the rest of
      the run. */
  lemma {:induction false} ElementsNeverMove<T(!new)>(states: seq<State<T>>, actions: seq<Action<T>>,
                                                      i: nat, j: nat, k: nat)
    requires Run(states, actions) && i <= j < |states| && k < |states[i].slots| && states[i].slots[k].Some?
    ensures k < |states[j].slots| && states[j].slots[k] == states[i].slots[k]
  {
    if i < j {
      ElementsNeverMove(states, actions, i, j - 1, k);
      SlotStays(states[j - 1], actions[j - 1], k);
    }
  }

  lemma SlotStays<T>(s: State<T>, a: Action<T>, k: nat)
    requires Enabled(s, a) && k < |s.slots| && s.slots[k].Some?
    ensures k < |Step(s, a).slots| && Step(s, a).slots[k] == s.slots[k]
  {
  }

  /** The size is bumped for each element: whatever size lies between two sizes of
      a run was there for a reader to load in between. */
  lemma {:induction false} EverySizeIsPublished<T(!new)>(states: seq<State<T>>, actions: seq<Action<T>>,
                                                         i: nat, j: nat, m: nat) returns (k: nat)
    requires Run(states, actions) && i <= j < |states| && states[i].size <= m <= states[j].size
    ensures i <= k <= j && states[k].size == m
  {
    if states[j].size == m {
      k := j;
    } else {
      assert states[j].size <= states[j - 1].size + 1;
      k := EverySizeIsPublished(states, actions, i, j - 1, m);
    }
  }

  // ---- what the calls come to ----------------------------------------------------

  /** What a call makes of a plain sequence, in a vector for fewer than `limit` elements. */
  ghost function Applied<T>(c: seq<T>, limit: nat, job: Job<T>): seq<T> {
    match job
    case PushBack(x) => if |c| + 1 < limit then c + [x] else c
    case Expand(newSize, x) =>
      var n := if newSize < limit then newSize else limit - 1;
      if n <= |c| then c else c + seq(n - |c|, _ => x)
  }

  ghost function Played<T>(limit: nat, jobs: seq<Job<T>>): seq<T> {
    if jobs == [] then [] else Applied(Played(limit, jobs[..|jobs| - 1]), limit, jobs[|jobs| - 1])
  }

  /** The calls of push_back and expand, in the order in which they got the lock. */
  ghost function Jobs<T>(actions: seq<Action<T>>): seq<Job<T>> {
    if actions == [] then []
    else
      var a := actions[|actions| - 1];
      Jobs(actions[..|actions| - 1]) + if a.Acquire? then [a.job] else []
  }

  /** A call that found the elements `base` is under way. */
  ghost predicate Doing<T>(s: State<T>, base: seq<T>, job: Job<T>) {
    && s.lock.Some? && s.lock.value.job == job
    && match job
       case PushBack(_) => s.pushed == base
       case Expand(newSize, x) =>
         && |base| <= |s.pushed| && s.pushed == base + seq(|s.pushed| - |base|, _ => x)
         && (s.lock.value.phase.Start? ==> |s.pushed| <= newSize || s.pushed == base)
         && (!s.lock.value.phase.Start? ==> |s.pushed| < newSize)
  }

  lemma PushStep<T>(s: State<T>, a: Action<T>, base: seq<T>, job: Job<T>)
    requires Inv(s) && Enabled(s, a) && Doing(s, base, job) && job.PushBack?
    ensures var r := Step(s, a);
            if r.lock.Some? then Doing(r, base, job) else r.pushed == Applied(base, Pow2(|s.slots|), job)
  {
    SlotBelow(s.size, |s.slots|);
  }

  lemma ExpandStep<T>(s: State<T>, a: Action<T>, base: seq<T>, job: Job<T>)
    requires Inv(s) && Enabled(s, a) && Doing(s, base, job) && job.Expand?
    ensures var r := Step(s, a);
            if r.lock.Some? then Doing(r, base, job) else r.pushed == Applied(base, Pow2(|s.slots|), job)
  {
    CellsFit(Followed(s.memory, s.slots), s.pushed);
    SlotBelow(s.size, |s.slots|);
  }

  /** A state as the calls so far have made it. */
  ghost predicate Tied<T>(s: State<T>, limit: nat, jobs: seq<Job<T>>) {
    if s.lock.None? then s.pushed == Played(limit, jobs)
    else jobs != [] && Doing(s, Played(limit, jobs[..|jobs| - 1]), jobs[|jobs| - 1])
  }

  lemma StepKeepsTied<T>(s: State<T>, a: Action<T>, jobs: seq<Job<T>>)
    requires Inv(s) && Enabled(s, a) && Tied(s, Pow2(|s.slots|), jobs)
    ensures Tied(Step(s, a), Pow2(|s.slots|), if a.Acquire? then jobs + [a.job] else jobs)
  {
    if a.Acquire? {
      assert (jobs + [a.job])[..|jobs|] == jobs;
      assert s.pushed + [] == s.pushed;
    } else if s.lock.Some? {
      var base, job := Played(Pow2(|s.slots|), jobs[..|jobs| - 1]), jobs[|jobs| - 1];
      if job.PushBack? {
        PushStep(s, a, base, job);
      } else {
        ExpandStep(s, a, base, job);
      }
    }
  }

  /** In every run the vector holds what its calls, in the order in which they got
      the lock, make of a plain sequence; the last one may be under way. */
  lemma {:induction false} RunPlaysJobs<T(!new)>(states: seq<State<T>>, actions: seq<Action<T>>, i: nat)
    requires Run(states, actions) && i < |states|
    ensures Tied(states[i], Pow2(|states[0].slots|), Jobs(actions[..i]))
  {
    if i > 0 {
      RunPlaysJobs(states, actions, i - 1);
      RunKeepsInv(states, actions, i - 1);
      JobsNext(actions, i - 1);
      StepKeepsTied(states[i - 1], actions[i - 1], Jobs(actions[..i - 1]));
    }
  }

  /** States i to j are one call, from the lock to its release. */
  ghost predicate OneCall<T(!new)>(states: seq<State<T>>, actions: seq<Action<T>>, i: nat, j: nat, job: Job<T>) {
    && Run(states, actions) && 0 < i < j < |states| && actions[i - 1] == Acquire(job)
    && (forall k :: i <= k < j ==> states[k].lock.Some?) && states[j].lock.None?
  }

  lemma JobsNext<T>(actions: seq<Action<T>>, k: nat)
    requires k < |actions|
    ensures Jobs(actions[..k + 1]) ==
            if actions[k].Acquire? then Jobs(actions[..k]) + [actions[k].job] else Jobs(actions[..k])
  {
    assert actions[..k + 1][..k] == actions[..k];
  }

  lemma {:induction false} JobsStay<T>(actions: seq<Action<T>>, i: nat, j: nat)
    requires 0 < i <= j <= |actions| && actions[i - 1].Acquire?
    requires forall k :: i <= k < j ==> !actions[k].Acquire?
    ensures Jobs(actions[..j]) == Jobs(actions[..i - 1]) + [actions[i - 1].job]
  {
    JobsNext(actions, j - 1);
    if j > i {
      JobsStay(actions, i, j - 1);
    }
  }

  lemma LockedOut<T(!new)>(states: seq<State<T>>, actions: seq<Action<T>>, k: nat)
    requires Run(states, actions) && k < |actions| && states[k].lock.Some?
    ensures !actions[k].Acquire?
  {
  }

  /** A call of push_back appends its item if there is room for one more, and a call
      of expand its item until the size asked for or the last there is room for. */
  lemma CallEndsWith<T(!new)>(states: seq<State<T>>, actions: seq<Action<T>>, i: nat, j: nat, job: Job<T>)
    requires OneCall(states, actions, i, j, job)
    ensures states[j].pushed == Applied(states[i].pushed, Pow2(|states[0].slots|), job)
  {
    var limit, before := Pow2(|states[0].slots|), Jobs(actions[..i - 1]);
    RunPlaysJobs(states, actions, i - 1);
    RunPlaysJobs(states, actions, j);
    forall k | i <= k < j ensures !actions[k].Acquire? {
      LockedOut(states, actions, k);
    }
    JobsStay(actions, i, j);
    assert (before + [job])[..|before|] == before;
    assert Enabled(states[i - 1], actions[i - 1]) && states[i].pushed == states[i - 1].pushed;
  }

  predicate OfWriter<T>(a: Action<T>) {
    a.LoadSize? || a.CheckSlot? || a.StoreItem? || a.BumpSize?
  }

  /** How many more steps a call can take. */
  ghost function Left<T>(size: nat, w: Writer<T>): nat {
    var rank := match w.phase case Start => 4 case Sized(_) => 3 case HasSlot(_, _) => 2 case Stored(_, _) => 1;
    rank + if w.job.Expand? && size < w.job.newSize then 4 * (w.job.newSize - size) else 0
  }

  /** Every call comes to an end: while it holds the lock it can take a step of its
      own, and each such step releases the lock or leaves fewer to take. */
  lemma CallGoesOn<T(!new)>(states: seq<State<T>>, actions: seq<Action<T>>, i: nat, blank: T)
    requires Run(states, actions) && i < |states| && states[i].lock.Some?
    ensures exists a :: OfWriter(a) && Enabled(states[i], a)
    ensures i < |actions| && OfWriter(actions[i]) ==>
              states[i + 1].lock.None? ||
              Left(states[i + 1].size, states[i + 1].lock.value) < Left(states[i].size, states[i].lock.value)
  {
    var s := states[i];
    RunKeepsInv(states, actions, i);
    RunPlaysJobs(states, actions, i);
    var w := s.lock.value;
    match w.phase {
      case Start => assert OfWriter(Action<T>.LoadSize) && Enabled(s, LoadSize);
      case Sized(n) =>
        var row := seq(Pow2(LastBit(n)), _ => blank);
        assert OfWriter(CheckSlot(row)) && Enabled(s, CheckSlot(row));
      case HasSlot(_, _) =>
        StoreIsPossible(s);
        assert OfWriter(Action<T>.StoreItem) && Enabled(s, StoreItem);
      case Stored(_, _) => assert OfWriter(Action<T>.BumpSize) && Enabled(s, BumpSize);
    }
    if i < |actions| && OfWriter(actions[i]) {
      WriterAdvances(s, actions[i]);
    }
  }

  lemma WriterAdvances<T>(s: State<T>, a: Action<T>)
    requires Inv(s) && Enabled(s, a) && OfWriter(a) && s.lock.Some?
    requires s.lock.value.job.Expand? && !s.lock.value.phase.Start? ==> s.size < s.lock.value.job.newSize
    ensures var r := Step(s, a); r.lock.None? || Left(r.size, r.lock.value) < Left(s.size, s.lock.value)
  {
  }

  /** The size a call of expand ends with. */
  lemma ExpandEndsWith<T(!new)>(states: seq<State<T>>, actions: seq<Action<T>>, i: nat, j: nat,
                                newSize: nat, item: T)
    requires OneCall(states, actions, i, j, Expand(newSize, item))
    ensures states[j].size ==
            if newSize <= states[i].size then states[i].size
            else if newSize < Pow2(|states[0].slots|) then newSize else Pow2(|states[0].slots|) - 1
  {
    CallEndsWith(states, actions, i, j, Expand(newSize, item));
    RunKeepsInv(states, actions, i);
    RunKeepsInv(states, actions, j);
    CellsFit(Followed(states[i].memory, states[i].slots), states[i].pushed);
  }

  lemma SizesGrow<T(!new)>(states: seq<State<T>>, actions: seq<Action<T>>, i: nat, j: nat)
    requires Run(states, actions) && i <= j < |states|
    ensures states[i].size <= states[j].size
  {
    PushedGrows(states, actions, i, j);
    RunKeepsInv(states, actions, i);
    RunKeepsInv(states, actions, j);
  }

  /** When expand updates the size in one go: at every moment of the call a reader
      would load the size before or the size after it, just when it asks for at
      most one element more or there is room for at most one. */
  lemma ExpandIsAtomicIff<T(!new)>(states: seq<State<T>>, actions: seq<Action<T>>, i: nat, j: nat,
                                   newSize: nat, item: T)
    requires OneCall(states, actions, i, j, Expand(newSize, item))
    ensures (forall k :: i <= k <= j ==> states[k].size == states[i].size || states[k].size == states[j].size) <==>
            (newSize <= states[i].size + 1 || Pow2(|states[0].slots|) <= states[i].size + 2)
  {
    var start, end := states[i].size, states[j].size;
    ExpandEndsWith(states, actions, i, j, newSize, item);
    SizesGrow(states, actions, i, j);
    if end <= start + 1 {
      forall k | i <= k <= j ensures states[k].size == start || states[k].size == end {
        SizesGrow(states, actions, i, k);
        SizesGrow(states, actions, k, j);
      }
    } else {
      var k := EverySizeIsPublished(states, actions, i, j, start + 1);
    }
  }

  /** Unlocked reads are safe. Whatever the interleaving, no read follows a null
      pointer or leaves its array, what it gets for index i is the i-th item that
      the calls pushed, now and for the rest of the run, and the size stays below
      2^nSlots. */
  lemma ReadersSeePushedItems<T(!new)>(states: seq<State<T>>, actions: seq<Action<T>>, i: nat, j: nat, t: Tid)
    requires Run(states, actions) && i <= j < |states| && t in states[i].readers
    ensures states[i].size < Pow2(|states[0].slots|) && |states[i].pushed| == states[i].size
    ensures states[i].readers[t] != Crashed
    ensures var r := states[i].readers[t];
            r.Got? ==> r.i < r.n <= |states[j].pushed| && r.x == states[j].pushed[r.i]
    ensures Tied(states[j], Pow2(|states[0].slots|), Jobs(actions[..j]))
  {
    var s := states[i];
    RunKeepsInv(states, actions, i);
    PushedGrows(states, actions, i, j);
    RunPlaysJobs(states, actions, j);
    CellsFit(Followed(s.memory, s.slots), s.pushed);
    assert ReaderInv(s, s.readers[t]);
  }

  lemma RunOn<T(!new)>(states: seq<State<T>>, actions: seq<Action<T>>, a: Action<T>, r: State<T>)
    requires Run(states, actions) && Enabled(states[|actions|], a) && Step(states[|actions|], a) == r
    ensures Run(states + [r], actions + [a]) && (states + [r])[|actions + [a]|] == r
  {
  }

  /** Expanding an empty vector to two elements: a reader can see it with one. */
  lemma ExpandIsSeenHalfway() returns (states: seq<State<int>>, actions: seq<Action<int>>)
    ensures Run(states, actions)
    ensures var s := states[|actions|];
            s.lock.Some? && s.lock.value.job == Expand(2, 7) && s.readers == map[0 := Bound(1)]
  {
    var s: State<int>;
    states, actions, s := ExpandHasItsSlot();
    XorLastBit(1, 0);
    var r := s.(memory := [[7]], lock := Some(s.lock.value.(phase := Stored(1, 0))));
    assert s.memory[0][0 := 7] == [7];
    RunOn(states, actions, StoreItem, r);
    states, actions := states + [r], actions + [StoreItem];
    var p := Step(r, BumpSize);
    RunOn(states, actions, BumpSize, p);
    states, actions := states + [p], actions + [BumpSize];
    RunOn(states, actions, ReadSize(0), Step(p, ReadSize(0)));
    states, actions := states + [Step(p, ReadSize(0))], actions + [ReadSize(0)];
  }

  lemma ExpandHasItsSlot() returns (states: seq<State<int>>, actions: seq<Action<int>>, s: State<int>)
    ensures Run(states, actions) && s == states[|actions|]
    ensures s == State([[0]], [Some(0), None], 0, Some(Writer(Expand(2, 7), HasSlot(1, 0))), map[0 := Resting], [])
  {
    LastBitUnique(1, 0);
    s := State([], [None, None], 0, None, map[0 := Resting], []);
    states, actions := [s], [];
    var a: Action<int> := Acquire(Expand(2, 7));
    RunOn(states, actions, a, Step(s, a));
    s := Step(s, a);
    states, actions := states + [s], actions + [a];
    RunOn(states, actions, LoadSize, Step(s, LoadSize));
    s := Step(s, LoadSize);
    states, actions := states + [s], actions + [LoadSize];
    a := CheckSlot([0]);
    RunOn(states, actions, a, Step(s, a));
    s := Step(s, a);
    states, actions := states + [s], actions + [a];
  }

  // ---- what the readers get ------------------------------------------------------

  predicate OfReader<T>(a: Action<T>, t: Tid) {
    (a.ReadSize? || a.ReadSlot? || a.ReadItem?) && a.t == t
  }

  lemma OtherSteps<T>(s: State<T>, a: Action<T>, t: Tid)
    requires Enabled(s, a) && t in s.readers && !OfReader(a, t)
    ensures t in Step(s, a).readers && Step(s, a).readers[t] == s.readers[t]
  {
  }

  /** The size a reader has loaded stays its bound until it loads it again. */
  lemma {:induction false} BoundIsKept<T(!new)>(states: seq<State<T>>, actions: seq<Action<T>>, h: nat, k: nat, t: Tid)
    requires Run(states, actions) && h < k < |states| && actions[h] == ReadSize(t)
    requires forall m :: h < m < k ==> actions[m] != ReadSize(t)
    ensures t in states[k].readers && var r := states[k].readers[t];
            (r.Bound? || r.HasPointer? || r.Got?) && r.n == states[h].size
  {
    var s, a := states[k - 1], actions[k - 1];
    assert Enabled(s, a) && states[k] == Step(s, a);
    RunKeepsInv(states, actions, k);
    if k > h + 1 {
      BoundIsKept(states, actions, h, k - 1, t);
      if !OfReader(a, t) {
        OtherSteps(s, a, t);
      }
    }
    assert ReaderInv(states[k], states[k].readers[t]);
  }

  lemma {:induction false} ReaderRests<T(!new)>(states: seq<State<T>>, actions: seq<Action<T>>, k: nat, m: nat, t: Tid)
    requires Run(states, actions) && k <= m < |states| && t in states[k].readers
    requires forall l :: k <= l < m ==> !OfReader(actions[l], t)
    ensures t in states[m].readers && states[m].readers[t] == states[k].readers[t]
  {
    if k < m {
      ReaderRests(states, actions, k, m - 1, t);
      OtherSteps(states[m - 1], actions[m - 1], t);
    }
  }

  /** A read of index i, by a reader that loaded the size earlier, gets the element at
      index i, whatever happens between its loads. */
  lemma ReadReturns<T(!new)>(states: seq<State<T>>, actions: seq<Action<T>>, h: nat, k: nat, m: nat, t: Tid, i: nat)
    requires Run(states, actions) && h < k < m < |actions|
    requires actions[h] == ReadSize(t) && (forall l :: h < l < k ==> actions[l] != ReadSize(t))
    requires actions[k] == ReadSlot(t, i) && actions[m] == ReadItem(t)
    requires forall l :: k < l < m ==> !OfReader(actions[l], t)
    ensures i < states[h].size <= |states[m].pushed| && t in states[m + 1].readers
    ensures states[m + 1].readers[t] == Got(states[h].size, i, states[m].pushed[i])
  {
    BoundIsKept(states, actions, h, k, t);
    assert Enabled(states[k], actions[k]) && states[k + 1] == Step(states[k], actions[k]);
    ReaderRests(states, actions, k + 1, m, t);
    assert Enabled(states[m], actions[m]) && states[m + 1] == Step(states[m], actions[m]);
    RunKeepsInv(states, actions, m);
    RunKeepsInv(states, actions, m + 1);
    assert ReaderInv(states[m + 1], states[m + 1].readers[t]);
    assert ReaderInv(states[m], states[m].readers[t]);
  }
}
