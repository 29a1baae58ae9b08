/** The critical sections of lunchbox::MTQueue as they update the object. A method
    evaluates its wait predicate once: where the source would wait it changes
    nothing and says so, otherwise it runs to the release of the mutex. */
module MTQueueMonitor {
  import opened Common
  import opened MTQueue
  import opened MTQueueOrder

  class Barrier {
    var height: nat
    var waiting: nat

    constructor (h: nat)
      ensures height == h && waiting == 0
    {
      height, waiting := h, 0;
    }
  }

  class Queue<T> {
    var queue: seq<T>
    var maxSize: nat
    /** How often _condition.notify_all() was called. */
    var notifications: nat

    /** The queue is within its bound, which is a size_t. */
    ghost predicate Valid() reads this {
      |queue| <= maxSize < SIZE_T_VALUES
    }

    constructor (size: nat)
      requires size < SIZE_T_VALUES
      ensures Valid() && queue == [] && maxSize == size && notifications == 0
    {
      queue, maxSize, notifications := [], size, 0;
    }

    ghost function View(): Shared<T> reads this {
      Shared(queue, maxSize, map[])
    }

    /** The view of popBarrier, which also guards its group. */
    ghost function BarrierView(b: Barrier): Shared<T> reads this, b {
      Shared(queue, maxSize, map[0 := Group(b.height, b.waiting)])
    }

    /** Nothing happened, so nobody needs to be told. */
    twostate predicate Idles() reads this {
      queue == old(queue) && maxSize == old(maxSize) && notifications == old(notifications)
    }

    twostate predicate Waits(op: Op<T>) reads this {
      Idles() && !Ready(op, old(View()))
    }

    /** The deque went through `op` as its law says, and the waiters were told: the
        step of the transition system in full. */
    twostate predicate Ran(op: Op<T>, new result: Result<T>) reads this {
      && Law(old(queue), Event(0, op, result), queue) && notifications == old(notifications) + 1
      && Ready(op, old(View())) && Effect(op, old(View())) == Outcome(View(), result, true)
    }

    /** An operation that only looks, and tells nobody. */
    ghost predicate Looked(op: Op<T>, result: Result<T>) reads this {
      Ready(op, View()) && Effect(op, View()) == Outcome(View(), result, false)
    }

    method Push(x: T) returns (done: bool)
      requires Valid()
      modifies this
      ensures Valid() && maxSize == old(maxSize)
      ensures done <==> |old(queue)| + 1 <= maxSize
      ensures if done then queue == old(queue) + [x] && Ran(Op.Push(x), Done) else Waits(Op.Push(x))
    {
      done := |queue| < maxSize;
      if done {
        queue := queue + [x];
        notifications := notifications + 1;
      }
    }

    /** The wait predicate is an unsigned difference; within the bound it cannot wrap. */
    method PushAll(xs: seq<T>) returns (done: bool)
      requires Valid()
      modifies this
      ensures Valid() && maxSize == old(maxSize)
      ensures done <==> |old(queue)| + |xs| <= maxSize
      ensures if done then queue == old(queue) + xs && Ran(Op.PushAll(xs), Done) else Waits(Op.PushAll(xs))
    {
      done := Minus(maxSize, |queue|) >= |xs|;
      if done {
        queue := queue + xs;
        notifications := notifications + 1;
      }
    }

    method PushFront(x: T) returns (done: bool)
      requires Valid()
      modifies this
      ensures Valid() && maxSize == old(maxSize)
      ensures done <==> |old(queue)| + 1 <= maxSize
      ensures if done then queue == [x] + old(queue) && Ran(Op.PushFront(x), Done) else Waits(Op.PushFront(x))
    {
      done := |queue| < maxSize;
      if done {
        queue := [x] + queue;
        notifications := notifications + 1;
      }
    }

    method PushFrontAll(xs: seq<T>) returns (done: bool)
      requires Valid()
      modifies this
      ensures Valid() && maxSize == old(maxSize)
      ensures done <==> |old(queue)| + |xs| <= maxSize
      ensures if done then queue == xs + old(queue) && Ran(Op.PushFrontAll(xs), Done) else Waits(Op.PushFrontAll(xs))
    {
      done := Minus(maxSize, |queue|) >= |xs|;
      if done {
        queue := xs + queue;
        notifications := notifications + 1;
      }
    }

    method Pop() returns (element: Option<T>)
      requires Valid()
      modifies this
      ensures Valid() && maxSize == old(maxSize)
      ensures element.None? <==> old(queue) == []
      ensures if element.Some? then old(queue) == [element.value] + queue && Ran(Op.Pop, One(element.value))
              else Waits(Op.Pop)
    {
      if queue == [] {
        return None;
      }
      element := Some(queue[0]);
      queue := queue[1..];
      notifications := notifications + 1;
    }

    /** timedPop when it wakes up or its time is up. */
    method TimedPop() returns (result: Result<T>)
      requires Valid()
      modifies this
      ensures Valid() && maxSize == old(maxSize)
      ensures result.One? || result == Failed
      ensures result == Failed <==> old(queue) == []
      ensures if result.One? then old(queue) == [result.x] + queue && Ran(Op.TimedPop, result) else Waits(Op.TimedPop)
    {
      if queue == [] {
        return Failed;
      }
      result := One(queue[0]);
      queue := queue[1..];
      notifications := notifications + 1;
    }

    /** operator[]: waits until the element is there. */
    method At(index: nat) returns (element: Option<T>)
      requires Valid()
      ensures element.Some? <==> index < |queue|
      ensures element.Some? <==> Ready(Op.At(index), View())
      ensures element.Some? ==> queue[index] == element.value && Looked(Op.At(index), One(element.value))
    {
      if |queue| <= index {
        return None;
      }
      element := Some(queue[index]);
    }

    /** waitSize: waits until there are that many elements. */
    method WaitSize(minSize: nat) returns (size: Option<nat>)
      requires Valid()
      ensures size.Some? <==> minSize <= |queue|
      ensures size.Some? <==> Ready(Op.WaitSize(minSize), View())
      ensures size.Some? ==> size.value == |queue| && Looked(Op.WaitSize(minSize), Size(size.value))
    {
      if |queue| < minSize {
        return None;
      }
      size := Some(|queue|);
    }

    method GetFront() returns (result: Result<T>)
      requires Valid()
      ensures if queue == [] then result == Failed else result.One? && [result.x] <= queue
      ensures Looked(Op.GetFront, result)
    {
      result := if queue == [] then Failed else One(queue[0]);
    }

    method GetBack() returns (result: Result<T>)
      requires Valid()
      ensures if queue == [] then result == Failed else result.One? && queue == queue[..|queue| - 1] + [result.x]
      ensures Looked(Op.GetBack, result)
    {
      result := if queue == [] then Failed else One(queue[|queue| - 1]);
    }

    /** tryPop, which never waits. */
    method TryPop() returns (result: Result<T>)
      requires Valid()
      modifies this
      ensures Valid() && maxSize == old(maxSize)
      ensures result.One? || result == Failed
      ensures result == Failed <==> old(queue) == []
      ensures if result.One? then old(queue) == [result.x] + queue && Ran(Op.TryPop, result)
              else Idles() && Effect(Op.TryPop, old(View())) == Outcome(View(), result, false)
    {
      if queue == [] {
        return Failed;
      }
      result := One(queue[0]);
      queue := queue[1..];
      notifications := notifications + 1;
    }

    /** timedPopRange after its wait, which may have timed out. */
    method TimedPopRange(minimum: nat, maximum: nat) returns (result: seq<T>)
      requires Valid()
      modifies this
      ensures Valid() && maxSize == old(maxSize) && old(queue) == result + queue
      ensures if |old(queue)| < minimum then result == [] && Waits(Op.TimedPopRange(minimum, maximum))
              else |result| <= maximum && (queue != [] ==> |result| == maximum) &&
                   Ran(Op.TimedPopRange(minimum, maximum), Many(result))
    {
      if |queue| < minimum {
        return [];
      }
      var size := Min(maximum, |queue|);
      result := queue[..size];
      queue := queue[size..];
      notifications := notifications + 1;
    }

    /** tryPop(num, result): the caller's vector keeps what it held. */
    method TryPopMany(num: nat, before: seq<T>) returns (result: seq<T>)
      requires Valid()
      modifies this
      ensures Valid() && maxSize == old(maxSize)
      ensures before <= result && old(queue) == result[|before|..] + queue
      ensures |result| - |before| <= num && (queue != [] ==> |result| - |before| == num)
      ensures result == before ==>
                Idles() && Effect(Op.TryPopMany(num), old(View())) == Outcome(View(), Many([]), false)
      ensures result != before ==> Ran(Op.TryPopMany(num), Many(result[|before|..]))
    {
      result := before;
      var size := Min(num, |queue|);
      ghost var all := queue;
      if size > 0 {
        for i := 0 to size
          invariant result == before + all[..i] && queue == all[i..]
          invariant maxSize == old(maxSize) && notifications == old(notifications)
        {
          result := result + [queue[0]];
          queue := queue[1..];
        }
        notifications := notifications + 1;
      }
      assert result[|before|..] == all[..size];
    }

    /** popBarrier found `before` when it evaluated its wait predicate. */
    twostate predicate Resumed(b: Barrier, before: Shared<T>, new result: Option<Result<T>>) reads this, b {
      var op := Op<T>.PopBarrier(0);
      if result.None? then !Ready(op, before) && BarrierView(b) == before && notifications == old(notifications)
      else
        && Law(old(queue), Event(0, op, result.value), queue) && notifications == old(notifications) + 1
        && Ready(op, before) && Effect(op, before) == Outcome(BarrierView(b), result.value, true)
    }

    /** A call of popBarrier up to its first wait or its return. waiting_ counts the
        caller in and, only if it gets an element, out again. */
    method PopBarrier(b: Barrier) returns (result: Option<Result<T>>)
      requires Valid() && b.height > 0
      modifies this, b
      ensures Valid() && maxSize == old(maxSize) && b.height == old(b.height)
      ensures result.None? <==> old(queue) == [] && old(b.waiting) + 1 < b.height
      ensures result == Some(Failed) <==> old(queue) == [] && old(b.waiting) + 1 >= b.height
      ensures b.waiting == old(b.waiting) + if old(queue) == [] then 1 else 0
      ensures Resumed(b, Entered(Op.PopBarrier(0), old(BarrierView(b))), result)
    {
      b.waiting := b.waiting + 1;
      result := ResumeBarrier(b);
    }

    /** popBarrier when it is woken. */
    method ResumeBarrier(b: Barrier) returns (result: Option<Result<T>>)
      requires Valid() && b.waiting > 0
      modifies this, b
      ensures Valid() && maxSize == old(maxSize) && b.height == old(b.height)
      ensures result.None? <==> old(queue) == [] && old(b.waiting) < b.height
      ensures result == Some(Failed) <==> old(queue) == [] && old(b.waiting) >= b.height
      ensures b.waiting == old(b.waiting) - if old(queue) == [] then 0 else 1
      ensures Resumed(b, old(BarrierView(b)), result)
    {
      if queue == [] && b.waiting < b.height {
        return None;
      }
      notifications := notifications + 1;
      if queue == [] {
        return Some(Failed);
      }
      result := Some(One(queue[0]));
      queue := queue[1..];
      b.waiting := b.waiting - 1;
    }

    method SetMaxSize(size: nat) returns (done: bool)
      requires Valid() && size < SIZE_T_VALUES
      modifies this
      ensures Valid() && queue == old(queue)
      ensures done <==> |queue| <= size
      ensures if done then maxSize == size && Ran(Op.SetMaxSize(size), Done) else Waits(Op.SetMaxSize(size))
    {
      done := |queue| <= size;
      if done {
        maxSize := size;
        notifications := notifications + 1;
      }
    }

    method Clear()
      requires Valid()
      modifies this
      ensures Valid() && maxSize == old(maxSize) && queue == []
      ensures Ran(Op.Clear, Dropped(old(queue)))
    {
      queue := [];
      notifications := notifications + 1;
    }

    /** operator=: copy under the other lock, then swap in under this one. */
    method Assign(from: Queue<T>)
      requires Valid() && from.Valid()
      modifies this
      ensures Valid() && queue == old(from.queue) == from.queue && maxSize == old(from.maxSize) == from.maxSize
      ensures if from == this then Idles() else Ran(Op.Assign(queue, maxSize), Dropped(old(queue)))
    {
      if from == this {
        return;
      }
      var copy, size := from.queue, from.maxSize;
      maxSize := size;
      queue := copy;
      notifications := notifications + 1;
    }
  }

  /** On the object: a batch that fits goes in front of whatever is queued and comes
      back as a range, and leaves the queue as it was. */
  method FrontBatchRoundTrip<T>(q: Queue<T>, xs: seq<T>) returns (ys: seq<T>)
    requires q.Valid() && |q.queue| + |xs| <= q.maxSize
    modifies q
    ensures q.Valid() && ys == xs && q.queue == old(q.queue)
  {
    ghost var before := q.queue;
    var done := q.PushFrontAll(xs);
    ys := q.TimedPopRange(|xs|, |xs|);
    SamePrefix(xs, before, ys, q.queue);
  }
}
