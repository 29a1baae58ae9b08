/** What MTQueue does to the elements: nothing is lost, duplicated or reordered. */
module MTQueueOrder {
  import opened Common
  import opened MTQueue
  import opened MTQueueCalls

  /** What an operation puts before the front and behind the back. */
  function FrontAdded<T>(op: Op<T>): seq<T> {
    match op case PushFront(x) => [x] case PushFrontAll(xs) => xs case _ => []
  }

  function BackAdded<T>(op: Op<T>): seq<T> {
    match op case Push(x) => [x] case PushAll(xs) => xs case _ => []
  }

  /** What a completed operation handed to its caller for good. */
  function Taken<T>(e: Event<T>): seq<T> {
    if e.op.Pop? || e.op.TimedPop? || e.op.TryPop? || e.op.PopBarrier? then
      match e.result case One(x) => [x] case _ => []
    else if e.op.TimedPopRange? || e.op.TryPopMany? then
      match e.result case Many(xs) => xs case _ => []
    else []
  }

  predicate Resets<T>(op: Op<T>) {
    op.Clear? || op.Assign?
  }

  /** The answer an operation owes on queue `q`. What a popping operation takes is
      left to the law below; only how much is said here. */
  ghost predicate Answers<T>(q: seq<T>, op: Op<T>, result: Result<T>) {
    match op
    case Pop => result.One?
    case TimedPop => if q == [] then result == Failed else result.One?
    case TryPop => if q == [] then result == Failed else result.One?
    case PopBarrier(_) => if q == [] then result == Failed else result.One?
    case TimedPopRange(minimum, maximum) =>
      result.Many? && |result.xs| == if |q| < minimum then 0 else Min(maximum, |q|)
    case TryPopMany(num) => result.Many? && |result.xs| == Min(num, |q|)
    case GetFront => result == if q == [] then Failed else One(q[0])
    case GetBack => result == if q == [] then Failed else One(q[|q| - 1])
    case At(i) => i < |q| && result == One(q[i])
    case WaitSize(minSize) => minSize <= |q| && result == Size(|q|)
    case Clear => result == Dropped(q)
    case Assign(_, _) => result == Dropped(q)
    case _ => result == Done
  }

  /** A deque used by one caller at a time, as a relation: read from the front,
      what an operation took followed by what it left is what it added around what
      it found. */
  ghost predicate Law<T>(q: seq<T>, e: Event<T>, r: seq<T>) {
    && Answers(q, e.op, e.result)
    && match e.op
       case Clear => r == []
       case Assign(copy, _) => r == copy
       case _ => Taken(e) + r == FrontAdded(e.op) + q + BackAdded(e.op)
  }

  /** The law leaves no choice: queue and operation determine answer and new queue. */
  lemma LawDetermines<T>(q: seq<T>, t: Tid, u: Tid, op: Op<T>, x: Result<T>, r: seq<T>, y: Result<T>, p: seq<T>)
    requires Law(q, Event(t, op, x), r) && Law(q, Event(u, op, y), p)
    ensures x == y && r == p
  {
    var a, b := Taken(Event(t, op, x)), Taken(Event(u, op, y));
    if !Resets(op) {
      SamePrefix(a, r, b, p);
    }
  }

  lemma SamePrefix<T>(a: seq<T>, r: seq<T>, b: seq<T>, p: seq<T>)
    requires a + r == b + p && |a| == |b|
    ensures a == b && r == p
  {
    assert a == (a + r)[..|a|] && b == (b + p)[..|b|];
    assert r == (a + r)[|a|..] && p == (b + p)[|b|..];
  }

  lemma EffectLaw<T>(t: Tid, op: Op<T>, sh: Shared<T>)
    requires Ready(op, sh)
    ensures Law(sh.queue, Event(t, op, Effect(op, sh).result), Effect(op, sh).sh.queue)
  {
  }

  ghost function Taking<T>(log: seq<Event<T>>): seq<T> {
    if log == [] then [] else Taking(log[..|log| - 1]) + Taken(log[|log| - 1])
  }

  ghost function Pushing<T>(log: seq<Event<T>>): seq<T> {
    if log == [] then [] else Pushing(log[..|log| - 1]) + BackAdded(log[|log| - 1].op)
  }

  /** Everything that ever came in, and everything that ever went out. */
  ghost function Incoming<T>(e: Event<T>): multiset<T> {
    multiset(FrontAdded(e.op)) + multiset(BackAdded(e.op)) + multiset(if e.op.Assign? then e.op.copy else [])
  }

  ghost function Outgoing<T>(e: Event<T>): multiset<T> {
    multiset(Taken(e)) + multiset(if e.result.Dropped? then e.result.xs else [])
  }

  ghost function In<T>(log: seq<Event<T>>): multiset<T> {
    if log == [] then multiset{} else In(log[..|log| - 1]) + Incoming(log[|log| - 1])
  }

  ghost function Out<T>(log: seq<Event<T>>): multiset<T> {
    if log == [] then multiset{} else Out(log[..|log| - 1]) + Outgoing(log[|log| - 1])
  }

  lemma LogAppend<T>(log: seq<Event<T>>, e: Event<T>)
    ensures In(log + [e]) == In(log) + Incoming(e)
    ensures Out(log + [e]) == Out(log) + Outgoing(e)
    ensures Taking(log + [e]) == Taking(log) + Taken(e)
    ensures Pushing(log + [e]) == Pushing(log) + BackAdded(e.op)
  {
    assert (log + [e])[..|log|] == log;
  }

  lemma SameParts<T>(front: seq<T>, q: seq<T>, back: seq<T>, taken: seq<T>, r: seq<T>)
    requires taken + r == front + q + back
    ensures multiset(front) + multiset(back) + multiset(q) == multiset(taken) + multiset(r)
  {
    assert multiset(taken + r) == multiset(front + q + back);
  }

  lemma LawConserves<T>(q: seq<T>, e: Event<T>, r: seq<T>)
    requires Law(q, e, r)
    ensures Incoming(e) + multiset(q) == Outgoing(e) + multiset(r)
  {
    if !Resets(e.op) {
      SameParts(FrontAdded(e.op), q, BackAdded(e.op), Taken(e), r);
      assert Incoming(e) == multiset(FrontAdded(e.op)) + multiset(BackAdded(e.op));
      assert Outgoing(e) == multiset(Taken(e));
    } else {
      assert Incoming(e) == multiset(r);
      assert Outgoing(e) == multiset(q);
    }
  }

  /** The event a step adds to the log, if any. */
  ghost predicate Quiet<T>(s: State<T>, r: State<T>) {
    r.log == s.log && r.sh.queue == s.sh.queue
  }

  ghost predicate Logs<T>(s: State<T>, r: State<T>, e: Event<T>) {
    r.log == s.log + [e] && Law(s.sh.queue, e, r.sh.queue)
  }

  lemma AttemptShape<T>(s: State<T>, t: Tid, op: Op<T>)
    ensures var r := Attempt(s, t, op);
            if Ready(op, s.sh) then Logs(s, r, Event(t, op, Effect(op, s.sh).result)) else Quiet(s, r)
  {
    if Ready(op, s.sh) {
      EffectLaw(t, op, s.sh);
    }
  }

  lemma StepShape<T>(s: State<T>, a: Action<T>)
    requires Enabled(s, a)
    ensures Quiet(s, Step(s, a)) || exists e :: Logs(s, Step(s, a), e)
  {
    match a
    case Call(t, op) =>
      var r := Enter(s, t, op);
      AttemptShape(r, t, op);
      if Ready(op, r.sh) {
        assert Logs(s, Step(s, a), Event(t, op, Effect(op, r.sh).result));
      }
    case Resume(t) => AttemptShape(s, t, s.threads[t].op);
    case Timeout(t) =>
      AttemptShape(s, t, s.threads[t].op);
      if !Ready(s.threads[t].op, s.sh) {
        var op := s.threads[t].op;
        assert Logs(s, Step(s, a), Event(t, op, if op.TimedPop? then Failed else Many([])));
      }
    case Spurious(t) =>
  }

  /** `log` is a legal history of a deque that starts empty and is used by one
      caller at a time, with `qs` the queues in between. */
  ghost predicate History<T>(log: seq<Event<T>>, qs: seq<seq<T>>) {
    && |qs| == |log| + 1 && qs[0] == []
    && forall k :: 0 <= k < |log| ==> Law(qs[k], log[k], qs[k + 1])
  }

  lemma ExtendHistory<T>(log: seq<Event<T>>, qs: seq<seq<T>>, e: Event<T>, q: seq<T>)
    requires History(log, qs) && Law(qs[|log|], e, q)
    ensures History(log + [e], qs + [q])
  {
    forall k | 0 <= k < |log + [e]| ensures Law((qs + [q])[k], (log + [e])[k], (qs + [q])[k + 1]) {
      assert k < |log| ==> Law(qs[k], log[k], qs[k + 1]);
    }
  }

  /** Every run, whatever the mix of operations and threads, is a legal history of
      a plain deque, made up of the calls of each thread in the order it made them,
      as it made them, less the one it is still in. */
  lemma {:induction false} RunIsHistory<T(!new)>(states: seq<State<T>>, actions: seq<Action<T>>, i: nat)
    returns (qs: seq<seq<T>>)
    requires Run(states, actions) && i < |states|
    ensures History(states[i].log, qs) && qs[|states[i].log|] == states[i].sh.queue
    ensures Matched(states[i], actions[..i])
  {
    RunMatchesCalls(states, actions, i);
    if i == 0 {
      qs := [[]];
    } else {
      var s, r := states[i - 1], states[i];
      qs := RunIsHistory(states, actions, i - 1);
      StepShape(s, actions[i - 1]);
      if !Quiet(s, r) {
        var e :| Logs(s, r, e);
        ExtendHistory(s.log, qs, e, r.sh.queue);
        qs := qs + [r.sh.queue];
      }
    }
  }

  /** And the log alone determines those queues. */
  lemma {:induction false} HistoryIsUnique<T>(log: seq<Event<T>>, qs: seq<seq<T>>, ps: seq<seq<T>>, k: nat)
    requires History(log, qs) && History(log, ps) && k <= |log|
    ensures qs[k] == ps[k]
  {
    if k > 0 {
      HistoryIsUnique(log, qs, ps, k - 1);
      var e := log[k - 1];
      LawDetermines(qs[k - 1], e.tid, e.tid, e.op, e.result, qs[k], e.result, ps[k]);
    }
  }

  lemma Balance<T>(i: multiset<T>, o: multiset<T>, q: multiset<T>, inc: multiset<T>, out: multiset<T>, r: multiset<T>)
    requires i == o + q && inc + q == out + r
    ensures i + inc == o + out + r
  {
    assert i + inc == o + (inc + q);
  }

  lemma Regroup<T>(p: seq<T>, t: seq<T>, q: seq<T>, back: seq<T>, taken: seq<T>, r: seq<T>)
    requires p == t + q && taken + r == q + back
    ensures p + back == t + taken + r
  {
    assert p + back == t + (q + back);
    assert t + taken + r == t + (taken + r);
  }

  lemma ShorterHistory<T>(log: seq<Event<T>>, qs: seq<seq<T>>, n: nat)
    requires History(log, qs) && n < |log|
    ensures History(log[..n], qs[..n + 1]) && Law(qs[n], log[n], qs[n + 1])
  {
    forall k | 0 <= k < n ensures Law(qs[..n + 1][k], log[..n][k], qs[..n + 1][k + 1]) {
      assert Law(qs[k], log[k], qs[k + 1]);
    }
  }

  /** In a legal history everything that came in went out or is still there. */
  lemma {:induction false} HistoryConserves<T>(log: seq<Event<T>>, qs: seq<seq<T>>)
    requires History(log, qs)
    ensures In(log) == Out(log) + multiset(qs[|log|])
  {
    if log != [] {
      var n := |log| - 1;
      ShorterHistory(log, qs, n);
      HistoryConserves(log[..n], qs[..n + 1]);
      ConserveStep(log[..n], qs[n], log[n], qs[n + 1]);
      assert log == log[..n] + [log[n]];
    }
  }

  lemma ConserveStep<T>(log: seq<Event<T>>, q: seq<T>, e: Event<T>, r: seq<T>)
    requires In(log) == Out(log) + multiset(q) && Law(q, e, r)
    ensures In(log + [e]) == Out(log + [e]) + multiset(r)
  {
    LogAppend(log, e);
    LawConserves(q, e, r);
    Balance(In(log), Out(log), multiset(q), Incoming(e), Outgoing(e), multiset(r));
  }

  ghost predicate NoResets<T>(log: seq<Event<T>>) {
    forall i :: 0 <= i < |log| ==> !Resets(log[i].op)
  }

  /** Without resets, what went out is what was taken. */
  lemma {:induction false} OutIsTaken<T>(log: seq<Event<T>>, qs: seq<seq<T>>)
    requires History(log, qs) && NoResets(log)
    ensures Out(log) == multiset(Taking(log))
  {
    if log != [] {
      var n := |log| - 1;
      ShorterHistory(log, qs, n);
      OutIsTaken(log[..n], qs[..n + 1]);
      TakenOnly(qs[n], log[n], qs[n + 1]);
      assert multiset(Taking(log[..n]) + Taken(log[n])) == multiset(Taking(log[..n])) + multiset(Taken(log[n]));
    }
  }

  lemma TakenOnly<T>(q: seq<T>, e: Event<T>, r: seq<T>)
    requires Law(q, e, r) && !Resets(e.op)
    ensures Outgoing(e) == multiset(Taken(e))
  {
  }

  ghost predicate OnlyBackPushes<T>(log: seq<Event<T>>) {
    forall i :: 0 <= i < |log| ==> !Resets(log[i].op) && FrontAdded(log[i].op) == []
  }

  /** Between two moments of a history with no front push and no reset in between,
      the queue found, followed by what is pushed, comes out in exactly that order. */
  lemma {:induction false} SegmentIsFifo<T>(log: seq<Event<T>>, qs: seq<seq<T>>, i: nat, k: nat)
    requires History(log, qs) && i <= k <= |log| && OnlyBackPushes(log[i..k])
    ensures qs[i] + Pushing(log[i..k]) == Taking(log[i..k]) + qs[k]
  {
    if i < k {
      var e, seg := log[k - 1], log[i..k - 1];
      assert log[i..k] == seg + [e];
      LastBackPush(seg, e);
      SegmentIsFifo(log, qs, i, k - 1);
      LogAppend(seg, e);
      FifoStep(qs[i], Pushing(seg), Taking(seg), qs[k - 1], e, qs[k]);
    } else {
      assert log[i..k] == [];
    }
  }

  lemma LastBackPush<T>(log: seq<Event<T>>, e: Event<T>)
    requires OnlyBackPushes(log + [e])
    ensures OnlyBackPushes(log) && !Resets(e.op) && FrontAdded(e.op) == []
  {
    assert (log + [e])[|log|] == e;
    assert forall i :: 0 <= i < |log| ==> log[i] == (log + [e])[i];
  }

  lemma FifoStep<T>(start: seq<T>, pushed: seq<T>, taken: seq<T>, q: seq<T>, e: Event<T>, r: seq<T>)
    requires start + pushed == taken + q && Law(q, e, r) && !Resets(e.op) && FrontAdded(e.op) == []
    ensures start + (pushed + BackAdded(e.op)) == taken + Taken(e) + r
  {
    assert FrontAdded(e.op) + q == q;
    Regroup(start + pushed, taken, q, BackAdded(e.op), Taken(e), r);
    assert start + (pushed + BackAdded(e.op)) == start + pushed + BackAdded(e.op);
  }

  /** A batch put in front comes out first and in its own order, before what was
      there and what is pushed later, however it is taken and by whom. */
  lemma FrontBatchComesOutFirst<T>(log: seq<Event<T>>, qs: seq<seq<T>>, i: nat, k: nat)
    requires History(log, qs) && i < k <= |log| && log[i].op.PushFrontAll? && OnlyBackPushes(log[i + 1..k])
    ensures log[i].op.xs + qs[i] + Pushing(log[i + 1..k]) == Taking(log[i + 1..k]) + qs[k]
  {
    assert Law(qs[i], log[i], qs[i + 1]);
    assert qs[i + 1] == [] + qs[i + 1] == log[i].op.xs + qs[i] + [] == log[i].op.xs + qs[i];
    SegmentIsFifo(log, qs, i + 1, k);
  }

  /** In every run the elements of the calls are conserved, and as long as nothing is pushed in
      front or reset they come out in exactly the order they came in. */
  lemma RunKeepsElements<T(!new)>(states: seq<State<T>>, actions: seq<Action<T>>, i: nat)
    requires Run(states, actions) && i < |states|
    ensures var s := states[i];
            && In(s.log) == Out(s.log) + multiset(s.sh.queue)
            && (OnlyBackPushes(s.log) ==> Pushing(s.log) == Taking(s.log) + s.sh.queue)
            && Matched(s, actions[..i])
  {
    var s := states[i];
    var n := |s.log|;
    var qs := RunIsHistory(states, actions, i);
    assert s.log[0..n] == s.log;
    HistoryConserves(s.log, qs);
    if OnlyBackPushes(s.log) {
      SegmentIsFifo(s.log, qs, 0, n);
      assert qs[0] + Pushing(s.log) == Pushing(s.log);
    }
  }

  /** The operations that only look agree with those that take: getFront sees what
      tryPop would take, operator[] what it would take after `index` others, and
      getBack what was pushed last. */
  lemma LooksAgree<T>(sh: Shared<T>, index: nat, x: T)
    ensures Effect(GetFront, sh).result == Effect(TryPop, sh).result
    ensures Ready(At(index), sh) ==>
              Effect(At(index), sh).result == Effect(TryPop, Effect(TryPopMany(index), sh).sh).result
    ensures Ready(Push(x), sh) ==> Effect(GetBack, Effect(Push(x), sh).sh).result == One(x)
    ensures Effect(GetFront, sh).sh == Effect(GetBack, sh).sh == sh
  {
  }

  /** What the law allows is what the critical sections do. */
  lemma LawIsEffect<T>(op: Op<T>, sh: Shared<T>, result: Result<T>, r: seq<T>)
    requires Ready(op, sh)
    ensures Law(sh.queue, Event(0, op, result), r) <==>
            result == Effect(op, sh).result && r == Effect(op, sh).sh.queue
  {
    var o := Effect(op, sh);
    EffectLaw(0, op, sh);
    if Law(sh.queue, Event(0, op, result), r) {
      LawDetermines(sh.queue, 0, 0, op, result, r, o.result, o.sh.queue);
    }
  }
}
