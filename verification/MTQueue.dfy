/** lunchbox::MTQueue as a transition system: any number of threads run the
    critical sections of a bounded monitor queue, split at condition waits. */
module MTQueue {
  import opened Common

  type Tid = nat
  type GroupId = nat

  const SIZE_T_VALUES: nat := 0x1_0000_0000_0000_0000

  /** The descriptor popBarrier works on. */
  datatype Group = Group(height: nat, waiting: nat)

  /** What the mutex guards. */
  datatype Shared<T> = Shared(queue: seq<T>, maxSize: nat, groups: map<GroupId, Group>)

  /** The public operations, with their arguments. `Assign` carries the copy that
      operator= took of the other queue. */
  datatype Op<T> =
    | Push(x: T) | PushAll(xs: seq<T>) | PushFront(x: T) | PushFrontAll(xs: seq<T>)
    | Pop | TimedPop | TimedPopRange(minimum: nat, maximum: nat) | TryPop | TryPopMany(num: nat)
    | PopBarrier(group: GroupId)
    | SetMaxSize(size: nat) | WaitSize(minSize: nat) | At(index: nat) | Clear
    | Assign(copy: seq<T>, size: nat) | GetFront | GetBack

  /** What an operation hands back; `Dropped` records what Clear and Assign throw away. */
  datatype Result<T> = Done | One(x: T) | Many(xs: seq<T>) | Size(n: nat) | Failed | Dropped(xs: seq<T>)

  /** size_t subtraction, which wraps around. */
  function Minus(a: nat, b: nat): nat {
    (a - b) % SIZE_T_VALUES
  }

  function Lookup(groups: map<GroupId, Group>, g: GroupId): Group {
    if g in groups then groups[g] else Group(0, 0)
  }

  /** The predicate an operation waits for; operations that do not wait are always ready. */
  predicate Ready<T>(op: Op<T>, sh: Shared<T>) {
    match op
    case Push(_) => |sh.queue| < sh.maxSize
    case PushFront(_) => |sh.queue| < sh.maxSize
    case PushAll(xs) => Minus(sh.maxSize, |sh.queue|) >= |xs|
    case PushFrontAll(xs) => Minus(sh.maxSize, |sh.queue|) >= |xs|
    case Pop => sh.queue != []
    case TimedPop => sh.queue != []
    case TimedPopRange(minimum, _) => |sh.queue| >= minimum
    case PopBarrier(g) => sh.queue != [] || Lookup(sh.groups, g).waiting >= Lookup(sh.groups, g).height
    case SetMaxSize(m) => |sh.queue| <= m
    case WaitSize(m) => |sh.queue| >= m
    case At(i) => |sh.queue| > i
    case TryPop => true
    case TryPopMany(_) => true
    case Clear => true
    case Assign(_, _) => true
    case GetFront => true
    case GetBack => true
  }

  /** What the critical section did before its first wait. */
  function Entered<T>(op: Op<T>, sh: Shared<T>): Shared<T> {
    match op
    case PopBarrier(g) =>
      var b := Lookup(sh.groups, g);
      sh.(groups := sh.groups[g := b.(waiting := b.waiting + 1)])
    case _ => sh
  }

  datatype Outcome<T> = Outcome(sh: Shared<T>, result: Result<T>, notify: bool)

  function TakeFront<T>(sh: Shared<T>): Outcome<T>
    requires sh.queue != []
  {
    Outcome(sh.(queue := sh.queue[1..]), One(sh.queue[0]), true)
  }

  /** The critical section from a satisfied wait to its end. */
  function Effect<T>(op: Op<T>, sh: Shared<T>): Outcome<T>
    requires Ready(op, sh)
  {
    match op
    case Push(x) => Outcome(sh.(queue := sh.queue + [x]), Done, true)
    case PushAll(xs) => Outcome(sh.(queue := sh.queue + xs), Done, true)
    case PushFront(x) => Outcome(sh.(queue := [x] + sh.queue), Done, true)
    case PushFrontAll(xs) => Outcome(sh.(queue := xs + sh.queue), Done, true)
    case Pop => TakeFront(sh)
    case TimedPop => TakeFront(sh)
    case TimedPopRange(_, maximum) =>
      var n := Min(maximum, |sh.queue|);
      Outcome(sh.(queue := sh.queue[n..]), Many(sh.queue[..n]), true)
    case TryPop => if sh.queue == [] then Outcome(sh, Failed, false) else TakeFront(sh)
    case TryPopMany(num) =>
      var n := Min(num, |sh.queue|);
      Outcome(sh.(queue := sh.queue[n..]), Many(sh.queue[..n]), n > 0)
    case PopBarrier(g) =>
      if sh.queue == [] then Outcome(sh, Failed, true)
      else
        var b := Lookup(sh.groups, g);
        var waiting := if b.waiting == 0 then SIZE_T_VALUES - 1 else b.waiting - 1;
        TakeFront(sh.(groups := sh.groups[g := b.(waiting := waiting)]))
    case SetMaxSize(m) => Outcome(sh.(maxSize := m), Done, true)
    case WaitSize(_) => Outcome(sh, Size(|sh.queue|), false)
    case At(i) => Outcome(sh, One(sh.queue[i]), false)
    case Clear => Outcome(sh.(queue := []), Dropped(sh.queue), true)
    case Assign(q, m) => Outcome(sh.(queue := q, maxSize := m), Dropped(sh.queue), true)
    case GetFront => if sh.queue == [] then Outcome(sh, Failed, false) else Outcome(sh, One(sh.queue[0]), false)
    case GetBack =>
      if sh.queue == [] then Outcome(sh, Failed, false) else Outcome(sh, One(sh.queue[|sh.queue| - 1]), false)
  }

  /** Where a thread is while the mutex is free. */
  datatype Status<T> = Idle | Blocked(op: Op<T>) | Notified(op: Op<T>)

  datatype Event<T> = Event(tid: Tid, op: Op<T>, result: Result<T>)

  /** `log` lists the completed operations in the order they released the mutex. */
  datatype State<T> = State(sh: Shared<T>, threads: map<Tid, Status<T>>, log: seq<Event<T>>)

  datatype Action<T> = Call(t: Tid, op: Op<T>) | Resume(t: Tid) | Timeout(t: Tid) | Spurious(t: Tid)

  /** Arguments the interface allows: sizes are size_t values, a group has a
      positive height, and an assigned copy comes from a queue within its bound. */
  ghost predicate Callable<T>(op: Op<T>, sh: Shared<T>) {
    match op
    case PopBarrier(g) => g in sh.groups && sh.groups[g].height > 0
    case SetMaxSize(m) => m < SIZE_T_VALUES
    case Assign(q, m) => |q| <= m < SIZE_T_VALUES
    case PushAll(xs) => |xs| < SIZE_T_VALUES
    case PushFrontAll(xs) => |xs| < SIZE_T_VALUES
    case _ => true
  }

  predicate Timed<T>(op: Op<T>) {
    op.TimedPop? || op.TimedPopRange?
  }

  /** What holds of every reachable state. */
  ghost predicate Inv<T>(s: State<T>) {
    Core(s) && NoLostWakeup(s)
  }

  ghost predicate Core<T>(s: State<T>) {
    && Bounded(s.sh)
    && (forall t :: t in s.threads && !s.threads[t].Idle? ==> Pending(s.threads[t].op, s.sh))
    && (forall g :: g in s.sh.groups ==> Counted(s, g))
  }

  /** The queue never outgrows its bound. */
  ghost predicate Bounded<T>(sh: Shared<T>) {
    |sh.queue| <= sh.maxSize < SIZE_T_VALUES
  }

  /** An operation between its first and its last critical section. */
  ghost predicate Pending<T>(op: Op<T>, sh: Shared<T>) {
    Callable(op, sh) && (op.PopBarrier? ==> 0 < sh.groups[op.group].waiting)
  }

  /** The threads inside popBarrier for group `g`. */
  ghost function Inside<T>(threads: map<Tid, Status<T>>, g: GroupId): set<Tid> {
    set t | t in threads && !threads[t].Idle? && threads[t].op == PopBarrier(g)
  }

  /** How often popBarrier has returned false for group `g`. */
  ghost function Falses<T>(log: seq<Event<T>>, g: GroupId): nat {
    if log == [] then 0
    else
      var e := log[|log| - 1];
      Falses(log[..|log| - 1], g) + if e.op == PopBarrier(g) && e.result == Failed then 1 else 0
  }

  /** waiting_ counts who is inside popBarrier and who has left it with false. */
  ghost predicate Counted<T>(s: State<T>, g: GroupId)
    requires g in s.sh.groups
  {
    s.sh.groups[g].waiting == |Inside(s.threads, g)| + Falses(s.log, g)
  }

  /** Whoever sleeps without a pending notification has nothing to wake up for. */
  ghost predicate NoLostWakeup<T>(s: State<T>) {
    forall t :: t in s.threads && s.threads[t].Blocked? ==> !Ready(s.threads[t].op, s.sh)
  }

  function NotifyAll<T>(threads: map<Tid, Status<T>>): map<Tid, Status<T>> {
    map t | t in threads :: if threads[t].Blocked? then Notified(threads[t].op) else threads[t]
  }

  /** Thread `t` has the mutex and has run up to its first wait. */
  function Enter<T>(s: State<T>, t: Tid, op: Op<T>): State<T> {
    s.(sh := Entered(op, s.sh), threads := s.threads[t := Notified(op)])
  }

  /** Thread `t` completes `op`. */
  function Finish<T>(s: State<T>, t: Tid, op: Op<T>, o: Outcome<T>): State<T> {
    var threads := if o.notify then NotifyAll(s.threads) else s.threads;
    State(o.sh, threads[t := Idle], s.log + [Event(t, op, o.result)])
  }

  /** Thread `t` holds the mutex and evaluates its wait predicate. */
  function Attempt<T>(s: State<T>, t: Tid, op: Op<T>): State<T> {
    if Ready(op, s.sh) then Finish(s, t, op, Effect(op, s.sh))
    else s.(threads := s.threads[t := Blocked(op)])
  }

  ghost predicate Enabled<T>(s: State<T>, a: Action<T>) {
    && a.t in s.threads
    && match a
       case Call(t, op) => s.threads[t].Idle? && Callable(op, s.sh)
       case Resume(t) => s.threads[t].Notified?
       case Timeout(t) => !s.threads[t].Idle? && Timed(s.threads[t].op)
       case Spurious(t) => s.threads[t].Blocked?
  }

  ghost function Step<T>(s: State<T>, a: Action<T>): State<T>
    requires Enabled(s, a)
  {
    match a
    case Call(t, op) => Attempt(Enter(s, t, op), t, op)
    case Resume(t) => Attempt(s, t, s.threads[t].op)
    case Timeout(t) =>
      var op := s.threads[t].op;
      if Ready(op, s.sh) then Attempt(s, t, op)
      else Finish(s, t, op, Outcome(s.sh, if op.TimedPop? then Failed else Many([]), false))
    case Spurious(t) => s.(threads := s.threads[t := Notified(s.threads[t].op)])
  }

  ghost predicate Init<T>(s: State<T>) {
    && s.sh.queue == [] && s.sh.maxSize < SIZE_T_VALUES
    && (forall g :: g in s.sh.groups ==> s.sh.groups[g].waiting == 0)
    && (forall t :: t in s.threads ==> s.threads[t] == Idle)
    && s.log == []
  }

  lemma InsideUpdate<T>(threads: map<Tid, Status<T>>, t: Tid, st: Status<T>, g: GroupId)
    ensures Inside(threads[t := st], g) ==
            if !st.Idle? && st.op == PopBarrier(g) then Inside(threads, g) + {t} else Inside(threads, g) - {t}
    ensures Inside(NotifyAll(threads), g) == Inside(threads, g)
  {
  }

  lemma FalsesAppend<T>(log: seq<Event<T>>, e: Event<T>, g: GroupId)
    ensures Falses(log + [e], g) == Falses(log, g) + if e.op == PopBarrier(g) && e.result == Failed then 1 else 0
  {
    assert (log + [e])[..|log|] == log;
  }

  /** Somebody inside popBarrier means that waiting_ is positive. */
  lemma InsidePositive<T>(s: State<T>, t: Tid, g: GroupId)
    requires g in s.sh.groups && Counted(s, g) && t in Inside(s.threads, g)
    ensures s.sh.groups[g].waiting > 0
  {
    assert Inside(s.threads, g) != {};
  }

  lemma CoreFrom<T>(s: State<T>)
    requires Bounded(s.sh)
    requires forall g :: g in s.sh.groups ==> Counted(s, g)
    requires forall t :: t in s.threads && !s.threads[t].Idle? ==> Callable(s.threads[t].op, s.sh)
    ensures Core(s)
  {
    forall t | t in s.threads && !s.threads[t].Idle? ensures Pending(s.threads[t].op, s.sh) {
      if s.threads[t].op.PopBarrier? {
        InsidePositive(s, t, s.threads[t].op.group);
      }
    }
  }

  /** Two guarded states that agree on which groups exist and how high they are. */
  ghost predicate SameHeights<T>(a: Shared<T>, b: Shared<T>) {
    a.groups.Keys == b.groups.Keys && forall g :: g in a.groups ==> a.groups[g].height == b.groups[g].height
  }

  lemma CallableFrame<T>(op: Op<T>, a: Shared<T>, b: Shared<T>)
    requires Callable(op, a) && SameHeights(a, b)
    ensures Callable(op, b)
  {
  }

  /** Entering counts the thread in. */
  lemma EnterKeepsCore<T>(s: State<T>, t: Tid, op: Op<T>)
    requires Core(s) && Enabled(s, Call(t, op))
    ensures Core(Enter(s, t, op))
  {
    var r := Enter(s, t, op);
    forall g | g in r.sh.groups ensures Counted(r, g) {
      InsideUpdate(s.threads, t, Notified(op), g);
      assert t !in Inside(s.threads, g) && Counted(s, g);
    }
    assert SameHeights(s.sh, r.sh);
    forall u | u in r.threads && !r.threads[u].Idle? ensures Callable(r.threads[u].op, r.sh) {
      CallableFrame(r.threads[u].op, s.sh, r.sh);
    }
    CoreFrom(r);
  }

  /** What a critical section may change: never the heights, and waiting_ only of
      its own group, by one, when it takes an element. */
  lemma EffectFrame<T>(op: Op<T>, sh: Shared<T>)
    requires Bounded(sh) && Pending(op, sh) && Ready(op, sh)
    ensures Bounded(Effect(op, sh).sh)
    ensures Effect(op, sh).sh.groups.Keys == sh.groups.Keys
    ensures forall g :: g in sh.groups ==>
              var n := if op == PopBarrier(g) && Effect(op, sh).result != Failed then 1 else 0;
              && sh.groups[g].waiting >= n
              && Effect(op, sh).sh.groups[g] == Group(sh.groups[g].height, sh.groups[g].waiting - n)
    ensures !Effect(op, sh).notify ==> Effect(op, sh).sh == sh
    ensures !op.SetMaxSize? && !op.Assign? ==> Effect(op, sh).sh.maxSize == sh.maxSize
  {
  }

  lemma AttemptKeepsCore<T>(s: State<T>, t: Tid, op: Op<T>)
    requires Core(s) && t in s.threads && s.threads[t] == Notified(op)
    ensures Core(Attempt(s, t, op))
  {
    var r := Attempt(s, t, op);
    forall g | g in r.sh.groups ensures Counted(r, g) {
      AttemptCounts(s, t, op, g);
    }
    if Ready(op, s.sh) {
      EffectFrame(op, s.sh);
    }
    CoreFrom(r);
  }

  lemma AttemptCounts<T>(s: State<T>, t: Tid, op: Op<T>, g: GroupId)
    requires Core(s) && t in s.threads && s.threads[t] == Notified(op)
    requires g in Attempt(s, t, op).sh.groups
    ensures Counted(Attempt(s, t, op), g)
  {
    if Ready(op, s.sh) {
      var o := Effect(op, s.sh);
      EffectFrame(op, s.sh);
      InsideUpdate(s.threads, t, Idle, g);
      InsideUpdate(if o.notify then NotifyAll(s.threads) else s.threads, t, Idle, g);
      FalsesAppend(s.log, Event(t, op, o.result), g);
    } else {
      InsideUpdate(s.threads, t, Blocked(op), g);
      assert t in Inside(s.threads, g) <==> op == PopBarrier(g);
    }
    assert Counted(s, g);
  }

  /** Only a thread's own entry into popBarrier can make a sleeper of its group
      ready, and then that thread gets through and notifies. */
  lemma EnterWakes<T>(s: State<T>, t: Tid, op: Op<T>)
    requires Inv(s) && Enabled(s, Call(t, op))
    requires Core(Enter(s, t, op))
    requires var r := Enter(s, t, op); !Ready(op, r.sh) || !Effect(op, r.sh).notify
    ensures NoLostWakeup(Enter(s, t, op))
  {
    var r := Enter(s, t, op);
    forall u | u in r.threads && r.threads[u].Blocked? ensures !Ready(r.threads[u].op, r.sh) {
      assert r.threads[u] == s.threads[u];
    }
  }

  lemma AttemptWakes<T>(s: State<T>, t: Tid, op: Op<T>)
    requires Core(s) && t in s.threads && s.threads[t] == Notified(op)
    requires !Ready(op, s.sh) || !Effect(op, s.sh).notify ==> NoLostWakeup(s)
    ensures Inv(Attempt(s, t, op))
  {
    AttemptKeepsCore(s, t, op);
    if Ready(op, s.sh) {
      EffectFrame(op, s.sh);
    }
  }

  lemma TimeoutKeepsInv<T>(s: State<T>, t: Tid)
    requires Inv(s) && Enabled(s, Timeout(t)) && !Ready(s.threads[t].op, s.sh)
    ensures Inv(Step(s, Timeout(t)))
  {
    var r := Step(s, Timeout(t));
    forall g | g in r.sh.groups ensures Counted(r, g) {
      InsideUpdate(s.threads, t, Idle, g);
      FalsesAppend(s.log, r.log[|s.log|], g);
      assert Counted(s, g);
    }
    CoreFrom(r);
  }

  /** Every step of every thread keeps the invariant. */
  lemma StepKeepsInv<T>(s: State<T>, a: Action<T>)
    requires Inv(s) && Enabled(s, a)
    ensures Inv(Step(s, a))
  {
    match a
    case Call(t, op) =>
      EnterKeepsCore(s, t, op);
      var r := Enter(s, t, op);
      if !Ready(op, r.sh) || !Effect(op, r.sh).notify {
        EnterWakes(s, t, op);
      }
      AttemptWakes(r, t, op);
    case Resume(t) =>
      AttemptWakes(s, t, s.threads[t].op);
    case Timeout(t) =>
      if Ready(s.threads[t].op, s.sh) {
        WakeKeepsInv(s, t);
        AttemptSame(s, t);
        AttemptWakes(Woken(s, t), t, s.threads[t].op);
      } else {
        TimeoutKeepsInv(s, t);
      }
    case Spurious(t) =>
      WakeKeepsInv(s, t);
  }

  ghost function Woken<T>(s: State<T>, t: Tid): State<T>
    requires t in s.threads && !s.threads[t].Idle?
  {
    s.(threads := s.threads[t := Notified(s.threads[t].op)])
  }

  lemma InsideWoken<T>(s: State<T>, t: Tid, g: GroupId)
    requires t in s.threads && !s.threads[t].Idle?
    ensures Inside(Woken(s, t).threads, g) == Inside(s.threads, g)
  {
  }

  lemma WakeKeepsInv<T>(s: State<T>, t: Tid)
    requires Inv(s) && t in s.threads && !s.threads[t].Idle?
    ensures Inv(Woken(s, t))
  {
    var r := Woken(s, t);
    forall g | g in r.sh.groups ensures Counted(r, g) {
      InsideWoken(s, t, g);
      assert Counted(s, g);
    }
  }

  lemma AttemptSame<T>(s: State<T>, t: Tid)
    requires Core(s) && t in s.threads && !s.threads[t].Idle?
    ensures Attempt(s, t, s.threads[t].op) == Attempt(Woken(s, t), t, s.threads[t].op)
  {
    var w := Woken(s, t);
    assert NotifyAll(s.threads)[t := Idle] == NotifyAll(w.threads)[t := Idle];
    assert s.threads[t := Idle] == w.threads[t := Idle];
    assert s.threads[t := Blocked(s.threads[t].op)] == w.threads[t := Blocked(s.threads[t].op)];
  }

  /** The states of a run, step by step. */
  ghost predicate Run<T(!new)>(states: seq<State<T>>, actions: seq<Action<T>>) {
    && |states| == |actions| + 1 && Init(states[0])
    && forall i :: 0 <= i < |actions| ==>
         Enabled(states[i], actions[i]) && states[i + 1] == Step(states[i], actions[i])
  }

  /** In every run of any number of threads, and whatever they call, the queue
      stays within its bound, waiting_ counts right and no wakeup is lost. So the
      size_t difference the batch pushes wait on never wraps. */
  lemma {:induction false} RunKeepsInv<T(!new)>(states: seq<State<T>>, actions: seq<Action<T>>, i: nat)
    requires Run(states, actions) && i < |states|
    ensures Inv(states[i])
    ensures Minus(states[i].sh.maxSize, |states[i].sh.queue|) == states[i].sh.maxSize - |states[i].sh.queue|
  {
    if i == 0 {
      forall g | g in states[0].sh.groups ensures Counted(states[0], g) {
        assert Inside(states[0].threads, g) == {};
      }
    } else {
      RunKeepsInv(states, actions, i - 1);
      StepKeepsInv(states[i - 1], actions[i - 1]);
    }
  }
}
