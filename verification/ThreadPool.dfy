/** lunchbox::ThreadPool: posters enqueue under the mutex and notify outside it,
    workers sleep on the condition, the destructor stops them. */
module ThreadPool {

  type Wid = nat

  /** Where a worker is. `Ready` and `Woken` are about to take the mutex and
      evaluate the wait predicate; tasks are named by their place in the post order. */
  datatype Worker = Ready | Asleep | Woken | Holding(task: nat) | Running(task: nat) | Exited

  /** `owing` counts the posters between their critical section and notify_one;
      `posted` lists all tasks posted, `taken` how many were dequeued, `started`
      which were called, in that order. */
  datatype State<T> = State(tasks: seq<T>, stop: bool, workers: map<Wid, Worker>, owing: nat,
                            posted: seq<T>, taken: nat, started: seq<nat>)

  datatype Action<T> =
    | Post(task: T)
    | NotifyOne(w: Wid)
    | NotifyNobody
    | Check(w: Wid)
    | Begin(w: Wid)
    | Finish(w: Wid)
    | Spurious(w: Wid)
    | Stop

  ghost predicate Init<T>(s: State<T>) {
    && s.tasks == [] && !s.stop && s.owing == 0 && s.posted == [] && s.taken == 0 && s.started == []
    && forall w :: w in s.workers ==> s.workers[w] == Ready
  }

  ghost predicate AnyAsleep(workers: map<Wid, Worker>) {
    exists w :: w in workers && workers[w] == Asleep
  }

  ghost predicate Enabled<T>(s: State<T>, a: Action<T>) {
    match a
    case Post(_) => true
    // notify_one wakes one sleeper, and nobody only if there is none.
    case NotifyOne(w) => s.owing > 0 && w in s.workers && s.workers[w] == Asleep
    case NotifyNobody => s.owing > 0 && !AnyAsleep(s.workers)
    case Check(w) => w in s.workers && (s.workers[w] == Ready || s.workers[w] == Woken)
    case Begin(w) => w in s.workers && s.workers[w].Holding?
    case Finish(w) => w in s.workers && s.workers[w].Running?
    case Spurious(w) => w in s.workers && s.workers[w] == Asleep
    case Stop => !s.stop
  }

  function WakeAll(workers: map<Wid, Worker>): map<Wid, Worker> {
    map w | w in workers :: if workers[w] == Asleep then Woken else workers[w]
  }

  ghost function Step<T>(s: State<T>, a: Action<T>): State<T>
    requires Enabled(s, a)
  {
    match a
    case Post(task) => s.(tasks := s.tasks + [task], posted := s.posted + [task], owing := s.owing + 1)
    case NotifyOne(w) => s.(owing := s.owing - 1, workers := s.workers[w := Woken])
    case NotifyNobody => s.(owing := s.owing - 1)
    case Check(w) =>
      if s.stop then s.(workers := s.workers[w := Exited])
      else if s.tasks == [] then s.(workers := s.workers[w := Asleep])
      else s.(tasks := s.tasks[1..], taken := s.taken + 1, workers := s.workers[w := Holding(s.taken)])
    case Begin(w) =>
      s.(started := s.started + [s.workers[w].task], workers := s.workers[w := Running(s.workers[w].task)])
    case Finish(w) => s.(workers := s.workers[w := Ready])
    case Spurious(w) => s.(workers := s.workers[w := Woken])
    case Stop => s.(stop := true, workers := WakeAll(s.workers))
  }

  /** Tasks leave in the order they came. */
  ghost predicate Ordered<T>(s: State<T>) {
    s.taken <= |s.posted| && s.tasks == s.posted[s.taken..]
  }

  /** Every dequeued task is held by one worker or has been started, once. */
  ghost predicate Accounted<T>(s: State<T>) {
    && (forall i, j :: 0 <= i < j < |s.started| ==> s.started[i] != s.started[j])
    && (forall k :: k in s.started ==> k < s.taken)
    && (forall w :: w in s.workers && s.workers[w].Holding? ==>
          s.workers[w].task < s.taken && s.workers[w].task !in s.started)
    && (forall v, w :: v in s.workers && w in s.workers && v != w && s.workers[v].Holding? && s.workers[w].Holding? ==>
          s.workers[v].task != s.workers[w].task)
    && (forall k :: 0 <= k < s.taken ==> k in s.started || exists w :: Holds(s.workers, w, k))
  }

  ghost predicate Holds(workers: map<Wid, Worker>, w: Wid, k: nat) {
    w in workers && workers[w] == Holding(k)
  }

  ghost function WokenSet(workers: map<Wid, Worker>): set<Wid> {
    set w | w in workers && workers[w] == Woken
  }

  /** While somebody sleeps, somebody else is on the way for every pending task. */
  ghost predicate Covered<T>(s: State<T>) {
    if s.stop then !AnyAsleep(s.workers)
    else AnyAsleep(s.workers) ==> |s.tasks| <= |WokenSet(s.workers)| + s.owing
  }

  ghost predicate Inv<T>(s: State<T>) {
    Ordered(s) && Accounted(s) && Covered(s)
  }

  lemma StepKeepsOrder<T>(s: State<T>, a: Action<T>)
    requires Enabled(s, a) && Ordered(s)
    ensures Ordered(Step(s, a))
  {
  }

  lemma WokenUpdate(workers: map<Wid, Worker>, w: Wid, x: Worker)
    ensures WokenSet(workers[w := x]) == if x == Woken then WokenSet(workers) + {w} else WokenSet(workers) - {w}
  {
  }

  lemma AsleepUpdate(workers: map<Wid, Worker>, w: Wid, x: Worker)
    requires AnyAsleep(workers[w := x]) && x != Asleep
    ensures AnyAsleep(workers)
  {
    var v :| v in workers[w := x] && workers[w := x][v] == Asleep;
    assert v in workers && workers[v] == Asleep;
  }

  lemma StepKeepsCovered<T>(s: State<T>, a: Action<T>)
    requires Enabled(s, a) && Covered(s)
    ensures Covered(Step(s, a))
  {
    var r := Step(s, a);
    match a
    case Post(_) =>
    case NotifyNobody =>
    case Stop =>
    case NotifyOne(w) => MoveKeepsCovered(s, w, Woken, r);
    case Spurious(w) => MoveKeepsCovered(s, w, Woken, r);
    case Begin(w) => MoveKeepsCovered(s, w, r.workers[w], r);
    case Finish(w) => MoveKeepsCovered(s, w, Ready, r);
    case Check(w) =>
      if s.stop || s.tasks != [] {
        MoveKeepsCovered(s, w, r.workers[w], r);
      }
  }

  /** Moving one worker keeps the cover if a lost wakeup is paid for by a task
      taken, and a settled notification by a worker woken. */
  lemma MoveKeepsCovered<T>(s: State<T>, w: Wid, x: Worker, r: State<T>)
    requires Covered(s) && w in s.workers && x != Asleep
    requires r.workers == s.workers[w := x] && r.stop == s.stop
    requires !s.stop ==>
               |r.tasks| + (if s.workers[w] == Woken && x != Woken then 1 else 0) + s.owing <=
               |s.tasks| + (if s.workers[w] != Woken && x == Woken then 1 else 0) + r.owing
    ensures Covered(r)
  {
    WokenUpdate(s.workers, w, x);
    if AnyAsleep(r.workers) {
      AsleepUpdate(s.workers, w, x);
    }
    if s.workers[w] == Woken {
      assert w in WokenSet(s.workers);
      assert WokenSet(s.workers) + {w} == WokenSet(s.workers);
    } else {
      assert w !in WokenSet(s.workers);
      assert WokenSet(s.workers) - {w} == WokenSet(s.workers);
    }
  }

  lemma TakeKeepsAccount<T>(s: State<T>, w: Wid)
    requires Enabled(s, Check(w)) && Accounted(s) && !s.stop && s.tasks != []
    ensures Accounted(Step(s, Check(w)))
  {
    var r := Step(s, Check(w));
    forall k | 0 <= k < r.taken ensures k in r.started || exists v :: Holds(r.workers, v, k) {
      if k == s.taken {
        assert Holds(r.workers, w, k);
      } else if k !in s.started {
        var v :| Holds(s.workers, v, k);
        assert Holds(r.workers, v, k);
      }
    }
  }

  lemma BeginKeepsAccount<T>(s: State<T>, w: Wid)
    requires Enabled(s, Begin(w)) && Accounted(s)
    ensures Accounted(Step(s, Begin(w)))
  {
    var r := Step(s, Begin(w));
    var task := s.workers[w].task;
    assert forall k :: k in r.started <==> k in s.started || k == task;
    forall k | 0 <= k < r.taken ensures k in r.started || exists v :: Holds(r.workers, v, k) {
      if k !in r.started {
        var v :| Holds(s.workers, v, k);
        assert Holds(r.workers, v, k);
      }
    }
  }

  /** Steps that move a worker without a task, or no worker at all. */
  lemma OtherKeepsAccount<T>(s: State<T>, r: State<T>)
    requires Accounted(s) && r.taken == s.taken && r.started == s.started && r.workers.Keys == s.workers.Keys
    requires forall w :: w in r.workers && (s.workers[w].Holding? || r.workers[w].Holding?) ==>
               r.workers[w] == s.workers[w]
    ensures Accounted(r)
  {
    forall k | 0 <= k < r.taken ensures k in r.started || exists v :: Holds(r.workers, v, k) {
      if k !in s.started {
        var v :| Holds(s.workers, v, k);
        assert Holds(r.workers, v, k);
      }
    }
  }

  lemma StepKeepsInv<T>(s: State<T>, a: Action<T>)
    requires Inv(s) && Enabled(s, a)
    ensures Inv(Step(s, a))
  {
    StepKeepsOrder(s, a);
    StepKeepsCovered(s, a);
    if a.Check? && !s.stop && s.tasks != [] {
      TakeKeepsAccount(s, a.w);
    } else if a.Begin? {
      BeginKeepsAccount(s, a.w);
    } else {
      OtherKeepsAccount(s, Step(s, a));
    }
  }

  ghost predicate Run<T(!new)>(states: seq<State<T>>, actions: seq<Action<T>>) {
    && |states| == |actions| + 1 && Init(states[0])
    && forall i :: 0 <= i < |actions| ==>
         Enabled(states[i], actions[i]) && states[i + 1] == Step(states[i], actions[i])
  }

  lemma {:induction false} RunKeepsInv<T(!new)>(states: seq<State<T>>, actions: seq<Action<T>>, i: nat)
    requires Run(states, actions) && i < |states|
    ensures Inv(states[i])
  {
    if i > 0 {
      RunKeepsInv(states, actions, i - 1);
      StepKeepsInv(states[i - 1], actions[i - 1]);
    }
  }

  /** The tasks that were posted, in order. */
  ghost function Posts<T>(actions: seq<Action<T>>): seq<T> {
    if actions == [] then []
    else
      var a := actions[|actions| - 1];
      Posts(actions[..|actions| - 1]) + if a.Post? then [a.task] else []
  }

  lemma {:induction false} PostedByCalls<T(!new)>(states: seq<State<T>>, actions: seq<Action<T>>, i: nat)
    requires Run(states, actions) && i < |states|
    ensures states[i].posted == Posts(actions[..i])
  {
    if i > 0 {
      PostedByCalls(states, actions, i - 1);
      assert actions[..i][..i - 1] == actions[..i - 1];
      PostedStep(states[i - 1], actions[i - 1]);
    }
  }

  lemma PostedStep<T>(s: State<T>, a: Action<T>)
    requires Enabled(s, a)
    ensures Step(s, a).posted == s.posted + if a.Post? then [a.task] else []
  {
  }

  /** What each worker does next: it leaves only after the stop, sleeps only when
      nothing is pending, and otherwise takes the oldest pending task, runs it and
      comes back for more. */
  ghost predicate WorkerFollows<T>(s: State<T>, a: Action<T>, r: State<T>) {
    match a
    case Check(w) =>
      && w in r.workers
      && (s.stop ==> r.workers[w] == Exited && r.tasks == s.tasks)
      && (!s.stop && s.tasks == [] ==> r.workers[w] == Asleep && r.tasks == s.tasks)
      && (!s.stop && s.tasks != [] ==>
            && s.taken < |s.posted| && r.workers[w] == Holding(s.taken)
            && s.tasks == [s.posted[s.taken]] + r.tasks && r.started == s.started)
    case Begin(w) =>
      && w in s.workers && s.workers[w].Holding? && w in r.workers
      && r.workers[w] == Running(s.workers[w].task) && r.started == s.started + [s.workers[w].task]
    case Finish(w) => w in r.workers && r.workers[w] == Ready && r.started == s.started
    case NotifyOne(w) => w in r.workers && r.workers[w] == Woken && r.owing == s.owing - 1
    case Spurious(w) => w in r.workers && r.workers[w] == Woken && r.owing == s.owing
    case Post(task) => r.workers == s.workers && r.tasks == s.tasks + [task] && r.owing == s.owing + 1
    case NotifyNobody => r.workers == s.workers && r.tasks == s.tasks && r.owing == s.owing - 1
    case Stop => r.stop && r.tasks == s.tasks && r.workers == WakeAll(s.workers)
  }

  lemma WorkersFollow<T(!new)>(states: seq<State<T>>, actions: seq<Action<T>>, i: nat, u: Wid)
    requires Run(states, actions) && i < |actions|
    ensures WorkerFollows(states[i], actions[i], states[i + 1])
    ensures u in states[i].workers <==> u in states[i + 1].workers
    ensures u in states[i].workers && states[i + 1].workers[u] != states[i].workers[u] ==>
              actions[i] == Stop || (!actions[i].Post? && !actions[i].NotifyNobody? && actions[i].w == u)
  {
    RunKeepsInv(states, actions, i);
  }

  /** In every run: the posted tasks are dequeued in the order of the calls, each is
      started at most once, and before the stop the pending tasks are at most the
      woken workers plus the owed notifications whenever a worker sleeps. */
  lemma WorkIsConserved<T(!new)>(states: seq<State<T>>, actions: seq<Action<T>>, i: nat)
    requires Run(states, actions) && i < |states|
    ensures var s := states[i];
            && s.posted == Posts(actions[..i]) && s.taken <= |s.posted| && s.posted == s.posted[..s.taken] + s.tasks
            && (forall m, n :: 0 <= m < n < |s.started| ==> s.started[m] != s.started[n])
            && (forall m :: 0 <= m < |s.started| ==> s.started[m] < s.taken)
            && (!s.stop && AnyAsleep(s.workers) ==> |s.tasks| <= |WokenSet(s.workers)| + s.owing)
  {
    RunKeepsInv(states, actions, i);
    PostedByCalls(states, actions, i);
    var s := states[i];
    assert forall m :: 0 <= m < |s.started| ==> s.started[m] in s.started;
  }

  /** No task is forgotten: with a worker asleep, nobody woken and no
      notification owed, there is nothing to do. */
  lemma SleepMeansNoWork<T(!new)>(states: seq<State<T>>, actions: seq<Action<T>>, i: nat)
    requires Run(states, actions) && i < |states|
    requires !states[i].stop && AnyAsleep(states[i].workers) && states[i].owing == 0
    requires forall w :: w in states[i].workers ==> states[i].workers[w] != Woken
    ensures states[i].tasks == []
  {
    RunKeepsInv(states, actions, i);
    assert WokenSet(states[i].workers) == {};
  }

  /** The destructor cannot hang on a lost notification: after the stop no worker
      sleeps, and whichever next evaluates its wait predicate leaves. */
  lemma StopWakesEverybody<T(!new)>(states: seq<State<T>>, actions: seq<Action<T>>, i: nat, w: Wid)
    requires Run(states, actions) && i < |states| && states[i].stop && w in states[i].workers
    ensures states[i].workers[w] != Asleep
    ensures Enabled(states[i], Check(w)) ==> Step(states[i], Check(w)).workers[w] == Exited
  {
    RunKeepsInv(states, actions, i);
  }

  /** After the stop nothing is dequeued any more. */
  lemma {:induction false} StoppedKeepsTasks<T(!new)>(states: seq<State<T>>, actions: seq<Action<T>>, i: nat, j: nat)
    requires Run(states, actions) && i <= j < |states| && states[i].stop
    ensures states[j].stop && states[j].taken == states[i].taken && states[i].posted <= states[j].posted
  {
    if i < j {
      StoppedKeepsTasks(states, actions, i, j - 1);
    }
  }

  /** joinAll has returned. */
  ghost predicate Joined<T>(s: State<T>) {
    forall w :: w in s.workers ==> s.workers[w] == Exited
  }

  /** The destructor drops what is pending: when it has joined the workers, every
      task ever posted has been run just when none was pending at the stop and
      none was posted after it. */
  lemma DestructorFinishesAllIff<T(!new)>(states: seq<State<T>>, actions: seq<Action<T>>, i: nat, j: nat)
    requires Run(states, actions) && i < j < |states| && actions[i] == Stop && Joined(states[j])
    ensures (forall k :: 0 <= k < |states[j].posted| ==> k in states[j].started) <==>
            (states[i].tasks == [] && states[j].posted == states[i].posted)
  {
    var s, r := states[i], states[j];
    RunKeepsInv(states, actions, i);
    RunKeepsInv(states, actions, j);
    StoppedKeepsTasks(states, actions, i + 1, j);
    assert s.posted <= r.posted && s.taken == r.taken;
    forall k | 0 <= k < r.taken ensures k in r.started {
      assert !exists w :: Holds(r.workers, w, k);
    }
    if forall k :: 0 <= k < |r.posted| ==> k in r.started {
      assert r.taken < |r.posted| ==> r.taken in r.started;
    }
  }

  /** One worker, one task: the destructor returns and the task was never run. */
  lemma DestructorDropsATask() returns (states: seq<State<int>>, actions: seq<Action<int>>)
    ensures Run(states, actions) && |actions| > 0 && Stop in actions
    ensures var s := states[|actions|]; Joined(s) && s.posted == [7] && s.tasks == [7] && s.started == []
  {
    var s0: State<int> := State([], false, map[0 := Ready], 0, [], 0, []);
    actions := [Post(7), Stop, Check(0)];
    var s1 := Step(s0, actions[0]);
    var s2 := Step(s1, actions[1]);
    var s3 := Step(s2, actions[2]);
    states := [s0, s1, s2, s3];
    assert Stop in actions;
  }
}
