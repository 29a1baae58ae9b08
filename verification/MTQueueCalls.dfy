/** What the transition system of MTQueue does with the calls made: each is carried
    out as called, once, and returns the moment its wait predicate allows. */
module MTQueueCalls {
  import opened MTQueue

  /** The operation a step works on. */
  ghost function Subject<T>(s: State<T>, a: Action<T>): Op<T>
    requires Enabled(s, a)
  {
    if a.Call? then a.op else s.threads[a.t].op
  }

  /** What it evaluates its wait predicate on. */
  ghost function Found<T>(s: State<T>, a: Action<T>): Shared<T>
    requires Enabled(s, a)
  {
    if a.Call? then Entered(a.op, s.sh) else s.sh
  }

  ghost predicate Returns<T>(s: State<T>, r: State<T>, t: Tid, op: Op<T>) {
    && t in r.threads && r.threads[t] == Idle
    && |r.log| == |s.log| + 1 && s.log <= r.log
    && r.log[|s.log|].tid == t && r.log[|s.log|].op == op
  }

  ghost predicate Sleeps<T>(s: State<T>, r: State<T>, t: Tid, op: Op<T>) {
    t in r.threads && r.threads[t] == Blocked(op) && r.log == s.log
  }

  /** At most woken up. */
  ghost predicate SameOrWoken<T>(a: Status<T>, b: Status<T>) {
    b == a || (a.Blocked? && b == Notified(a.op))
  }

  lemma AttemptDecides<T>(s: State<T>, t: Tid, op: Op<T>)
    requires t in s.threads
    ensures var r := Attempt(s, t, op);
            if Ready(op, s.sh) then Returns(s, r, t, op) else Sleeps(s, r, t, op) && r.sh == s.sh
  {
    var r := Attempt(s, t, op);
    if Ready(op, s.sh) {
      assert r.log == s.log + [Event(t, op, Effect(op, s.sh).result)];
    }
  }

  /** A thread that runs returns just when its wait predicate holds or its time is up,
      and sleeps otherwise, having changed nothing but its own entry in the barrier. */
  lemma StepDecides<T>(s: State<T>, a: Action<T>)
    requires Enabled(s, a)
    ensures var r, t, op, sh := Step(s, a), a.t, Subject(s, a), Found(s, a);
            if a.Spurious? then r == s.(threads := s.threads[t := Notified(op)])
            else if Ready(op, sh) || a.Timeout? then Returns(s, r, t, op)
            else Sleeps(s, r, t, op) && r.sh == sh
  {
    match a
    case Call(t, op) => AttemptDecides(Enter(s, t, op), t, op);
    case Resume(t) => AttemptDecides(s, t, s.threads[t].op);
    case Timeout(t) =>
      var op := s.threads[t].op;
      if Ready(op, s.sh) {
        AttemptDecides(s, t, op);
      } else {
        assert Step(s, a).log == s.log + [Event(t, op, if op.TimedPop? then Failed else Many([]))];
      }
    case Spurious(t) =>
  }

  /** It moves no other thread, except that it may wake it up. */
  lemma StepLeavesOthers<T>(s: State<T>, a: Action<T>, u: Tid)
    requires Enabled(s, a) && u != a.t
    ensures u in s.threads <==> u in Step(s, a).threads
    ensures u in s.threads ==> SameOrWoken(s.threads[u], Step(s, a).threads[u])
  {
  }

  /** The operations that thread `t` has called, in order. */
  ghost function Calls<T>(actions: seq<Action<T>>, t: Tid): seq<Op<T>> {
    if actions == [] then []
    else
      var a := actions[|actions| - 1];
      Calls(actions[..|actions| - 1], t) + if a.Call? && a.t == t then [a.op] else []
  }

  /** The operations that returned to thread `t`, in order. */
  ghost function Completed<T>(log: seq<Event<T>>, t: Tid): seq<Op<T>> {
    if log == [] then []
    else
      var e := log[|log| - 1];
      Completed(log[..|log| - 1], t) + if e.tid == t then [e.op] else []
  }

  ghost function Pending<T>(threads: map<Tid, Status<T>>, t: Tid): seq<Op<T>> {
    if t in threads && !threads[t].Idle? then [threads[t].op] else []
  }

  /** Each call of each thread has returned once, as it was called, or is the one the
      thread is in. */
  ghost predicate Matched<T>(s: State<T>, actions: seq<Action<T>>) {
    forall t :: Calls(actions, t) == Completed(s.log, t) + Pending(s.threads, t)
  }

  lemma CallsAppend<T>(actions: seq<Action<T>>, a: Action<T>, t: Tid)
    ensures Calls(actions + [a], t) == Calls(actions, t) + if a.Call? && a.t == t then [a.op] else []
  {
    assert (actions + [a])[..|actions|] == actions;
  }

  lemma CompletedAppend<T>(log: seq<Event<T>>, e: Event<T>, t: Tid)
    ensures Completed(log + [e], t) == Completed(log, t) + if e.tid == t then [e.op] else []
  {
    assert (log + [e])[..|log|] == log;
  }

  lemma StepMatches<T>(s: State<T>, a: Action<T>, actions: seq<Action<T>>, u: Tid)
    requires Enabled(s, a) && Calls(actions, u) == Completed(s.log, u) + Pending(s.threads, u)
    ensures Calls(actions + [a], u) == Completed(Step(s, a).log, u) + Pending(Step(s, a).threads, u)
  {
    var r, op := Step(s, a), Subject(s, a);
    CallsAppend(actions, a, u);
    StepDecides(s, a);
    if u != a.t {
      StepLeavesOthers(s, a, u);
    }
    if r.log != s.log {
      var e := r.log[|s.log|];
      assert r.log == s.log + [e];
      CompletedAppend(s.log, e, u);
    }
  }

  /** In every run what the threads called is what the log and the pending operations
      say, thread by thread. */
  lemma {:induction false} RunMatchesCalls<T(!new)>(states: seq<State<T>>, actions: seq<Action<T>>, i: nat)
    requires Run(states, actions) && i < |states|
    ensures Matched(states[i], actions[..i])
  {
    if i > 0 {
      var s, a, before := states[i - 1], actions[i - 1], actions[..i - 1];
      RunMatchesCalls(states, actions, i - 1);
      assert actions[..i] == before + [a];
      forall t ensures Calls(actions[..i], t) == Completed(states[i].log, t) + Pending(states[i].threads, t) {
        StepMatches(s, a, before, t);
      }
    }
  }

  /** And returning is final: the log only grows. */
  lemma {:induction false} LogGrows<T(!new)>(states: seq<State<T>>, actions: seq<Action<T>>, i: nat, j: nat)
    requires Run(states, actions) && i <= j < |states|
    ensures states[i].log <= states[j].log
  {
    if i < j {
      LogGrows(states, actions, i, j - 1);
      StepDecides(states[j - 1], actions[j - 1]);
    }
  }
}
