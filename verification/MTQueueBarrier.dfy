/** MTQueue::popBarrier as termination detection: in a closed group of workers,
    the first false means that all the work is done. */
module MTQueueBarrier {
  import opened Common
  import opened MTQueue
  import opened MTQueueOrder

  /** A group, and the threads that make it up. */
  datatype Team = Team(group: GroupId, members: set<Tid>)

  predicate Adds<T>(op: Op<T>) {
    op.Push? || op.PushAll? || op.PushFront? || op.PushFrontAll?
  }

  /** The members popBarrier has told to stop. */
  ghost function Retired<T>(log: seq<Event<T>>, g: GroupId): set<Tid> {
    if log == [] then {}
    else
      var e := log[|log| - 1];
      Retired(log[..|log| - 1], g) + if e.op == PopBarrier(g) && e.result == Failed then {e.tid} else {}
  }

  /** The closed group: only members that are still at work push or enter the
      barrier, nobody discards elements. Others may take elements or resize. */
  ghost predicate Allowed<T>(c: Team, s: State<T>, a: Action<T>) {
    a.Call? ==>
      && !Resets(a.op)
      && (Adds(a.op) || a.op == PopBarrier(c.group) ==> a.t in c.members && a.t !in Retired(s.log, c.group))
  }

  ghost predicate TeamRun<T(!new)>(c: Team, states: seq<State<T>>, actions: seq<Action<T>>) {
    && Run(states, actions)
    && c.group in states[0].sh.groups && states[0].sh.groups[c.group].height == |c.members| > 0
    && c.members <= states[0].threads.Keys
    && forall i :: 0 <= i < |actions| ==> Allowed(c, states[i], actions[i])
  }

  /** The members inside the barrier or gone from it with false. */
  ghost function Settled<T>(c: Team, s: State<T>): set<Tid> {
    Inside(s.threads, c.group) + Retired(s.log, c.group)
  }

  /** Only members settle, nobody retires twice, and once somebody has retired
      the queue is empty and every member has settled. */
  ghost predicate Roster(members: set<Tid>, inside: set<Tid>, retired: set<Tid>, falses: nat, drained: bool) {
    && inside + retired <= members && inside !! retired && falses == |retired|
    && (retired != {} ==> drained && inside + retired == members)
  }

  ghost predicate TeamInv<T>(c: Team, s: State<T>) {
    && c.group in s.sh.groups && s.sh.groups[c.group].height == |c.members| > 0
    && c.members <= s.threads.Keys
    && Roster(c.members, Inside(s.threads, c.group), Retired(s.log, c.group), Falses(s.log, c.group), s.sh.queue == [])
    && AllOrderly(c, s.threads, Retired(s.log, c.group))
  }

  /** Nobody is about to discard elements, and only working members are about to add some. */
  ghost predicate AllOrderly<T>(c: Team, threads: map<Tid, Status<T>>, retired: set<Tid>) {
    forall t :: t in threads && !threads[t].Idle? ==> Orderly(c, retired, t, threads[t].op)
  }

  ghost predicate Orderly<T>(c: Team, retired: set<Tid>, t: Tid, op: Op<T>) {
    !Resets(op) && (Adds(op) ==> t in c.members && t !in retired)
  }

  lemma RetiredAppend<T>(log: seq<Event<T>>, e: Event<T>, g: GroupId)
    ensures Retired(log + [e], g) ==
            Retired(log, g) + if e.op == PopBarrier(g) && e.result == Failed then {e.tid} else {}
  {
    assert (log + [e])[..|log|] == log;
  }

  /** waiting_ never exceeds the height, and reaches it when all have settled. */
  lemma WaitingWithinHeight<T>(c: Team, s: State<T>)
    requires Core(s) && TeamInv(c, s)
    ensures s.sh.groups[c.group].waiting == |Settled(c, s)| <= s.sh.groups[c.group].height
    ensures s.sh.groups[c.group].waiting == s.sh.groups[c.group].height <==> Settled(c, s) == c.members
  {
    assert Counted(s, c.group);
    SubsetSize(Settled(c, s), c.members);
  }

  lemma OrderlyUpdate<T>(c: Team, threads: map<Tid, Status<T>>, retired: set<Tid>, t: Tid, st: Status<T>)
    requires AllOrderly(c, threads, retired)
    requires !st.Idle? ==> Orderly(c, retired, t, st.op)
    ensures AllOrderly(c, threads[t := st], retired)
    ensures AllOrderly(c, NotifyAll(threads), retired)
  {
  }

  lemma RosterEnter(members: set<Tid>, inside: set<Tid>, retired: set<Tid>, falses: nat, drained: bool, t: Tid)
    requires Roster(members, inside, retired, falses, drained) && t in members && t !in inside && t !in retired
    ensures Roster(members, inside + {t}, retired, falses, drained)
  {
  }

  lemma RosterLeave(members: set<Tid>, inside: set<Tid>, retired: set<Tid>, falses: nat, drained: bool, t: Tid)
    requires Roster(members, inside, retired, falses, drained) && (t in inside ==> retired == {})
    ensures Roster(members, inside - {t}, retired, falses, drained)
    ensures retired == {} ==> forall d :: Roster(members, inside - {t}, retired, falses, d)
  {
    assert t !in inside ==> inside - {t} == inside;
  }

  lemma RosterRetire(members: set<Tid>, inside: set<Tid>, retired: set<Tid>, falses: nat, t: Tid)
    requires Roster(members, inside, retired, falses, true) && t in inside && inside + retired == members
    ensures Roster(members, inside - {t}, retired + {t}, falses + 1, true)
  {
    assert (inside - {t}) + (retired + {t}) == members;
  }

  lemma EnterKeepsTeam<T>(c: Team, s: State<T>, t: Tid, op: Op<T>)
    requires TeamInv(c, s) && Enabled(s, Call(t, op)) && Allowed(c, s, Call(t, op))
    ensures TeamInv(c, Enter(s, t, op))
  {
    var r, inside, retired := Enter(s, t, op), Inside(s.threads, c.group), Retired(s.log, c.group);
    assert t !in inside;
    InsideUpdate(s.threads, t, Notified(op), c.group);
    if op == PopBarrier(c.group) {
      RosterEnter(c.members, inside, retired, Falses(s.log, c.group), s.sh.queue == [], t);
    } else {
      assert Inside(r.threads, c.group) == inside;
    }
    OrderlyUpdate(c, s.threads, retired, t, Notified(op));
  }

  /** What completing an operation does to the roster of a group. */
  lemma FinishFrame<T>(s: State<T>, t: Tid, op: Op<T>, o: Outcome<T>, g: GroupId)
    ensures var r := Finish(s, t, op, o);
            var gone := if op == PopBarrier(g) && o.result == Failed then {t} else {};
            && Inside(r.threads, g) == Inside(s.threads, g) - {t}
            && Retired(r.log, g) == Retired(s.log, g) + gone
            && Falses(r.log, g) == Falses(s.log, g) + |gone|
  {
    RetiredAppend(s.log, Event(t, op, o.result), g);
    FalsesAppend(s.log, Event(t, op, o.result), g);
    var woken := if o.notify then NotifyAll(s.threads) else s.threads;
    InsideUpdate(s.threads, t, Idle, g);
    InsideUpdate(woken, t, Idle, g);
  }

  lemma FinishOrderly<T>(c: Team, s: State<T>, t: Tid, op: Op<T>, o: Outcome<T>, retired: set<Tid>)
    requires AllOrderly(c, s.threads, retired)
    ensures AllOrderly(c, Finish(s, t, op, o).threads, retired + {t})
    ensures AllOrderly(c, Finish(s, t, op, o).threads, retired)
  {
    var r := Finish(s, t, op, o);
    forall u | u in r.threads && !r.threads[u].Idle? ensures Orderly(c, retired + {t}, u, r.threads[u].op) {
      assert u != t && r.threads[u].op == s.threads[u].op;
    }
  }

  /** An operation completes that is not a popBarrier returning false. */
  lemma FinishKeepsTeam<T>(c: Team, s: State<T>, t: Tid, op: Op<T>, o: Outcome<T>)
    requires TeamInv(c, s) && t in s.threads && !s.threads[t].Idle? && s.threads[t].op == op
    requires SameHeights(s.sh, o.sh) && !(op == PopBarrier(c.group) && o.result == Failed)
    requires Retired(s.log, c.group) != {} ==> o.sh.queue == []
    requires op == PopBarrier(c.group) ==> Retired(s.log, c.group) == {}
    ensures TeamInv(c, Finish(s, t, op, o))
  {
    var r, inside, retired := Finish(s, t, op, o), Inside(s.threads, c.group), Retired(s.log, c.group);
    FinishFrame(s, t, op, o, c.group);
    assert Retired(r.log, c.group) == retired;
    FinishOrderly(c, s, t, op, o, retired);
    RosterLeave(c.members, inside, retired, Falses(s.log, c.group), s.sh.queue == [], t);
  }

  lemma TakeKeepsTeam<T>(c: Team, s: State<T>, t: Tid, op: Op<T>)
    requires Core(s) && TeamInv(c, s) && t in s.threads && s.threads[t] == Notified(op)
    requires Ready(op, s.sh) && !(op == PopBarrier(c.group) && s.sh.queue == [])
    ensures TeamInv(c, Attempt(s, t, op))
  {
    EffectFrame(op, s.sh);
    if Retired(s.log, c.group) != {} {
      DrainedStays(c, s, t, op);
    }
    FinishKeepsTeam(c, s, t, op, Effect(op, s.sh));
  }

  /** Once a member has retired nobody is left who could add an element. */
  lemma DrainedStays<T>(c: Team, s: State<T>, t: Tid, op: Op<T>)
    requires TeamInv(c, s) && t in s.threads && s.threads[t] == Notified(op)
    requires Retired(s.log, c.group) != {} && Ready(op, s.sh)
    ensures Effect(op, s.sh).sh.queue == []
  {
    assert Orderly(c, Retired(s.log, c.group), t, op);
    assert Adds(op) ==> t in Settled(c, s);
    assert t in Inside(s.threads, c.group) ==> op == PopBarrier(c.group);
  }

  /** popBarrier returns false: the assertion on waiting_ holds, everybody has
      settled, and the thread moves from inside to retired. */
  lemma FalseKeepsTeam<T>(c: Team, s: State<T>, t: Tid)
    requires Core(s) && TeamInv(c, s) && t in s.threads && s.threads[t] == Notified(PopBarrier(c.group))
    requires s.sh.queue == [] && Ready(PopBarrier(c.group), s.sh)
    ensures s.sh.groups[c.group].waiting == s.sh.groups[c.group].height
    ensures TeamInv(c, Attempt(s, t, PopBarrier(c.group)))
  {
    WaitingWithinHeight(c, s);
    var o := Effect(PopBarrier(c.group), s.sh);
    FinishFrame(s, t, PopBarrier(c.group), o, c.group);
    FinishOrderly(c, s, t, PopBarrier(c.group), o, Retired(s.log, c.group));
    RosterRetire(c.members, Inside(s.threads, c.group), Retired(s.log, c.group), Falses(s.log, c.group), t);
  }

  lemma AttemptKeepsTeam<T>(c: Team, s: State<T>, t: Tid, op: Op<T>)
    requires Core(s) && TeamInv(c, s) && t in s.threads && s.threads[t] == Notified(op)
    ensures TeamInv(c, Attempt(s, t, op))
  {
    if !Ready(op, s.sh) {
      InsideUpdate(s.threads, t, Blocked(op), c.group);
      assert t in Inside(s.threads, c.group) <==> op == PopBarrier(c.group);
      assert Inside(s.threads[t := Blocked(op)], c.group) == Inside(s.threads, c.group);
      OrderlyUpdate(c, s.threads, Retired(s.log, c.group), t, Blocked(op));
    } else if op == PopBarrier(c.group) && s.sh.queue == [] {
      FalseKeepsTeam(c, s, t);
    } else {
      TakeKeepsTeam(c, s, t, op);
    }
  }

  lemma WokenKeepsTeam<T>(c: Team, s: State<T>, t: Tid)
    requires TeamInv(c, s) && t in s.threads && !s.threads[t].Idle?
    ensures TeamInv(c, Woken(s, t))
  {
    var st := Notified(s.threads[t].op);
    InsideWoken(s, t, c.group);
    OrderlyUpdate(c, s.threads, Retired(s.log, c.group), t, st);
  }

  lemma StepKeepsTeam<T>(c: Team, s: State<T>, a: Action<T>)
    requires Inv(s) && TeamInv(c, s) && Enabled(s, a) && Allowed(c, s, a)
    ensures TeamInv(c, Step(s, a))
  {
    match a
    case Call(t, op) =>
      EnterKeepsCore(s, t, op);
      EnterKeepsTeam(c, s, t, op);
      AttemptKeepsTeam(c, Enter(s, t, op), t, op);
    case Resume(t) =>
      AttemptKeepsTeam(c, s, t, s.threads[t].op);
    case Timeout(t) =>
      var op := s.threads[t].op;
      if Ready(op, s.sh) {
        WakeKeepsInv(s, t);
        WokenKeepsTeam(c, s, t);
        AttemptSame(s, t);
        AttemptKeepsTeam(c, Woken(s, t), t, op);
      } else {
        FinishKeepsTeam(c, s, t, op, Outcome(s.sh, if op.TimedPop? then Failed else Many([]), false));
      }
    case Spurious(t) =>
      WokenKeepsTeam(c, s, t);
  }

  lemma StepResetsNothing<T>(c: Team, s: State<T>, a: Action<T>)
    requires AllOrderly(c, s.threads, Retired(s.log, c.group)) && Enabled(s, a) && Allowed(c, s, a) && NoResets(s.log)
    ensures NoResets(Step(s, a).log)
  {
    var op := if a.Call? then a.op else s.threads[a.t].op;
    assert !a.Call? && !s.threads[a.t].Idle? ==> Orderly(c, Retired(s.log, c.group), a.t, op);
    assert Step(s, a).log != s.log ==> exists x :: Step(s, a).log == s.log + [Event(a.t, op, x)];
  }

  lemma {:induction false} TeamRunKeepsInv<T(!new)>(c: Team, states: seq<State<T>>, actions: seq<Action<T>>, i: nat)
    requires TeamRun(c, states, actions) && i < |states|
    ensures Inv(states[i]) && TeamInv(c, states[i]) && NoResets(states[i].log)
  {
    RunKeepsInv(states, actions, i);
    if i == 0 {
      assert Inside(states[0].threads, c.group) == {};
    } else {
      TeamRunKeepsInv(c, states, actions, i - 1);
      StepKeepsTeam(c, states[i - 1], actions[i - 1]);
      StepResetsNothing(c, states[i - 1], actions[i - 1]);
    }
  }

  lemma {:induction false} RetiredForever<T(!new)>(states: seq<State<T>>, actions: seq<Action<T>>,
                                                   i: nat, j: nat, g: GroupId)
    requires Run(states, actions) && i <= j < |states|
    ensures Retired(states[i].log, g) <= Retired(states[j].log, g)
  {
    if i < j {
      RetiredForever(states, actions, i, j - 1, g);
      var s, r := states[j - 1], states[j];
      StepShape(s, actions[j - 1]);
      if !Quiet(s, r) {
        var e :| Logs(s, r, e);
        RetiredAppend(s.log, e, g);
      }
    }
  }

  /** The next thing member `t` does is to return false from popBarrier. */
  ghost predicate AboutToRetire<T>(c: Team, s: State<T>, t: Tid) {
    && t in s.threads && s.threads[t] == Notified(PopBarrier(c.group))
    && Step(s, Resume(t)).log == s.log + [Event(t, PopBarrier(c.group), Failed)]
  }

  lemma EverythingTaken<T(!new)>(states: seq<State<T>>, actions: seq<Action<T>>, i: nat)
    requires Run(states, actions) && i < |states| && NoResets(states[i].log)
    ensures In(states[i].log) == multiset(Taking(states[i].log)) + multiset(states[i].sh.queue)
  {
    var log := states[i].log;
    var qs := RunIsHistory(states, actions, i);
    RunKeepsElements(states, actions, i);
    OutIsTaken(log, qs);
  }

  /** Termination detection. Once popBarrier has returned false to any member of
      a closed group, then from that moment on: the queue is empty, the elements
      taken are exactly those pushed, waiting_ equals height_, and each member has
      been told to stop or is awake and about to be told. */
  lemma FalseMeansDone<T(!new)>(c: Team, states: seq<State<T>>, actions: seq<Action<T>>, i: nat, j: nat)
    requires TeamRun(c, states, actions) && i <= j < |states|
    requires Retired(states[i].log, c.group) != {}
    ensures var s := states[j];
            && s.sh.queue == [] && In(s.log) == multiset(Taking(s.log))
            && c.group in s.sh.groups && s.sh.groups[c.group].waiting == s.sh.groups[c.group].height
            && forall t :: t in c.members ==> t in Retired(s.log, c.group) || AboutToRetire(c, s, t)
  {
    var s := states[j];
    TeamRunKeepsInv(c, states, actions, j);
    EverythingTaken(states, actions, j);
    RetiredForever(states, actions, i, j, c.group);
    WaitingWithinHeight(c, s);
    forall t | t in c.members && t !in Retired(s.log, c.group) ensures AboutToRetire(c, s, t) {
      assert t in Inside(s.threads, c.group);
      assert Ready(PopBarrier(c.group), s.sh);
    }
  }

  /** The barrier cannot deadlock: the members are never all asleep in it. */
  lemma SomebodyIsAwake<T(!new)>(c: Team, states: seq<State<T>>, actions: seq<Action<T>>, i: nat)
    requires TeamRun(c, states, actions) && i < |states|
    ensures exists t :: t in c.members && t in states[i].threads &&
                        states[i].threads[t] != Blocked(PopBarrier(c.group))
  {
    var s := states[i];
    TeamRunKeepsInv(c, states, actions, i);
    WaitingWithinHeight(c, s);
    var asleep := set t | t in c.members && s.threads[t] == Blocked(PopBarrier(c.group));
    assert asleep <= Inside(s.threads, c.group);
    assert asleep == c.members ==> Ready(PopBarrier(c.group), s.sh);
    assert asleep != {} ==> !Ready(PopBarrier(c.group), s.sh);
    assert c.members != {};
    assert c.members - asleep == {} ==> asleep == c.members;
    var t :| t in c.members - asleep;
  }
}
