/** What the calls on a RequestHandler come to, step by step and over whole runs. */
module RequestCalls {
  import opened Common
  import opened RequestHandler

  /** Serving goes through its three steps for the request that was named, if it is
      registered, and otherwise does nothing. */
  lemma ServerAnswers<V>(s: State<V>, a: Action<V>)
    requires Inv(s) && Enabled(s, a) && (a.ServeFind? || a.ServeStore? || a.ServeUnlock?)
    ensures Step(s, a).waiter == s.waiter && (!a.ServeFind? ==> Step(s, a).book == s.book)
    ensures a.ServeFind? ==>
              if a.id in s.book.owner
              then Step(s, a).server == Serving(a.id, s.pool.requests[a.id], a.v) &&
                   Step(s, a).book == s.book.(served := s.book.served[s.book.owner[a.id] := a.v])
              else Step(s, a) == s
    ensures a.ServeStore? ==> Step(s, a).server == Stored(s.server.id, s.server.rec, s.server.v)
    ensures a.ServeUnlock? ==> Step(s, a).server == Waiting
  {
  }

  /** wait: a resolved request answers at once, and an unresolved one is looked up. */
  lemma WaitFindAnswers<V>(s: State<V>, n: Ticket)
    requires Inv(s) && Enabled(s, WaitFind(n))
    ensures var b, r := s.book, Step(s, WaitFind(n));
            && r.server == s.server && r.pool == s.pool
            && (b.futures[n] == Unresolved ==> r.waiter.Found? && r.waiter.n == n && r.book == b)
            && (b.futures[n] == Unregistered ==> r == s)
            && (b.futures[n].Done? ==>
                  n in b.served && r.waiter == Idle && r.book == b.(returned := b.returned + [(n, b.served[n])]))
  {
  }

  /** A request that was looked up is resolved with the value served and leaves the
      map, or the time is up and nothing has happened. */
  lemma WaiterAnswers<V>(s: State<V>, a: Action<V>)
    requires Inv(s) && Enabled(s, a) && (a.WaitLock? || a.WaitTimeout? || a.WaitRead? || a.WaitUnregister?)
    ensures var b, r, n := s.book, Step(s, a), s.waiter.n;
            && r.server == s.server && (!a.WaitUnregister? ==> r.book == b)
            && (a.WaitLock? ==> r.waiter == Locked(n, s.waiter.rec))
            && (a.WaitTimeout? ==> r == s.(waiter := Idle))
            && (a.WaitRead? ==> n in b.served && r == s.(waiter := Read(n, s.waiter.rec, b.served[n])))
            && (a.WaitUnregister? ==> n in b.served && r.waiter == Idle && Resolved(b, r.book, n) &&
                                      b.issued[n] !in r.pool.requests)
  {
  }

  ghost predicate Resolved<V>(b: Book<V>, c: Book<V>, n: Ticket) {
    && n < |b.futures| && n in b.served && c.issued == b.issued && c.served == b.served
    && c.futures == b.futures[n := Done(b.served[n])] && c.returned == b.returned + [(n, b.served[n])]
  }

  /** Registering makes an unresolved request with the next identifier. */
  lemma RegisterAnswers<V>(s: State<V>)
    requires Inv(s) && Enabled(s, Register)
    ensures var b, r, id := s.book, Step(s, Register), IdOf(|s.book.issued|);
            && r.waiter == Idle && r.server == s.server && r.book.served == b.served && r.book.returned == b.returned
            && r.book.issued == b.issued + [id] && r.book.futures == b.futures + [Unresolved]
            && id in r.pool.requests
  {
    NextIdOf(|s.book.issued|);
  }

  /** Unregistering forgets an unresolved request for good, and leaves others alone. */
  lemma UnregisterAnswers<V>(s: State<V>, n: Ticket)
    requires Inv(s) && Enabled(s, Unregister(n))
    ensures var b, r := s.book, Step(s, Unregister(n));
            if b.futures[n] == Unresolved
            then r.waiter == Idle && r.server == s.server && b.issued[n] !in r.pool.requests &&
                 r.book == b.(owner := b.owner - {b.issued[n]}, futures := b.futures[n := Unregistered])
            else r == s
  {
  }

  /** How many requests were registered. */
  ghost function Registrations<V>(actions: seq<Action<V>>): nat {
    if actions == [] then 0
    else Registrations(actions[..|actions| - 1]) + if actions[|actions| - 1].Register? then 1 else 0
  }

  /** The n-th call of registerRequest is ticket n. */
  lemma {:induction false} TicketsAreRegistrations<V(!new)>(states: seq<State<V>>, actions: seq<Action<V>>, i: nat)
    requires Run(states, actions) && i < |states|
    ensures |states[i].book.issued| == Registrations(actions[..i])
  {
    if i > 0 {
      TicketsAreRegistrations(states, actions, i - 1);
      assert actions[..i][..i - 1] == actions[..i - 1];
      TicketStep(states[i - 1], actions[i - 1]);
    }
  }

  lemma TicketStep<V>(s: State<V>, a: Action<V>)
    requires Enabled(s, a)
    ensures |Step(s, a).book.issued| == |s.book.issued| + if a.Register? then 1 else 0
  {
  }

  /** The server is done with ticket `n`, which is still to be waited for. */
  ghost predicate Deposited<V>(s: State<V>, n: Ticket) {
    && HasTicket(s.book, n) && s.book.futures[n] == Unresolved && n in s.book.served
    && (s.server != Waiting ==> s.server.id != s.book.issued[n])
  }

  lemma DepositStays<V>(s: State<V>, a: Action<V>, n: Ticket)
    requires Inv(s) && Enabled(s, a) && Disciplined(s, a) && Deposited(s, n)
    requires HasTicket(Step(s, a).book, n) && Step(s, a).book.futures[n] == Unresolved
    ensures Deposited(Step(s, a), n)
  {
    assert s.book.owner[s.book.issued[n]] == n;
  }

  lemma UnresolvedBefore<V>(s: State<V>, a: Action<V>, n: Ticket)
    requires Inv(s) && Enabled(s, a) && HasTicket(s.book, n)
    ensures HasTicket(Step(s, a).book, n)
    ensures Step(s, a).book.futures[n] == Unresolved ==> s.book.futures[n] == Unresolved
  {
  }

  /** A request that is unresolved now was unresolved ever since it was registered. */
  lemma {:induction false} UnresolvedSince<V(!new)>(states: seq<State<V>>, actions: seq<Action<V>>,
                                                    k: nat, i: nat, n: Ticket)
    requires DisciplinedRun(states, actions) && k <= i < |states| && HasTicket(states[k].book, n)
    ensures HasTicket(states[i].book, n)
    ensures states[i].book.futures[n] == Unresolved ==> states[k].book.futures[n] == Unresolved
  {
    if k < i {
      UnresolvedSince(states, actions, k, i - 1, n);
      RunKeepsInv(states, actions, i - 1);
      UnresolvedBefore(states[i - 1], actions[i - 1], n);
    }
  }

  lemma RunDeposits<V(!new)>(states: seq<State<V>>, actions: seq<Action<V>>, i: nat, n: Ticket)
    requires DisciplinedRun(states, actions) && i < |actions| && Deposited(states[i], n)
    requires HasTicket(states[i + 1].book, n) && states[i + 1].book.futures[n] == Unresolved
    ensures Deposited(states[i + 1], n)
  {
    RunKeepsInv(states, actions, i);
    DepositStays(states[i], actions[i], n);
  }

  lemma {:induction false} DepositedSince<V(!new)>(states: seq<State<V>>, actions: seq<Action<V>>,
                                                   k: nat, i: nat, n: Ticket)
    requires DisciplinedRun(states, actions) && k <= i < |states| && Deposited(states[k], n)
    requires HasTicket(states[i].book, n) && states[i].book.futures[n] == Unresolved
    ensures Deposited(states[i], n)
  {
    if k < i {
      UnresolvedSince(states, actions, k, i - 1, n);
      UnresolvedSince(states, actions, i - 1, i, n);
      DepositedSince(states, actions, k, i - 1, n);
      RunDeposits(states, actions, i - 1, n);
    }
  }

  lemma DepositedIsOpen<V>(s: State<V>, n: Ticket)
    requires Inv(s) && Deposited(s, n) && s.waiter == Idle
    ensures var id := s.book.issued[n];
            && id in s.pool.requests && Open(s, n, s.pool.requests[id])
            && s.pool.records[s.pool.requests[id]].result == Some(s.book.served[n])
  {
    var id := s.book.issued[n];
    assert s.book.owner[id] == n;
    assert Flag(s.pool.records[s.pool.requests[id]], n, s.book.served, BusySet(s.book.owner, s.waiter, s.server));
  }

  /** What is served can be waited for: once serveRequest has been called for an
      outstanding request and has come to its unlock, a wait for it returns that value,
      whatever else has happened, unless it was resolved before. */
  lemma ServeReachesWait<V(!new)>(states: seq<State<V>>, actions: seq<Action<V>>,
                                  k: nat, l: nat, i: nat, n: Ticket, v: V)
    returns (more: seq<Action<V>>, r: State<V>)
    requires DisciplinedRun(states, actions) && k < l < i < |states|
    requires actions[k] == ServeFind(IdOf(n), v) && actions[l] == ServeUnlock
    requires HasTicket(states[k].book, n)
    requires HasTicket(states[i].book, n) && states[i].book.futures[n] == Unresolved && states[i].waiter == Idle
    ensures Proper(states[i], more) && Leads(states[i], more, r)
    ensures r.book.returned == states[i].book.returned + [(n, v)]
  {
    UnresolvedSince(states, actions, k, i, n);
    RunKeepsInv(states, actions, k);
    ServerAnswers(states[k], actions[k]);
    assert states[k].book.owner[IdOf(n)] == n;
    ServedOnce(states, actions, k + 1, l + 1, n);
    ServedOnce(states, actions, k + 1, i, n);
    UnresolvedSince(states, actions, k, l + 1, n);
    UnresolvedSince(states, actions, l + 1, i, n);
    RunKeepsInv(states, actions, l);
    ServerAnswers(states[l], actions[l]);
    DepositedSince(states, actions, l + 1, i, n);
    RunKeepsInv(states, actions, i);
    DepositedIsOpen(states[i], n);
    more, r := OpenReturns(states[i], n, states[i].pool.requests[states[i].book.issued[n]]);
  }
}
