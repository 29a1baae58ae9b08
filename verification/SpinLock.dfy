/** lunchbox::SpinLock: a read-write lock on one 32-bit word. Loads and
    compare-and-swaps are separate steps of any number of threads. */
module SpinLock {
  import opened Common

  type Tid = nat

  const WRITE_LOCKED: int := -1
  const UNLOCKED: int := 0
  const INT32_LIMIT: int := 0x8000_0000

  /** The int32_t that a sum or difference of one wraps around to. */
  function Int32(x: int): int {
    if x >= INT32_LIMIT then x - 2 * INT32_LIMIT
    else if x < -INT32_LIMIT then x + 2 * INT32_LIMIT
    else x
  }

  /** Where a thread is. `Leaving` still holds its read lock; the values carried
      were loaded earlier and may be stale. */
  datatype Place =
    | Outside
    | Writing
    | Reading
    | TryingRead(expected: int)
    | Leaving(expected: int)

  datatype State = State(word: int, threads: map<Tid, Place>)

  datatype Action =
    | TrySet(t: Tid)      // compareAndSwap(_unlocked, _writelocked)
    | Unset(t: Tid)       // plain store of _unlocked
    | LoadForRead(t: Tid) // trySetRead: load the word
    | CasForRead(t: Tid)  // trySetRead: compareAndSwap(expected, expected + 1)
    | LoadToLeave(t: Tid) // unsetRead: load the word
    | CasToLeave(t: Tid)  // unsetRead: compareAndSwap(expected, expected - 1), or again

  ghost predicate Init(s: State) {
    s.word == UNLOCKED && |s.threads| < INT32_LIMIT && forall t :: t in s.threads ==> s.threads[t] == Outside
  }

  ghost predicate Enabled(s: State, a: Action) {
    && a.t in s.threads
    && var p := s.threads[a.t];
       match a
       case TrySet(_) => p == Outside
       case Unset(_) => p == Writing
       case LoadForRead(_) => p == Outside
       case CasForRead(_) => p.TryingRead?
       case LoadToLeave(_) => p == Reading
       case CasToLeave(_) => p.Leaving?
  }

  ghost function Step(s: State, a: Action): State
    requires Enabled(s, a)
  {
    var p := s.threads[a.t];
    match a
    case TrySet(t) => if s.word == UNLOCKED then State(WRITE_LOCKED, s.threads[t := Writing]) else s
    case Unset(t) => State(UNLOCKED, s.threads[t := Outside])
    case LoadForRead(t) => s.(threads := s.threads[t := TryingRead(if s.word == WRITE_LOCKED then 0 else s.word)])
    case CasForRead(t) =>
      if s.word == p.expected then State(Int32(p.expected + 1), s.threads[t := Reading])
      else s.(threads := s.threads[t := Outside])
    case LoadToLeave(t) => s.(threads := s.threads[t := Leaving(s.word)])
    case CasToLeave(t) =>
      if s.word == p.expected then State(Int32(p.expected - 1), s.threads[t := Outside])
      else s.(threads := s.threads[t := Reading])
  }

  ghost function Writers(threads: map<Tid, Place>): set<Tid> {
    set t | t in threads && threads[t] == Writing
  }

  ghost function Readers(threads: map<Tid, Place>): set<Tid> {
    set t | t in threads && (threads[t] == Reading || threads[t].Leaving?)
  }

  ghost predicate Inv(s: State) {
    && |s.threads| < INT32_LIMIT
    && (forall t :: t in s.threads && s.threads[t].TryingRead? ==> s.threads[t].expected >= 0)
    && Counts(s.word, Writers(s.threads), Readers(s.threads))
  }

  /** The word counts the holders. */
  ghost predicate Counts(word: int, writers: set<Tid>, readers: set<Tid>) {
    if word == WRITE_LOCKED then |writers| == 1 && readers == {} else writers == {} && word == |readers|
  }

  /** What moving one thread does to the two groups. */
  lemma Move(threads: map<Tid, Place>, t: Tid, p: Place)
    requires t in threads
    ensures |threads[t := p]| == |threads|
    ensures Writers(threads[t := p]) == if p == Writing then Writers(threads) + {t} else Writers(threads) - {t}
    ensures Readers(threads[t := p]) ==
            if p == Reading || p.Leaving? then Readers(threads) + {t} else Readers(threads) - {t}
  {
    assert threads[t := p].Keys == threads.Keys;
    assert |threads[t := p].Keys| == |threads[t := p]|;
  }

  /** There are fewer readers than an int32_t can count, even with one more. */
  lemma ReadersFit(threads: map<Tid, Place>, t: Tid)
    requires t in threads && t !in Readers(threads) && |threads| < INT32_LIMIT
    ensures |Readers(threads)| + 1 < INT32_LIMIT
  {
    assert Readers(threads) + {t} <= threads.Keys;
    SubsetSize(Readers(threads) + {t}, threads.Keys);
  }

  lemma OnlyOne(a: set<Tid>, t: Tid)
    requires |a| == 1 && t in a
    ensures a == {t}
  {
    assert |a - {t}| == 0;
  }

  lemma WriterStep(s: State, a: Action)
    requires Inv(s) && Enabled(s, a) && (a.TrySet? || a.Unset?)
    ensures Inv(Step(s, a))
  {
    var r := Step(s, a);
    Move(s.threads, a.t, r.threads[a.t]);
    if a.Unset? {
      assert a.t in Writers(s.threads);
      OnlyOne(Writers(s.threads), a.t);
    }
  }

  lemma EnterCounts(word: int, writers: set<Tid>, readers: set<Tid>, t: Tid)
    requires Counts(word, writers, readers) && t !in writers && t !in readers
    ensures Counts(word, writers - {t}, readers - {t})
    ensures word >= 0 ==> Counts(word + 1, writers - {t}, readers + {t})
  {
    assert writers - {t} == writers && readers - {t} == readers;
  }

  lemma LeaveCounts(word: int, writers: set<Tid>, readers: set<Tid>, t: Tid)
    requires Counts(word, writers, readers) && t in readers
    ensures 0 < word == |readers|
    ensures Counts(word, writers - {t}, readers + {t}) && Counts(word - 1, writers - {t}, readers - {t})
  {
    assert writers - {t} == writers && readers + {t} == readers;
  }

  lemma ReaderLoads(s: State, t: Tid)
    requires Inv(s) && Enabled(s, LoadForRead(t))
    ensures Inv(Step(s, LoadForRead(t)))
  {
    Move(s.threads, t, Step(s, LoadForRead(t)).threads[t]);
    EnterCounts(s.word, Writers(s.threads), Readers(s.threads), t);
  }

  /** A reader gets in on the value it expects, which is then the current count. */
  lemma ReaderEnters(s: State, t: Tid)
    requires Inv(s) && Enabled(s, CasForRead(t))
    ensures Inv(Step(s, CasForRead(t)))
  {
    EnterCounts(s.word, Writers(s.threads), Readers(s.threads), t);
    if s.word == s.threads[t].expected {
      Move(s.threads, t, Reading);
      ReadersFit(s.threads, t);
    } else {
      Move(s.threads, t, Outside);
    }
  }

  lemma ReaderLeaves(s: State, a: Action)
    requires Inv(s) && Enabled(s, a) && (a.LoadToLeave? || a.CasToLeave?)
    ensures Inv(Step(s, a))
  {
    Move(s.threads, a.t, Step(s, a).threads[a.t]);
    SubsetSize(Readers(s.threads), s.threads.Keys);
    LeaveCounts(s.word, Writers(s.threads), Readers(s.threads), a.t);
  }

  lemma StepKeepsInv(s: State, a: Action)
    requires Inv(s) && Enabled(s, a)
    ensures Inv(Step(s, a))
  {
    if a.TrySet? || a.Unset? {
      WriterStep(s, a);
    } else if a.LoadForRead? {
      ReaderLoads(s, a.t);
    } else if a.CasForRead? {
      ReaderEnters(s, a.t);
    } else {
      ReaderLeaves(s, a);
    }
  }

  ghost predicate Run(states: seq<State>, actions: seq<Action>) {
    && |states| == |actions| + 1 && Init(states[0])
    && forall i :: 0 <= i < |actions| ==>
         Enabled(states[i], actions[i]) && states[i + 1] == Step(states[i], actions[i])
  }

  lemma {:induction false} RunKeepsInv(states: seq<State>, actions: seq<Action>, i: nat)
    requires Run(states, actions) && i < |states|
    ensures Inv(states[i])
  {
    if i == 0 {
      assert Writers(states[0].threads) == {} && Readers(states[0].threads) == {};
    } else {
      RunKeepsInv(states, actions, i - 1);
      StepKeepsInv(states[i - 1], actions[i - 1]);
    }
  }

  /** The word tells exactly who is inside: -1 for one writer and no reader,
      n >= 0 for n readers and no writer, whatever the interleaving. */
  lemma WordCountsHolders(states: seq<State>, actions: seq<Action>, i: nat, n: nat)
    requires Run(states, actions) && i < |states|
    ensures var s := states[i];
            && (s.word == -1 <==> |Writers(s.threads)| == 1 && Readers(s.threads) == {})
            && (s.word == n <==> |Readers(s.threads)| == n && Writers(s.threads) == {})
  {
    RunKeepsInv(states, actions, i);
  }

  /** A writer is alone, and the assertions of unset and unsetRead hold. */
  lemma WriterIsAlone(states: seq<State>, actions: seq<Action>, i: nat, t: Tid, u: Tid)
    requires Run(states, actions) && i < |states| && t in states[i].threads && u in states[i].threads
    ensures var s := states[i];
            && (s.threads[t] == Writing ==> s.word == WRITE_LOCKED)
            && (s.threads[t] == Reading || s.threads[t].Leaving? ==> s.word > UNLOCKED)
            && (s.threads[t] == Writing && t != u ==>
                  s.threads[u] != Writing && s.threads[u] != Reading && !s.threads[u].Leaving?)
  {
    var s := states[i];
    RunKeepsInv(states, actions, i);
    if s.threads[t] == Writing {
      assert t in Writers(s.threads);
      OnlyOne(Writers(s.threads), t);
      assert u != t ==> u !in Writers(s.threads);
      assert u !in Readers(s.threads);
    } else if s.threads[t] == Reading || s.threads[t].Leaving? {
      assert t in Readers(s.threads);
    }
  }

  /** trySet is exact at the step that decides it: it succeeds just when nobody is inside. */
  lemma WriteAttemptIff(states: seq<State>, actions: seq<Action>, i: nat)
    requires Run(states, actions) && i < |actions| && actions[i].TrySet?
    ensures var s, r, t := states[i], states[i + 1], actions[i].t;
            r.threads[t] == Writing <==> Writers(s.threads) == {} && Readers(s.threads) == {}
  {
    RunKeepsInv(states, actions, i);
    RunKeepsInv(states, actions, i + 1);
  }

  lemma {:induction false} LoadIsKept(states: seq<State>, actions: seq<Action>, j: nat, i: nat, t: Tid)
    requires Run(states, actions) && j < i < |states| && actions[j] == LoadForRead(t)
    requires forall k :: j < k < i ==> actions[k].t != t
    ensures t in states[i].threads
    ensures states[i].threads[t] == TryingRead(if states[j].word == WRITE_LOCKED then 0 else states[j].word)
  {
    if j < i - 1 {
      LoadIsKept(states, actions, j, i - 1, t);
    }
  }

  /** A read attempt is exact too: it succeeds just when the word is what it was at
      the load and was no write lock, or was a write lock then and is unlocked now.
      Then as many readers are inside as at the load, or none, and no writer. */
  lemma ReadAttemptIff(states: seq<State>, actions: seq<Action>, j: nat, i: nat, t: Tid)
    requires Run(states, actions) && j < i < |actions|
    requires actions[j] == LoadForRead(t) && actions[i] == CasForRead(t)
    requires forall k :: j < k < i ==> actions[k].t != t
    ensures t in states[i + 1].threads
    ensures states[i + 1].threads[t] == Reading <==>
            Writers(states[i].threads) == {} &&
            |Readers(states[i].threads)| ==
            if Writers(states[j].threads) == {} then |Readers(states[j].threads)| else 0
  {
    LoadIsKept(states, actions, j, i, t);
    RunKeepsInv(states, actions, j);
    RunKeepsInv(states, actions, i);
  }

  /** Who comes and goes: a writer enters an empty lock, its unset empties it, a
      reader joins or leaves by its successful compare-and-swap, and nothing else
      changes who is inside. */
  ghost predicate Follows(a: Action, before: map<Tid, Place>, after: map<Tid, Place>) {
    && a.t in before && a.t in after
    && var w, r, w', r', place := Writers(before), Readers(before), Writers(after), Readers(after), after[a.t];
       match a
       case TrySet(t) => if w == {} && r == {} then w' == {t} && r' == {} else after == before
       case Unset(_) => w' == {} && r' == {} && place == Outside
       case LoadForRead(_) => w' == w && r' == r && place.TryingRead?
       case CasForRead(t) => w' == w && (if place == Reading then r' == r + {t} else r' == r && place == Outside)
       case LoadToLeave(_) => w' == w && r' == r && place.Leaving?
       case CasToLeave(t) => w' == w && (if place == Outside then r' == r - {t} else r' == r && place == Reading)
  }

  lemma WriterFollows(s: State, a: Action)
    requires Inv(s) && Enabled(s, a) && (a.TrySet? || a.Unset?)
    ensures Follows(a, s.threads, Step(s, a).threads)
  {
    Move(s.threads, a.t, Step(s, a).threads[a.t]);
    if a.Unset? {
      assert a.t in Writers(s.threads);
      OnlyOne(Writers(s.threads), a.t);
    }
  }

  lemma ReaderFollows(s: State, a: Action)
    requires Inv(s) && Enabled(s, a) && !a.TrySet? && !a.Unset?
    ensures Follows(a, s.threads, Step(s, a).threads)
  {
    var t, p := a.t, s.threads;
    Move(p, t, Step(s, a).threads[t]);
    Unmoved(Writers(p), t);
    Unmoved(Readers(p), t);
  }

  lemma Unmoved(a: set<Tid>, t: Tid)
    ensures if t in a then a + {t} == a else a - {t} == a
  {
  }

  /** In every run that is how the holders change, and no other thread is moved. */
  lemma HoldersFollow(states: seq<State>, actions: seq<Action>, i: nat, u: Tid)
    requires Run(states, actions) && i < |actions|
    ensures Follows(actions[i], states[i].threads, states[i + 1].threads)
    ensures u in states[i].threads <==> u in states[i + 1].threads
    ensures u in states[i].threads && u != actions[i].t ==> states[i + 1].threads[u] == states[i].threads[u]
  {
    var s, a := states[i], actions[i];
    RunKeepsInv(states, actions, i);
    if a.TrySet? || a.Unset? {
      WriterFollows(s, a);
    } else {
      ReaderFollows(s, a);
    }
  }

  lemma {:induction false} LeaveLoadIsKept(states: seq<State>, actions: seq<Action>, j: nat, i: nat, t: Tid)
    requires Run(states, actions) && j < i < |states| && actions[j] == LoadToLeave(t)
    requires forall k :: j < k < i ==> actions[k].t != t
    ensures t in states[i].threads && states[i].threads[t] == Leaving(states[j].word)
  {
    if j < i - 1 {
      LeaveLoadIsKept(states, actions, j, i - 1, t);
    }
  }

  /** unsetRead leaves just when as many readers are inside as at its load, and
      otherwise tries again. */
  lemma LeaveAttemptIff(states: seq<State>, actions: seq<Action>, j: nat, i: nat, t: Tid)
    requires Run(states, actions) && j < i < |actions|
    requires actions[j] == LoadToLeave(t) && actions[i] == CasToLeave(t)
    requires forall k :: j < k < i ==> actions[k].t != t
    ensures t in states[i + 1].threads
    ensures states[i + 1].threads[t] ==
            if |Readers(states[i].threads)| == |Readers(states[j].threads)| then Outside else Reading
  {
    LeaveLoadIsKept(states, actions, j, i, t);
    RunKeepsInv(states, actions, j);
    RunKeepsInv(states, actions, i);
    assert t in Readers(states[i].threads) && t in Readers(states[j].threads);
  }
}
