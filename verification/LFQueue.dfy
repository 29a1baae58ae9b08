/** lunchbox::LFQueue: a ring buffer between one writer and one reader thread,
    without locks. Every load and store of shared data is a step of its own. */
module LFQueue {
  import opened Common

  /** Where push(x) is: `next` is (_writePos + 1) % _data.size(). */
  datatype Writer<T> =
    | Away
    | Aiming(x: T, next: nat)
    | Cleared(x: T, next: nat)
    | Written(x: T, next: nat)

  /** Where pop or getFront is; `peek` tells them apart. */
  datatype Reader<T> =
    | Resting
    | Seen(peek: bool)
    | Loaded(x: T, peek: bool)

  /** `pushed` and `popped` record what push accepted and pop returned, in order. */
  datatype State<T> = State(data: seq<T>, readPos: nat, writePos: nat,
                            writer: Writer<T>, reader: Reader<T>, pushed: seq<T>, popped: seq<T>)

  datatype Action<T> =
    | PushEnter(x: T)        // compute nextPos from the writer's own position
    | PushLoadReadPos        // nextPos == _readPos ? return false
    | PushStoreItem          // _data[_writePos] = element
    | PushStoreWritePos      // _writePos = nextPos, return true
    | PopLoadWritePos(peek: bool) // _readPos == _writePos ? return false
    | PopLoadItem            // result = _data[_readPos]
    | PopStoreReadPos        // _readPos = (_readPos + 1) % size; getFront just returns

  function Capacity<T>(s: State<T>): int {
    |s.data| - 1
  }

  /** The elements between the two positions, around the end of the ring. */
  function Ring<T>(data: seq<T>, readPos: nat, writePos: nat): seq<T>
    requires readPos < |data| && writePos < |data|
  {
    if readPos <= writePos then data[readPos..writePos] else data[readPos..] + data[..writePos]
  }

  ghost predicate InRange<T>(s: State<T>) {
    s.readPos < |s.data| && s.writePos < |s.data|
  }

  ghost function Contents<T>(s: State<T>): seq<T>
    requires InRange(s)
  {
    Ring(s.data, s.readPos, s.writePos)
  }

  ghost predicate Init<T>(s: State<T>) {
    && |s.data| > 0 && s.readPos == 0 && s.writePos == 0
    && s.writer == Away && s.reader == Resting && s.pushed == [] && s.popped == []
  }

  ghost predicate Enabled<T>(s: State<T>, a: Action<T>) {
    && InRange(s)
    && match a
       case PushEnter(_) => s.writer == Away
       case PushLoadReadPos => s.writer.Aiming?
       case PushStoreItem => s.writer.Cleared?
       case PushStoreWritePos => s.writer.Written?
       case PopLoadWritePos(_) => s.reader == Resting
       case PopLoadItem => s.reader.Seen?
       case PopStoreReadPos => s.reader.Loaded?
  }

  ghost function Step<T>(s: State<T>, a: Action<T>): State<T>
    requires Enabled(s, a)
  {
    match a
    case PushEnter(x) => s.(writer := Aiming(x, (s.writePos + 1) % |s.data|))
    case PushLoadReadPos =>
      if s.writer.next == s.readPos then s.(writer := Away) else s.(writer := Cleared(s.writer.x, s.writer.next))
    case PushStoreItem =>
      s.(data := s.data[s.writePos := s.writer.x], writer := Written(s.writer.x, s.writer.next))
    case PushStoreWritePos => s.(writePos := s.writer.next, pushed := s.pushed + [s.writer.x], writer := Away)
    case PopLoadWritePos(peek) => if s.readPos == s.writePos then s else s.(reader := Seen(peek))
    case PopLoadItem => s.(reader := Loaded(s.data[s.readPos], s.reader.peek))
    case PopStoreReadPos =>
      if s.reader.peek then s.(reader := Resting)
      else s.(readPos := (s.readPos + 1) % |s.data|, popped := s.popped + [s.reader.x], reader := Resting)
  }

  ghost predicate Inv<T>(s: State<T>) {
    && InRange(s)
    && s.pushed == s.popped + Contents(s)
    && WriterInv(s) && ReaderInv(s)
  }

  /** After the writer's check the queue cannot become full behind its back. */
  ghost predicate WriterInv<T>(s: State<T>)
    requires InRange(s)
  {
    match s.writer
    case Away => true
    case Aiming(_, next) => next == (s.writePos + 1) % |s.data|
    case Cleared(_, next) => next == (s.writePos + 1) % |s.data| && |Contents(s)| < Capacity(s)
    case Written(x, next) =>
      next == (s.writePos + 1) % |s.data| && |Contents(s)| < Capacity(s) && s.data[s.writePos] == x
  }

  /** After the reader's check it cannot become empty, and what the reader loads
      is the oldest element not yet popped. */
  ghost predicate ReaderInv<T>(s: State<T>)
    requires InRange(s)
  {
    match s.reader
    case Resting => true
    case Seen(_) => s.readPos != s.writePos
    case Loaded(x, _) => s.readPos != s.writePos && x == Contents(s)[0]
  }

  function Next(i: nat, n: nat): nat
    requires i < n
    ensures Next(i, n) == (i + 1) % n
  {
    if i + 1 == n then 0 else i + 1
  }

  lemma RingSize<T>(data: seq<T>, readPos: nat, writePos: nat)
    requires readPos < |data| && writePos < |data|
    ensures |Ring(data, readPos, writePos)| <= |data| - 1
    ensures |Ring(data, readPos, writePos)| == |data| - 1 <==> Next(writePos, |data|) == readPos
    ensures Ring(data, readPos, writePos) == [] <==> readPos == writePos
  {
  }

  /** Writing behind the last element changes no element; moving the write
      position over it appends it. */
  lemma RingPush<T>(data: seq<T>, readPos: nat, writePos: nat, x: T)
    requires readPos < |data| && writePos < |data| && Next(writePos, |data|) != readPos
    ensures Ring(data[writePos := x], readPos, writePos) == Ring(data, readPos, writePos)
    ensures Ring(data, readPos, Next(writePos, |data|)) == Ring(data, readPos, writePos) + [data[writePos]]
  {
    if readPos <= writePos {
      assert data[readPos..writePos + 1] == data[readPos..writePos] + [data[writePos]];
      assert data[readPos..] + data[..0] == data[readPos..];
    } else {
      assert data[..writePos + 1] == data[..writePos] + [data[writePos]];
    }
  }

  lemma RingPop<T>(data: seq<T>, readPos: nat, writePos: nat)
    requires readPos < |data| && writePos < |data| && readPos != writePos
    ensures Ring(data, readPos, writePos) == [data[readPos]] + Ring(data, Next(readPos, |data|), writePos)
  {
  }

  /** A false result reports the queue as it was at the very load that decided
      it: push fails just when the queue holds its capacity, pop and getFront
      just when it is empty. */
  lemma FalseIsHonest<T>(s: State<T>, peek: bool)
    requires Inv(s)
    ensures s.writer.Aiming? ==>
              (Step(s, PushLoadReadPos).writer == Away <==> |Contents(s)| == Capacity(s))
    ensures s.reader == Resting ==>
              (Step(s, PopLoadWritePos(peek)).reader == Resting <==> Contents(s) == [])
  {
    RingSize(s.data, s.readPos, s.writePos);
  }

  lemma WriterStep<T>(s: State<T>, a: Action<T>)
    requires Inv(s) && Enabled(s, a)
    requires a.PushEnter? || a.PushLoadReadPos? || a.PushStoreItem? || a.PushStoreWritePos?
    ensures Inv(Step(s, a))
    ensures Contents(Step(s, a)) == Contents(s) + if a.PushStoreWritePos? then [s.writer.x] else []
  {
    if s.writer.Cleared? || s.writer.Written? {
      PushStep(s, a);
    } else {
      RingSize(s.data, s.readPos, s.writePos);
    }
  }

  lemma PushStep<T>(s: State<T>, a: Action<T>)
    requires Inv(s) && Enabled(s, a) && (a.PushStoreItem? || a.PushStoreWritePos?)
    ensures Inv(Step(s, a))
    ensures Contents(Step(s, a)) == Contents(s) + if a.PushStoreWritePos? then [s.writer.x] else []
  {
    RingSize(s.data, s.readPos, s.writePos);
    RingPush(s.data, s.readPos, s.writePos, s.writer.x);
    if s.reader.Loaded? {
      RingPop(s.data, s.readPos, s.writePos);
    }
    assert s.popped + (Contents(s) + [s.writer.x]) == s.popped + Contents(s) + [s.writer.x];
  }

  lemma ReaderStep<T>(s: State<T>, a: Action<T>)
    requires Inv(s) && Enabled(s, a)
    requires a.PopLoadWritePos? || a.PopLoadItem? || a.PopStoreReadPos?
    ensures Inv(Step(s, a))
    ensures Contents(s) ==
            (if a.PopStoreReadPos? && !s.reader.peek then [s.reader.x] else []) + Contents(Step(s, a))
  {
    if !s.reader.Resting? {
      PopStep(s, a);
    }
  }

  lemma PopStep<T>(s: State<T>, a: Action<T>)
    requires Inv(s) && Enabled(s, a) && (a.PopLoadItem? || a.PopStoreReadPos?)
    ensures Inv(Step(s, a))
    ensures Contents(s) ==
            (if a.PopStoreReadPos? && !s.reader.peek then [s.reader.x] else []) + Contents(Step(s, a))
  {
    RingPop(s.data, s.readPos, s.writePos);
    if a.PopStoreReadPos? && !s.reader.peek {
      var next := Next(s.readPos, |s.data|);
      Regroup(s.pushed, s.popped, s.reader.x, Ring(s.data, next, s.writePos));
      assert Step(s, a).readPos == next;
    }
  }

  lemma Regroup<T>(all: seq<T>, done: seq<T>, x: T, rest: seq<T>)
    requires all == done + ([x] + rest)
    ensures all == done + [x] + rest
  {
  }

  ghost predicate Run<T(!new)>(states: seq<State<T>>, actions: seq<Action<T>>) {
    && |states| == |actions| + 1 && Init(states[0])
    && forall i :: 0 <= i < |actions| ==>
         Enabled(states[i], actions[i]) && states[i + 1] == Step(states[i], actions[i])
  }

  lemma StepKeepsInv<T>(s: State<T>, a: Action<T>)
    requires Inv(s) && Enabled(s, a)
    ensures Inv(Step(s, a)) && Capacity(Step(s, a)) == Capacity(s)
  {
    if a.PopLoadWritePos? || a.PopLoadItem? || a.PopStoreReadPos? {
      ReaderStep(s, a);
    } else {
      WriterStep(s, a);
    }
  }

  lemma {:induction false} RunKeepsInv<T(!new)>(states: seq<State<T>>, actions: seq<Action<T>>, i: nat)
    requires Run(states, actions) && i < |states|
    ensures Inv(states[i]) && Capacity(states[i]) == Capacity(states[0])
  {
    if i > 0 {
      RunKeepsInv(states, actions, i - 1);
      StepKeepsInv(states[i - 1], actions[i - 1]);
    }
  }

  /** Under every interleaving, what was popped followed by what the ring holds are
      the arguments of the pushes that succeeded, and the ring never holds more than
      its capacity. */
  lemma RunIsFifo<T(!new)>(states: seq<State<T>>, actions: seq<Action<T>>, i: nat)
    requires Run(states, actions) && i < |states|
    ensures InRange(states[i]) && |states[i].popped| == Pops(actions[..i])
    ensures Accepted(actions[..i]) == states[i].popped + Contents(states[i])
    ensures |Contents(states[i])| <= Capacity(states[0])
  {
    var s := states[i];
    RunKeepsInv(states, actions, i);
    CallsAreRecorded(states, actions, i);
    RingSize(s.data, s.readPos, s.writePos);
  }

  /** What pop is about to return, or getFront returns, is the first element
      pushed that no pop has returned yet. */
  lemma ReaderGetsTheOldest<T(!new)>(states: seq<State<T>>, actions: seq<Action<T>>, i: nat)
    requires Run(states, actions) && i < |states| && states[i].reader.Loaded?
    ensures |states[i].popped| < |states[i].pushed|
    ensures states[i].reader.x == states[i].pushed[|states[i].popped|]
  {
    RunKeepsInv(states, actions, i);
    RingSize(states[i].data, states[i].readPos, states[i].writePos);
  }

  // ---- what the calls of the two threads come to ---------------------------------

  predicate OfWriter<T>(a: Action<T>) {
    a.PushEnter? || a.PushLoadReadPos? || a.PushStoreItem? || a.PushStoreWritePos?
  }

  /** The writer goes through push as the source does: it returns false just when the
      queue is full at its load, and otherwise stores and then publishes. */
  lemma {:induction false} WriterFollows<T(!new)>(states: seq<State<T>>, actions: seq<Action<T>>, i: nat, j: nat)
    requires Run(states, actions) && i < j < |states| && OfWriter(actions[i])
    requires forall k :: i < k < j ==> !OfWriter(actions[k])
    ensures InRange(states[i])
    ensures match actions[i]
            case PushEnter(_) => states[j].writer.Aiming?
            case PushLoadReadPos =>
              if |Contents(states[i])| == Capacity(states[i]) then states[j].writer.Away? else states[j].writer.Cleared?
            case PushStoreItem => states[j].writer.Written?
            case _ => states[j].writer.Away?
  {
    RunKeepsInv(states, actions, i);
    if j == i + 1 {
      FalseIsHonest(states[i], false);
    } else {
      WriterFollows(states, actions, i, j - 1);
      assert states[j].writer == states[j - 1].writer;
    }
  }

  /** And the reader through pop and getFront: false just when the queue is empty at
      its load, and otherwise load and return. */
  lemma {:induction false} ReaderFollows<T(!new)>(states: seq<State<T>>, actions: seq<Action<T>>, i: nat, j: nat)
    requires Run(states, actions) && i < j < |states| && !OfWriter(actions[i])
    requires forall k :: i < k < j ==> OfWriter(actions[k])
    ensures InRange(states[i])
    ensures match actions[i]
            case PopLoadWritePos(peek) => states[j].reader == if Contents(states[i]) == [] then Resting else Seen(peek)
            case PopLoadItem => states[j].reader.Loaded?
            case _ => states[j].reader == Resting
  {
    RunKeepsInv(states, actions, i);
    if j == i + 1 {
      RingSize(states[i].data, states[i].readPos, states[i].writePos);
    } else {
      ReaderFollows(states, actions, i, j - 1);
      assert states[j].reader == states[j - 1].reader;
    }
  }

  /** The argument of the last call of push. */
  ghost function Argument<T>(actions: seq<Action<T>>): Option<T> {
    if actions == [] then None
    else
      var a := actions[|actions| - 1];
      if a.PushEnter? then Some(a.x) else Argument(actions[..|actions| - 1])
  }

  /** The arguments of the calls of push that went on to publish. */
  ghost function Accepted<T>(actions: seq<Action<T>>): seq<T> {
    if actions == [] then []
    else
      var before := actions[..|actions| - 1];
      Accepted(before) +
      if actions[|actions| - 1].PushStoreWritePos? && Argument(before).Some? then [Argument(before).value] else []
  }

  /** Whether the last call of the reader was getFront. */
  ghost predicate Peeking<T>(actions: seq<Action<T>>) {
    actions != [] &&
    var a := actions[|actions| - 1];
    if a.PopLoadWritePos? then a.peek else Peeking(actions[..|actions| - 1])
  }

  /** How many calls of pop went on to return an element. */
  ghost function Pops<T>(actions: seq<Action<T>>): nat {
    if actions == [] then 0
    else
      var before := actions[..|actions| - 1];
      Pops(before) + if actions[|actions| - 1].PopStoreReadPos? && !Peeking(before) then 1 else 0
  }

  lemma {:induction false} CallsAreRecorded<T(!new)>(states: seq<State<T>>, actions: seq<Action<T>>, i: nat)
    requires Run(states, actions) && i < |states|
    ensures states[i].pushed == Accepted(actions[..i]) && |states[i].popped| == Pops(actions[..i])
    ensures !states[i].writer.Away? ==> Argument(actions[..i]) == Some(states[i].writer.x)
    ensures !states[i].reader.Resting? ==> states[i].reader.peek == Peeking(actions[..i])
  {
    if i > 0 {
      CallsAreRecorded(states, actions, i - 1);
      assert actions[..i][..i - 1] == actions[..i - 1] && actions[..i][i - 1] == actions[i - 1];
      assert states[i] == Step(states[i - 1], actions[i - 1]);
    }
  }

  /** A queue: the n-th element that pop returns is the argument of the n-th push
      that succeeded, and getFront returns the one that pop would return. */
  lemma PopReturnsNthPush<T(!new)>(states: seq<State<T>>, actions: seq<Action<T>>, i: nat)
    requires Run(states, actions) && i < |actions| && actions[i].PopStoreReadPos?
    ensures Pops(actions[..i]) < |Accepted(actions[..i])| && states[i].reader.Loaded?
    ensures states[i].reader.x == Accepted(actions[..i])[Pops(actions[..i])]
  {
    CallsAreRecorded(states, actions, i);
    ReaderGetsTheOldest(states, actions, i);
  }
}
