/** lunchbox::RequestHandler and lunchbox::Request: one thread registers requests
    and waits for them, another serves them. Records are recycled, and a record's
    mutex doubles as its "served" flag: it is locked until the request is served.
    A critical section under the handler's spin lock, and every access to a
    record outside it, is a step of its own. */
module RequestHandler {
  import opened Common

  type Id = nat
  type Ticket = nat
  type RecordIndex = nat

  /** LB_MAX_UINT32, the bound below which request identifiers stay. */
  const MAX_UINT32: nat := 0xffff_fff0
  const UNDEFINED_UINT32: nat := 0xffff_ffff

  /** A record as the two threads share it. */
  datatype Record<V> = Record(locked: bool, result: Option<V>)

  /** The state of a Request object. */
  datatype Future<V> = Unresolved | Done(value: V) | Unregistered

  /** Where the waiting thread is in waitRequest for ticket `n`. */
  datatype Waiter<V> =
    | Idle
    | Found(n: Ticket, rec: RecordIndex)
    | Locked(n: Ticket, rec: RecordIndex)
    | Read(n: Ticket, rec: RecordIndex, v: V)

  /** Where the serving thread is in serveRequest. */
  datatype Server<V> =
    | Waiting
    | Serving(id: Id, rec: RecordIndex, v: V)
    | Stored(id: Id, rec: RecordIndex, v: V)

  /** What the handler guards with its spin lock, and the records. */
  datatype Pool<V> = Pool(requestID: Id, requests: map<Id, RecordIndex>, free: seq<RecordIndex>,
                          records: seq<Record<V>>)

  /** The Request objects and the history. `issued` lists the identifiers handed
      out; the n-th registration is ticket n and has the object `futures[n]`.
      `owner` tells which ticket an outstanding identifier stands for, `served`
      the value with which serveRequest found it, and `returned` what wait() returned. */
  datatype Book<V> = Book(issued: seq<Id>, futures: seq<Future<V>>, owner: map<Id, Ticket>,
                          served: map<Ticket, V>, returned: seq<(Ticket, V)>)

  datatype State<V> = State(pool: Pool<V>, book: Book<V>, waiter: Waiter<V>, server: Server<V>)

  datatype Action<V> =
    | Register
    | WaitFind(n: Ticket)   // Request::wait: answer from the object, or look the record up
    | WaitLock              // request->lock.lock()
    | WaitTimeout           // try_lock_for gave up
    | WaitRead              // result = request->result
    | WaitUnregister        // unregisterRequest, then state_ = DONE
    | Unregister(n: Ticket) // Request::unregister
    | ServeFind(id: Id, v: V)
    | ServeStore            // request->result = result
    | ServeUnlock           // request->lock.unlock()

  ghost predicate Init<V>(s: State<V>) {
    s == State(Pool(1, map[], [], []), Book([], [], map[], map[], []), Idle, Waiting)
  }

  ghost predicate HasTicket<V>(b: Book<V>, n: Ticket) {
    n < |b.futures| && n < |b.issued|
  }

  ghost predicate Enabled<V>(s: State<V>, a: Action<V>) {
    match a
    case Register => s.waiter == Idle
    case WaitFind(n) => s.waiter == Idle && HasTicket(s.book, n)
    case WaitLock => s.waiter.Found? && s.waiter.rec < |s.pool.records| && !s.pool.records[s.waiter.rec].locked
    case WaitTimeout => s.waiter.Found?
    case WaitRead => s.waiter.Locked? && s.waiter.rec < |s.pool.records| && s.pool.records[s.waiter.rec].result.Some?
    case WaitUnregister => s.waiter.Read? && HasTicket(s.book, s.waiter.n)
    case Unregister(n) => s.waiter == Idle && HasTicket(s.book, n)
    case ServeFind(_, _) => s.server == Waiting
    case ServeStore => s.server.Serving? && s.server.rec < |s.pool.records|
    case ServeUnlock => s.server.Stored? && s.server.rec < |s.pool.records|
  }

  function NextId(id: Id): Id {
    (id + 1) % MAX_UINT32
  }

  /** registerRequest: a record from the front of the free list, or a new one. */
  function Registered<V>(p: Pool<V>): Pool<V> {
    var id := NextId(p.requestID);
    if p.free == [] then
      Pool(id, p.requests[id := |p.records|], [], p.records + [Record(true, None)])
    else
      Pool(id, p.requests[id := p.free[0]], p.free[1..], p.records)
  }

  /** unregisterRequest: the record goes to the front of the free list. */
  function Released<V>(p: Pool<V>, id: Id): Pool<V> {
    if id !in p.requests then p
    else p.(requests := p.requests - {id}, free := [p.requests[id]] + p.free)
  }

  function SetRecord<V>(p: Pool<V>, rec: RecordIndex, r: Record<V>): Pool<V>
    requires rec < |p.records|
  {
    p.(records := p.records[rec := r])
  }

  ghost function Step<V>(s: State<V>, a: Action<V>): State<V>
    requires Enabled(s, a)
  {
    var p, b := s.pool, s.book;
    match a
    case Register =>
      var q := Registered(p);
      s.(pool := q,
         book := b.(issued := b.issued + [q.requestID], futures := b.futures + [Unresolved],
                    owner := b.owner[q.requestID := |b.issued|]))
    case WaitFind(n) =>
      (match b.futures[n]
       case Done(v) => s.(book := b.(returned := b.returned + [(n, v)]))
       case Unregistered => s
       case Unresolved =>
         if b.issued[n] in p.requests then s.(waiter := Found(n, p.requests[b.issued[n]])) else s)
    case WaitLock =>
      var rec := s.waiter.rec;
      s.(pool := SetRecord(p, rec, p.records[rec].(locked := true)), waiter := Locked(s.waiter.n, rec))
    case WaitTimeout => s.(waiter := Idle)
    case WaitRead => s.(waiter := Read(s.waiter.n, s.waiter.rec, p.records[s.waiter.rec].result.value))
    case WaitUnregister =>
      var n, v := s.waiter.n, s.waiter.v;
      s.(pool := Released(p, b.issued[n]), waiter := Idle,
         book := b.(owner := b.owner - {b.issued[n]}, futures := b.futures[n := Done(v)],
                    returned := b.returned + [(n, v)]))
    case Unregister(n) =>
      if b.futures[n] != Unresolved then s
      else s.(pool := Released(p, b.issued[n]),
              book := b.(owner := b.owner - {b.issued[n]}, futures := b.futures[n := Unregistered]))
    case ServeFind(id, v) =>
      if id !in p.requests || id !in b.owner then s
      else s.(server := Serving(id, p.requests[id], v), book := b.(served := b.served[b.owner[id] := v]))
    case ServeStore =>
      var rec := s.server.rec;
      s.(pool := SetRecord(p, rec, p.records[rec].(result := Some(s.server.v))),
         server := Stored(s.server.id, rec, s.server.v))
    case ServeUnlock =>
      var rec := s.server.rec;
      s.(pool := SetRecord(p, rec, p.records[rec].(locked := false)), server := Waiting)
  }

  /** What the users of the handler must keep to: no request stays outstanding
      while LB_MAX_UINT32 others are registered, each is served at most once, and
      one whose serving has begun is not unregistered. */
  ghost predicate Disciplined<V>(s: State<V>, a: Action<V>) {
    match a
    case Register => forall id :: id in s.book.owner ==> |s.book.issued| < s.book.owner[id] + MAX_UINT32
    case ServeFind(id, _) => id in s.book.owner ==> s.book.owner[id] !in s.book.served
    case Unregister(n) => n < |s.book.futures| && s.book.futures[n] == Unresolved ==> n !in s.book.served
    case _ => true
  }

  /** The identifier of the n-th registration. */
  function IdOf(n: Ticket): Id {
    (n + 2) % MAX_UINT32
  }

  /** Identifiers stay clear of the reserved values, and repeat only after
      LB_MAX_UINT32 registrations. */
  lemma IdsDistinct(m: Ticket, n: Ticket)
    requires m < n < m + MAX_UINT32
    ensures IdOf(m) != IdOf(n) && IdOf(m) < MAX_UINT32 < UNDEFINED_UINT32
  {
    var a, b := m + 2, n + 2;
    assert a == MAX_UINT32 * (a / MAX_UINT32) + a % MAX_UINT32;
    assert b == MAX_UINT32 * (b / MAX_UINT32) + b % MAX_UINT32;
  }

  lemma NextIdOf(n: nat)
    ensures NextId((n + 1) % MAX_UINT32) == IdOf(n)
  {
  }

  /** The tickets whose record is locked although their serving has begun: the
      server has not unlocked it yet, or the waiter has locked it again. */
  ghost function BusySet<V>(owner: map<Id, Ticket>, waiter: Waiter<V>, server: Server<V>): set<Ticket> {
    (if server != Waiting && server.id in owner then {owner[server.id]} else {}) +
    (if waiter.Locked? || waiter.Read? then {waiter.n} else {})
  }

  ghost predicate Inv<V>(s: State<V>) {
    && Books(s.book) && Numbered(s.pool.requestID, s.book)
    && s.book.owner.Keys == s.pool.requests.Keys
    && Partition(s.pool.requests, s.pool.free, |s.pool.records|)
    && FreeLocked(s.pool.free, s.pool.records)
    && Flags(s.pool.requests, s.pool.records, s.book.owner, s.book.served, BusySet(s.book.owner, s.waiter, s.server))
    && WaiterOk(s.pool, s.book, s.waiter) && ServerOk(s.pool, s.book, s.server)
    && (s.server != Waiting && (s.waiter.Locked? || s.waiter.Read?) ==> s.book.owner[s.server.id] != s.waiter.n)
  }

  ghost predicate Numbered<V>(requestID: Id, b: Book<V>) {
    requestID == (|b.issued| + 1) % MAX_UINT32 && forall n :: 0 <= n < |b.issued| ==> b.issued[n] == IdOf(n)
  }

  /** Outstanding identifiers and unresolved Request objects correspond, and a
      value that wait() gives, or keeps for later, is the value served. */
  ghost predicate Books<V>(b: Book<V>) {
    && |b.futures| == |b.issued|
    && (forall id :: id in b.owner ==>
          b.owner[id] < |b.issued| && b.issued[b.owner[id]] == id && b.futures[b.owner[id]] == Unresolved)
    && (forall n :: 0 <= n < |b.futures| && b.futures[n] == Unresolved ==>
          b.issued[n] in b.owner && b.owner[b.issued[n]] == n)
    && (forall n :: n in b.served ==> n < |b.issued|)
    && (forall n :: 0 <= n < |b.futures| && b.futures[n].Done? ==> n in b.served && b.served[n] == b.futures[n].value)
    && (forall i :: 0 <= i < |b.returned| ==>
          b.returned[i].0 in b.served && b.returned[i].1 == b.served[b.returned[i].0])
  }

  /** Every record is in exactly one place: under one identifier or once in the
      free list. */
  ghost predicate Partition(requests: map<Id, RecordIndex>, free: seq<RecordIndex>, size: nat) {
    && (forall id :: id in requests ==> requests[id] < size && requests[id] !in free)
    && (forall i, j :: i in requests && j in requests && i != j ==> requests[i] != requests[j])
    && (forall i :: 0 <= i < |free| ==> free[i] < size)
    && (forall i, j :: 0 <= i < j < |free| ==> free[i] != free[j])
    && (forall r :: 0 <= r < size ==> r in free || Placed(requests, r))
  }

  ghost predicate Placed(requests: map<Id, RecordIndex>, r: RecordIndex) {
    exists id :: Under(requests, id, r)
  }

  ghost predicate Under(requests: map<Id, RecordIndex>, id: Id, r: RecordIndex) {
    id in requests && requests[id] == r
  }

  ghost predicate FreeLocked<V>(free: seq<RecordIndex>, records: seq<Record<V>>) {
    forall i :: 0 <= i < |free| && free[i] < |records| ==> records[free[i]].locked
  }

  /** The record of an outstanding request is unlocked just when the request has
      been served and its result not been picked up, and then holds the value served. */
  ghost predicate Flag<V>(r: Record<V>, n: Ticket, served: map<Ticket, V>, busy: set<Ticket>) {
    && (r.locked <==> n !in served || n in busy)
    && (!r.locked ==> r.result == Some(served[n]))
  }

  ghost predicate Flags<V>(requests: map<Id, RecordIndex>, records: seq<Record<V>>, owner: map<Id, Ticket>,
                           served: map<Ticket, V>, busy: set<Ticket>)
  {
    forall id :: id in requests && id in owner && requests[id] < |records| ==>
      Flag(records[requests[id]], owner[id], served, busy)
  }

  ghost predicate Outstanding<V>(p: Pool<V>, b: Book<V>, n: Ticket, rec: RecordIndex) {
    HasTicket(b, n) && b.futures[n] == Unresolved && Under(p.requests, b.issued[n], rec) && rec < |p.records|
  }

  ghost predicate WaiterOk<V>(p: Pool<V>, b: Book<V>, w: Waiter<V>) {
    match w
    case Idle => true
    case Found(n, rec) => Outstanding(p, b, n, rec)
    case Locked(n, rec) => Outstanding(p, b, n, rec) && n in b.served && p.records[rec].result == Some(b.served[n])
    case Read(n, rec, v) => Outstanding(p, b, n, rec) && n in b.served && v == b.served[n]
  }

  ghost predicate Promised<V>(p: Pool<V>, b: Book<V>, id: Id, rec: RecordIndex, v: V) {
    && Under(p.requests, id, rec) && rec < |p.records| && id in b.owner
    && b.owner[id] in b.served && b.served[b.owner[id]] == v
  }

  ghost predicate ServerOk<V>(p: Pool<V>, b: Book<V>, w: Server<V>) {
    match w
    case Waiting => true
    case Serving(id, rec, v) => Promised(p, b, id, rec, v)
    case Stored(id, rec, v) => Promised(p, b, id, rec, v) && p.records[rec].result == Some(v)
  }

  /** Changing the record, the served value or the busyness of one outstanding
      request does not touch the flags of the others. */
  lemma FlagsChange<V>(requests: map<Id, RecordIndex>, records: seq<Record<V>>, b: Book<V>, busy: set<Ticket>,
                       id: Id, r: Record<V>, served: map<Ticket, V>, busy': set<Ticket>)
    requires Books(b) && Flags(requests, records, b.owner, b.served, busy)
    requires forall i, j :: i in requests && j in requests && i != j ==> requests[i] != requests[j]
    requires id in requests && id in b.owner && requests[id] < |records|
    requires forall n :: n != b.owner[id] ==> (n in served <==> n in b.served) && (n in busy' <==> n in busy)
    requires forall n :: n != b.owner[id] && n in served ==> served[n] == b.served[n]
    requires Flag(r, b.owner[id], served, busy')
    ensures Flags(requests, records[requests[id] := r], b.owner, served, busy')
  {
    var after := records[requests[id] := r];
    forall i | i in requests && i in b.owner && requests[i] < |after|
      ensures Flag(after[requests[i]], b.owner[i], served, busy')
    {
      if i != id {
        assert b.owner[i] != b.owner[id];
        assert Flag(records[requests[i]], b.owner[i], b.served, busy);
      }
    }
  }

  lemma FreeLockedChange<V>(requests: map<Id, RecordIndex>, free: seq<RecordIndex>, records: seq<Record<V>>,
                            id: Id, r: Record<V>)
    requires Partition(requests, free, |records|) && FreeLocked(free, records) && id in requests
    ensures FreeLocked(free, records[requests[id] := r])
  {
    forall i | 0 <= i < |free| && free[i] < |records| ensures records[requests[id] := r][free[i]].locked {
      assert free[i] in free;
    }
  }

  /** Answering from a resolved object repeats the value served. */
  lemma AnswerKeepsInv<V>(s: State<V>, n: Ticket)
    requires Inv(s) && Enabled(s, WaitFind(n)) && s.book.futures[n].Done?
    ensures Inv(Step(s, WaitFind(n)))
  {
    var b, r := s.book, Step(s, WaitFind(n));
    assert Books(r.book) by {
      assert forall i :: 0 <= i < |b.returned| ==> r.book.returned[i] == b.returned[i];
    }
    assert r.waiter == s.waiter && r.server == s.server && r.pool == s.pool;
  }

  lemma FindKeepsInv<V>(s: State<V>, n: Ticket)
    requires Inv(s) && Enabled(s, WaitFind(n)) && !s.book.futures[n].Done?
    ensures Inv(Step(s, WaitFind(n)))
  {
    var r := Step(s, WaitFind(n));
    assert BusySet(r.book.owner, r.waiter, r.server) == BusySet(s.book.owner, s.waiter, s.server);
    assert r.book == s.book && r.pool == s.pool;
  }

  lemma PickUpKeepsInv<V>(s: State<V>, a: Action<V>)
    requires Inv(s) && Enabled(s, a) && (a.WaitTimeout? || a.WaitRead?)
    ensures Inv(Step(s, a))
  {
    var r := Step(s, a);
    assert BusySet(r.book.owner, r.waiter, r.server) == BusySet(s.book.owner, s.waiter, s.server);
  }

  lemma LockKeepsInv<V>(s: State<V>)
    requires Inv(s) && Enabled(s, WaitLock)
    ensures Inv(Step(s, WaitLock))
  {
    var p, b, n := s.pool, s.book, s.waiter.n;
    var id := b.issued[n];
    var record := p.records[s.waiter.rec];
    var busy := BusySet(b.owner, s.waiter, s.server);
    assert Flag(record, n, b.served, busy);
    FlagsChange(p.requests, p.records, b, busy, id, record.(locked := true), b.served, busy + {n});
    FreeLockedChange(p.requests, p.free, p.records, id, record.(locked := true));
    assert BusySet(b.owner, Locked(n, s.waiter.rec), s.server) == busy + {n};
  }

  /** Noting that serving has begun for a request not served before. */
  lemma ServeKeepsBooks<V>(b: Book<V>, n: Ticket, v: V)
    requires Books(b) && n !in b.served && n < |b.issued|
    ensures Books(b.(served := b.served[n := v]))
  {
  }

  lemma ServeFindKeepsInv<V>(s: State<V>, id: Id, v: V)
    requires Inv(s) && Enabled(s, ServeFind(id, v)) && Disciplined(s, ServeFind(id, v))
    ensures Inv(Step(s, ServeFind(id, v)))
  {
    var p, b := s.pool, s.book;
    if id in p.requests {
      var n, busy := b.owner[id], BusySet(b.owner, s.waiter, s.server);
      ServeKeepsBooks(b, n, v);
      ServeKeepsFlags(p, b, busy, id, v);
      assert BusySet(b.owner, s.waiter, Serving(id, p.requests[id], v)) == busy + {n};
    }
  }

  lemma ServeKeepsFlags<V>(p: Pool<V>, b: Book<V>, busy: set<Ticket>, id: Id, v: V)
    requires Books(b) && Partition(p.requests, p.free, |p.records|)
    requires Flags(p.requests, p.records, b.owner, b.served, busy)
    requires id in p.requests && id in b.owner && b.owner[id] !in b.served
    ensures Flags(p.requests, p.records, b.owner, b.served[b.owner[id] := v], busy + {b.owner[id]})
  {
    var n := b.owner[id];
    var record := p.records[p.requests[id]];
    assert Flag(record, n, b.served, busy);
    FlagsChange(p.requests, p.records, b, busy, id, record, b.served[n := v], busy + {n});
    assert p.records[p.requests[id] := record] == p.records;
  }

  lemma ServeStoreKeepsInv<V>(s: State<V>)
    requires Inv(s) && Enabled(s, ServeStore)
    ensures Inv(Step(s, ServeStore))
  {
    var p, b, id := s.pool, s.book, s.server.id;
    var record := p.records[s.server.rec];
    var busy := BusySet(b.owner, s.waiter, s.server);
    assert Flag(record, b.owner[id], b.served, busy);
    var record' := record.(result := Some(s.server.v));
    FlagsChange(p.requests, p.records, b, busy, id, record', b.served, busy);
    FreeLockedChange(p.requests, p.free, p.records, id, record');
    assert BusySet(b.owner, s.waiter, Stored(id, s.server.rec, s.server.v)) == busy;
  }

  lemma ServeUnlockKeepsInv<V>(s: State<V>)
    requires Inv(s) && Enabled(s, ServeUnlock)
    ensures Inv(Step(s, ServeUnlock))
  {
    var p, b, id := s.pool, s.book, s.server.id;
    var n := b.owner[id];
    var busy := BusySet(b.owner, s.waiter, s.server);
    var record' := p.records[s.server.rec].(locked := false);
    FlagsChange(p.requests, p.records, b, busy, id, record', b.served, busy - {n});
    FreeLockedChange(p.requests, p.free, p.records, id, record');
    assert BusySet(b.owner, s.waiter, Server<V>.Waiting) == busy - {n};
  }

  /** A new registration gets an identifier that is not outstanding. */
  lemma NewIdIsFree<V>(s: State<V>)
    requires Inv(s) && Disciplined(s, Register)
    ensures NextId(s.pool.requestID) == IdOf(|s.book.issued|) && NextId(s.pool.requestID) !in s.pool.requests
  {
    NextIdOf(|s.book.issued|);
    forall i | i in s.book.owner ensures i != IdOf(|s.book.issued|) {
      IdsDistinct(s.book.owner[i], |s.book.issued|);
    }
  }

  lemma RegisteredPartition<V>(p: Pool<V>)
    requires Partition(p.requests, p.free, |p.records|) && NextId(p.requestID) !in p.requests
    ensures var q := Registered(p); Partition(q.requests, q.free, |q.records|)
  {
    if p.free == [] {
      GrowPartition(p.requests, |p.records|, NextId(p.requestID));
    } else {
      RecyclePartition(p.requests, p.free, |p.records|, NextId(p.requestID));
    }
  }

  lemma GrowPartition(requests: map<Id, RecordIndex>, size: nat, id: Id)
    requires Partition(requests, [], size) && id !in requests
    ensures Partition(requests[id := size], [], size + 1)
  {
    var q := requests[id := size];
    forall k | 0 <= k < size + 1 ensures Placed(q, k) {
      if k == size {
        assert Under(q, id, k);
      } else {
        assert Placed(requests, k);
        var i :| Under(requests, i, k);
        assert Under(q, i, k);
      }
    }
  }

  lemma RecyclePartition(requests: map<Id, RecordIndex>, free: seq<RecordIndex>, size: nat, id: Id)
    requires Partition(requests, free, size) && free != [] && id !in requests
    ensures Partition(requests[id := free[0]], free[1..], size)
  {
    var q := requests[id := free[0]];
    assert forall i :: i in free <==> i == free[0] || i in free[1..];
    assert free[0] !in free[1..];
    forall k | 0 <= k < size ensures k in free[1..] || Placed(q, k) {
      if k == free[0] {
        assert Under(q, id, k);
      } else if k !in free {
        var i :| Under(requests, i, k);
        assert Under(q, i, k);
      }
    }
  }

  lemma ReleasedPartition<V>(p: Pool<V>, id: Id)
    requires Partition(p.requests, p.free, |p.records|)
    ensures var q := Released(p, id); Partition(q.requests, q.free, |q.records|)
  {
    if id in p.requests {
      var q := Released(p, id);
      forall k | 0 <= k < |q.records| ensures k in q.free || Placed(q.requests, k) {
        assert q.free[0] == p.requests[id];
        if k !in q.free {
          assert k !in p.free;
          var i :| Under(p.requests, i, k);
          assert Under(q.requests, i, k);
        }
      }
    }
  }

  lemma RegisterKeepsBooks<V>(s: State<V>)
    requires Inv(s) && Enabled(s, Register) && Disciplined(s, Register)
    ensures var r := Step(s, Register); Books(r.book) && Numbered(r.pool.requestID, r.book)
  {
    NewIdIsFree(s);
    var b, id := s.book, NextId(s.pool.requestID);
    var r := Step(s, Register);
    assert forall n :: 0 <= n < |b.issued| ==> r.book.issued[n] == b.issued[n] && r.book.futures[n] == b.futures[n];
    forall n | 0 <= n < |r.book.futures| && r.book.futures[n] == Unresolved
      ensures r.book.issued[n] in r.book.owner && r.book.owner[r.book.issued[n]] == n
    {
      assert n < |b.issued| ==> b.issued[n] in b.owner;
    }
  }

  lemma RegisterKeepsFlags<V>(s: State<V>)
    requires Inv(s) && Enabled(s, Register) && NextId(s.pool.requestID) !in s.pool.requests
    ensures var r := Step(s, Register);
            && FreeLocked(r.pool.free, r.pool.records)
            && BusySet(r.book.owner, r.waiter, r.server) == BusySet(s.book.owner, s.waiter, s.server)
            && Flags(r.pool.requests, r.pool.records, r.book.owner, r.book.served,
                     BusySet(s.book.owner, s.waiter, s.server))
  {
    var r, id := Step(s, Register), NextId(s.pool.requestID);
    var p, b, busy := s.pool, s.book, BusySet(s.book.owner, s.waiter, s.server);
    assert |b.issued| !in busy && |b.issued| !in b.served;
    forall i | i in r.pool.requests && i in r.book.owner && r.pool.requests[i] < |r.pool.records|
      ensures Flag(r.pool.records[r.pool.requests[i]], r.book.owner[i], b.served, busy)
    {
      if i != id {
        assert Flag(p.records[p.requests[i]], b.owner[i], b.served, busy);
      }
    }
    assert forall i :: 0 <= i < |r.pool.free| ==> r.pool.free[i] == p.free[i + 1];
  }

  lemma RegisterKeepsInv<V>(s: State<V>)
    requires Inv(s) && Enabled(s, Register) && Disciplined(s, Register)
    ensures Inv(Step(s, Register))
  {
    NewIdIsFree(s);
    RegisterKeepsBooks(s);
    RegisteredPartition(s.pool);
    RegisterKeepsFlags(s);
  }

  /** Ticket `n` leaves the map for good, with its object in state `f`. */
  lemma CloseKeepsBooks<V>(b: Book<V>, n: Ticket, f: Future<V>, returned: seq<(Ticket, V)>)
    requires Books(b) && HasTicket(b, n) && b.futures[n] == Unresolved
    requires f == Unregistered || (f.Done? && n in b.served && f.value == b.served[n])
    requires returned == b.returned || (f.Done? && returned == b.returned + [(n, f.value)])
    ensures Books(b.(owner := b.owner - {b.issued[n]}, futures := b.futures[n := f], returned := returned))
  {
    var c := b.(owner := b.owner - {b.issued[n]}, futures := b.futures[n := f], returned := returned);
    forall m | 0 <= m < |c.futures| && c.futures[m] == Unresolved
      ensures c.issued[m] in c.owner && c.owner[c.issued[m]] == m
    {
      assert b.owner[b.issued[m]] == m && b.owner[b.issued[n]] == n;
    }
  }

  lemma CloseKeepsFlags<V>(p: Pool<V>, b: Book<V>, busy: set<Ticket>, n: Ticket)
    requires Books(b) && HasTicket(b, n) && b.futures[n] == Unresolved
    requires Partition(p.requests, p.free, |p.records|) && FreeLocked(p.free, p.records)
    requires Flags(p.requests, p.records, b.owner, b.served, busy) && b.owner.Keys == p.requests.Keys
    ensures var q, owner := Released(p, b.issued[n]), b.owner - {b.issued[n]};
            && owner.Keys == q.requests.Keys
            && Flags(q.requests, q.records, owner, b.served, busy - {n})
            && (FreeLocked(q.free, q.records) <==> n !in b.served || n in busy)
  {
    var id := b.issued[n];
    var q, owner := Released(p, id), b.owner - {id};
    assert b.owner[id] == n;
    assert Flag(p.records[p.requests[id]], n, b.served, busy);
    forall i | i in q.requests && i in owner && q.requests[i] < |q.records|
      ensures Flag(q.records[q.requests[i]], owner[i], b.served, busy - {n})
    {
      assert Flag(p.records[p.requests[i]], b.owner[i], b.served, busy);
      assert owner[i] != n;
    }
    assert q.free[0] == p.requests[id];
    assert forall i :: 0 < i < |q.free| ==> q.free[i] == p.free[i - 1];
  }

  lemma CloseKeepsServer<V>(p: Pool<V>, b: Book<V>, server: Server<V>, id: Id, c: Book<V>)
    requires ServerOk(p, b, server) && (server != Waiting ==> server.id != id)
    requires c.owner == b.owner - {id} && c.served == b.served
    ensures ServerOk(Released(p, id), c, server)
    ensures server != Waiting ==> server.id in c.owner && c.owner[server.id] == b.owner[server.id]
  {
  }

  lemma CloseBusy<V>(owner: map<Id, Ticket>, waiter: Waiter<V>, server: Server<V>, n: Ticket, id: Id)
    requires server != Waiting ==> server.id in owner && server.id != id && owner[server.id] != n
    requires waiter == Idle || waiter.n == n
    ensures BusySet(owner - {id}, Waiter<V>.Idle, server) == BusySet(owner, waiter, server) - {n}
  {
  }

  /** A request that the server is not working on leaves the map. */
  lemma CloseKeepsInv<V>(s: State<V>, n: Ticket, f: Future<V>, r: State<V>)
    requires Inv(s) && HasTicket(s.book, n) && s.book.futures[n] == Unresolved
    requires s.server != Waiting ==> s.server.id != s.book.issued[n]
    requires n !in s.book.served || n in BusySet(s.book.owner, s.waiter, s.server)
    requires s.waiter == Idle || s.waiter.n == n
    requires r == State(Released(s.pool, s.book.issued[n]), r.book, Idle, s.server)
    requires r.book == s.book.(owner := s.book.owner - {s.book.issued[n]}, futures := s.book.futures[n := f],
                               returned := r.book.returned)
    requires Books(r.book)
    ensures Inv(r)
  {
    var b, id := s.book, s.book.issued[n];
    var busy := BusySet(b.owner, s.waiter, s.server);
    CloseKeepsFlags(s.pool, b, busy, n);
    ReleasedPartition(s.pool, id);
    CloseKeepsServer(s.pool, b, s.server, id, r.book);
    CloseBusy(b.owner, s.waiter, s.server, n, id);
  }

  lemma WaitUnregisterKeepsInv<V>(s: State<V>)
    requires Inv(s) && Enabled(s, WaitUnregister)
    ensures Inv(Step(s, WaitUnregister))
  {
    var n, v, r := s.waiter.n, s.waiter.v, Step(s, WaitUnregister);
    assert s.book.owner[s.book.issued[n]] == n;
    CloseKeepsBooks(s.book, n, Done(v), r.book.returned);
    CloseKeepsInv(s, n, Done(v), r);
  }

  lemma UnregisterKeepsInv<V>(s: State<V>, n: Ticket)
    requires Inv(s) && Enabled(s, Unregister(n)) && s.book.futures[n] == Unresolved && n !in s.book.served
    ensures Inv(Step(s, Unregister(n)))
  {
    var r := Step(s, Unregister(n));
    assert s.book.owner[s.book.issued[n]] == n;
    CloseKeepsBooks(s.book, n, Unregistered, s.book.returned);
    CloseKeepsInv(s, n, Unregistered, r);
  }

  lemma StepKeepsInv<V>(s: State<V>, a: Action<V>)
    requires Inv(s) && Enabled(s, a) && Disciplined(s, a)
    ensures Inv(Step(s, a))
  {
    match a
    case Register => RegisterKeepsInv(s);
    case WaitFind(n) => if s.book.futures[n].Done? { AnswerKeepsInv(s, n); } else { FindKeepsInv(s, n); }
    case WaitLock => LockKeepsInv(s);
    case WaitTimeout => PickUpKeepsInv(s, a);
    case WaitRead => PickUpKeepsInv(s, a);
    case WaitUnregister => WaitUnregisterKeepsInv(s);
    case Unregister(n) => if s.book.futures[n] == Unresolved { UnregisterKeepsInv(s, n); }
    case ServeFind(id, v) => ServeFindKeepsInv(s, id, v);
    case ServeStore => ServeStoreKeepsInv(s);
    case ServeUnlock => ServeUnlockKeepsInv(s);
  }

  ghost predicate Run<V(!new)>(states: seq<State<V>>, actions: seq<Action<V>>) {
    && |states| == |actions| + 1 && Init(states[0])
    && forall i :: 0 <= i < |actions| ==>
         Enabled(states[i], actions[i]) && states[i + 1] == Step(states[i], actions[i])
  }

  ghost predicate DisciplinedRun<V(!new)>(states: seq<State<V>>, actions: seq<Action<V>>) {
    Run(states, actions) && forall i :: 0 <= i < |actions| ==> Disciplined(states[i], actions[i])
  }

  lemma {:induction false} RunKeepsInv<V(!new)>(states: seq<State<V>>, actions: seq<Action<V>>, i: nat)
    requires DisciplinedRun(states, actions) && i < |states|
    ensures Inv(states[i])
  {
    if i > 0 {
      RunKeepsInv(states, actions, i - 1);
      StepKeepsInv(states[i - 1], actions[i - 1]);
    }
  }

  /** What was served was served by a call that named the request, while it was
      outstanding. */
  lemma {:induction false} ServedByCall<V(!new)>(states: seq<State<V>>, actions: seq<Action<V>>, i: nat, n: Ticket)
    returns (k: nat)
    requires DisciplinedRun(states, actions) && i < |states| && n in states[i].book.served
    ensures k < i && actions[k] == ServeFind(IdOf(n), states[i].book.served[n])
    ensures HasTicket(states[k].book, n) && states[k].book.futures[n] == Unresolved
  {
    if n in states[i - 1].book.served {
      k := ServedByCall(states, actions, i - 1, n);
      ServedOnce(states, actions, i - 1, i, n);
    } else {
      k := i - 1;
      FirstServed(states, actions, k, n);
    }
  }

  lemma FirstServed<V(!new)>(states: seq<State<V>>, actions: seq<Action<V>>, k: nat, n: Ticket)
    requires DisciplinedRun(states, actions) && k < |actions|
    requires n !in states[k].book.served && n in states[k + 1].book.served
    ensures actions[k] == ServeFind(IdOf(n), states[k + 1].book.served[n])
    ensures HasTicket(states[k].book, n) && states[k].book.futures[n] == Unresolved
  {
    RunKeepsInv(states, actions, k);
    NewlyServed(states[k], actions[k], n);
  }

  lemma NewlyServed<V>(s: State<V>, a: Action<V>, n: Ticket)
    requires Inv(s) && Enabled(s, a) && n !in s.book.served && n in Step(s, a).book.served
    ensures a == ServeFind(IdOf(n), Step(s, a).book.served[n])
    ensures HasTicket(s.book, n) && s.book.futures[n] == Unresolved
  {
  }

  /** Every wait() that returns, the first for a request or a later one, returns
      exactly the value of a call of serveRequest that named this request while it
      was outstanding. */
  lemma WaitReturnsWhatWasServed<V(!new)>(states: seq<State<V>>, actions: seq<Action<V>>, i: nat, m: nat)
    returns (k: nat)
    requires DisciplinedRun(states, actions) && i < |states| && m < |states[i].book.returned|
    ensures var (n, v) := states[i].book.returned[m];
            && k < i && actions[k] == ServeFind(IdOf(n), v)
            && HasTicket(states[k].book, n) && states[k].book.futures[n] == Unresolved
  {
    RunKeepsInv(states, actions, i);
    k := ServedByCall(states, actions, i, states[i].book.returned[m].0);
  }

  /** What a request was served with never changes. */
  lemma {:induction false} ServedOnce<V(!new)>(states: seq<State<V>>, actions: seq<Action<V>>,
                                               i: nat, j: nat, n: Ticket)
    requires DisciplinedRun(states, actions) && i <= j < |states| && n in states[i].book.served
    ensures n in states[j].book.served && states[j].book.served[n] == states[i].book.served[n]
  {
    if i < j {
      ServedOnce(states, actions, i, j - 1, n);
      ServedStays(states[j - 1], actions[j - 1], n);
    }
  }

  lemma ServedStays<V>(s: State<V>, a: Action<V>, n: Ticket)
    requires Enabled(s, a) && Disciplined(s, a) && n in s.book.served
    ensures n in Step(s, a).book.served && Step(s, a).book.served[n] == s.book.served[n]
  {
  }

  /** The pool is sound in every state: each record is under one identifier or
      once in the free list, free records are locked, and the identifiers handed
      out follow the registration count modulo LB_MAX_UINT32. */
  lemma RecordsAreConserved<V(!new)>(states: seq<State<V>>, actions: seq<Action<V>>, i: nat)
    requires DisciplinedRun(states, actions) && i < |states|
    ensures var p := states[i].pool;
            && (forall r :: 0 <= r < |p.records| ==> (r in p.free <==> !Placed(p.requests, r)))
            && (forall a, b :: 0 <= a < b < |p.free| ==> p.free[a] != p.free[b])
            && (forall a, b :: a in p.requests && b in p.requests && a != b ==> p.requests[a] != p.requests[b])
            && (forall a :: 0 <= a < |p.free| ==> p.free[a] < |p.records| && p.records[p.free[a]].locked)
    ensures forall n :: 0 <= n < |states[i].book.issued| ==> states[i].book.issued[n] == IdOf(n)
  {
    RunKeepsInv(states, actions, i);
  }

  /** isReady is exact: while the waiting thread is idle, the record of an
      unresolved request can be locked just when the request has been served to the end. */
  lemma ReadyMeansServed<V(!new)>(states: seq<State<V>>, actions: seq<Action<V>>, i: nat, n: Ticket)
    requires DisciplinedRun(states, actions) && i < |states| && states[i].waiter == Idle
    requires HasTicket(states[i].book, n) && states[i].book.futures[n] == Unresolved
    ensures var s := states[i];
            && s.book.issued[n] in s.pool.requests && s.pool.requests[s.book.issued[n]] < |s.pool.records|
            && (!s.pool.records[s.pool.requests[s.book.issued[n]]].locked <==>
                n in s.book.served && !(s.server != Waiting && s.server.id == s.book.issued[n]))
  {
    var s := states[i];
    RunKeepsInv(states, actions, i);
    var id := s.book.issued[n];
    assert s.book.owner[id] == n;
    assert Flag(s.pool.records[s.pool.requests[id]], n, s.book.served, BusySet(s.book.owner, s.waiter, s.server));
  }

  /** A waiter that has got the lock finds a result to read, and then its request
      still registered. */
  lemma PickUpIsPossible<V>(s: State<V>)
    requires Inv(s)
    ensures s.waiter.Locked? ==> Enabled(s, WaitRead)
    ensures s.waiter.Read? ==> Enabled(s, WaitUnregister) && s.book.issued[s.waiter.n] in s.pool.requests
  {
  }

  /** `s`, led by `actions`, becomes `r`. */
  ghost predicate Leads<V(!new)>(s: State<V>, actions: seq<Action<V>>, r: State<V>)
    decreases |actions|
  {
    if actions == [] then r == s else Enabled(s, actions[0]) && Leads(Step(s, actions[0]), actions[1..], r)
  }

  /** The users keep to the discipline all along. */
  ghost predicate Proper<V(!new)>(s: State<V>, actions: seq<Action<V>>)
    decreases |actions|
  {
    actions != [] ==>
      Enabled(s, actions[0]) && Disciplined(s, actions[0]) && Proper(Step(s, actions[0]), actions[1..])
  }

  /** Some wait has returned a value for a request that nobody served. */
  ghost predicate Misled<V>(s: State<V>) {
    exists k :: 0 <= k < |s.book.returned| && s.book.returned[k].0 !in s.book.served
  }

  ghost predicate CanMislead<V(!new)>(s: State<V>) {
    exists actions, r :: Proper(s, actions) && Leads(s, actions, r) && Misled(r)
  }

  lemma {:induction false} ProperKeepsInv<V(!new)>(s: State<V>, actions: seq<Action<V>>, r: State<V>)
    requires Inv(s) && Proper(s, actions) && Leads(s, actions, r)
    ensures Inv(r)
    decreases |actions|
  {
    if actions != [] {
      StepKeepsInv(s, actions[0]);
      ProperKeepsInv(Step(s, actions[0]), actions[1..], r);
    }
  }

  lemma FirstStep<V(!new)>(s: State<V>, a: Action<V>, actions: seq<Action<V>>, r: State<V>)
    requires Enabled(s, a) && Leads(Step(s, a), actions, r)
    ensures Leads(s, [a] + actions, r)
    ensures Disciplined(s, a) && Proper(Step(s, a), actions) ==> Proper(s, [a] + actions)
  {
    assert ([a] + actions)[1..] == actions;
  }

  /** Ticket `n` can be waited for at once, whoever served its record. */
  ghost predicate Open<V>(s: State<V>, n: Ticket, rec: RecordIndex) {
    && s.waiter == Idle && Outstanding(s.pool, s.book, n, rec)
    && !s.pool.records[rec].locked && s.pool.records[rec].result.Some?
  }

  lemma OpenReturns<V(!new)>(s: State<V>, n: Ticket, rec: RecordIndex) returns (actions: seq<Action<V>>, r: State<V>)
    requires Open(s, n, rec)
    ensures Proper(s, actions) && Leads(s, actions, r)
    ensures r.book.served == s.book.served
    ensures r.book.returned == s.book.returned + [(n, s.pool.records[rec].result.value)]
  {
    var s1 := Step(s, WaitFind(n));
    var s2 := Step(s1, WaitLock);
    var s3 := Step(s2, WaitRead);
    r := Step(s3, WaitUnregister);
    actions := [];
    FirstStep(s3, WaitUnregister, actions, r);
    FirstStep(s2, WaitRead, [WaitUnregister] + actions, r);
    FirstStep(s1, WaitLock, [WaitRead] + ([WaitUnregister] + actions), r);
    FirstStep(s, WaitFind(n), [WaitLock] + ([WaitRead] + ([WaitUnregister] + actions)), r);
    actions := [WaitFind(n)] + ([WaitLock] + ([WaitRead] + ([WaitUnregister] + actions)));
  }

  /** The front record of the free list is unlocked. */
  ghost predicate Loose<V>(s: State<V>) {
    && s.waiter == Idle && |s.book.futures| == |s.book.issued| && |s.book.issued| !in s.book.served
    && s.pool.free != [] && s.pool.free[0] < |s.pool.records|
    && !s.pool.records[s.pool.free[0]].locked && s.pool.records[s.pool.free[0]].result.Some?
  }

  /** A loose record goes to the next registration, whose wait returns what it holds. */
  lemma LooseMisleads<V(!new)>(s: State<V>) returns (actions: seq<Action<V>>, r: State<V>)
    requires Loose(s)
    ensures Leads(s, actions, r) && Misled(r)
    ensures Disciplined(s, Register) ==> Proper(s, actions)
  {
    var n, rec := |s.book.issued|, s.pool.free[0];
    var t := Step(s, Register);
    assert Open(t, n, rec);
    actions, r := OpenReturns(t, n, rec);
    FirstStep(s, Register, actions, r);
    actions := [Register] + actions;
    assert r.book.returned[|s.book.returned|].0 == n;
  }

  /** Once a request whose serving has begun was unregistered, its record becomes loose. */
  lemma UnregisterLoosens<V(!new)>(s: State<V>, n: Ticket) returns (actions: seq<Action<V>>, r: State<V>)
    requires Inv(s) && Enabled(s, Unregister(n)) && s.book.futures[n] == Unresolved && n in s.book.served
    ensures var t := Step(s, Unregister(n));
            && Leads(t, actions, r) && Proper(t, actions) && Loose(r)
            && (Disciplined(t, Register) ==> Disciplined(r, Register))
  {
    var p, b, id := s.pool, s.book, s.book.issued[n];
    var t := Step(s, Unregister(n));
    assert b.owner[id] == n;
    assert Flag(p.records[p.requests[id]], n, b.served, BusySet(b.owner, s.waiter, s.server));
    actions, r := [], t;
    if s.server != Waiting && s.server.id == id {
      var u := if s.server.Serving? then Step(t, ServeStore) else t;
      r := Step(u, ServeUnlock);
      FirstStep(u, ServeUnlock, actions, r);
      actions := [ServeUnlock] + actions;
      if s.server.Serving? {
        FirstStep(t, ServeStore, actions, r);
        actions := [ServeStore] + actions;
      }
    }
  }

  lemma {:induction false} LeadsOn<V(!new)>(s: State<V>, first: seq<Action<V>>, t: State<V>,
                                            second: seq<Action<V>>, r: State<V>)
    requires Leads(s, first, t) && Leads(t, second, r)
    ensures Leads(s, first + second, r)
    ensures Proper(s, first) && Proper(t, second) ==> Proper(s, first + second)
    decreases |first|
  {
    if first == [] {
      assert first + second == second;
    } else {
      LeadsOn(Step(s, first[0]), first[1..], t, second, r);
      assert (first + second)[1..] == first[1..] + second;
    }
  }

  /** Whatever the state: once a request is unregistered whose serving has begun, be
      it still under way or complete, there is a continuation in which a wait
      returns for a request that nobody served. */
  lemma UnregisterServedMisleads<V(!new)>(s: State<V>, n: Ticket) returns (actions: seq<Action<V>>, r: State<V>)
    requires Inv(s) && Enabled(s, Unregister(n)) && s.book.futures[n] == Unresolved && n in s.book.served
    ensures var t := Step(s, Unregister(n));
            Leads(t, actions, r) && Misled(r) && (Disciplined(t, Register) ==> Proper(t, actions))
  {
    var t := Step(s, Unregister(n));
    var first, u := UnregisterLoosens(s, n);
    var second;
    second, r := LooseMisleads(u);
    LeadsOn(t, first, u, second, r);
    actions := first + second;
  }

  /** Unregistering is safe just when the serving of the request has not begun. It
      then keeps the handler sound; otherwise users who keep to the discipline from
      there on can be misled, as soon as they may register another request. */
  lemma UnregisterIsSafeIff<V(!new)>(s: State<V>, n: Ticket)
    requires Inv(s) && Enabled(s, Unregister(n)) && s.book.futures[n] == Unresolved
    ensures var t := Step(s, Unregister(n));
            && (n !in s.book.served ==> Inv(t) && !CanMislead(t))
            && (Disciplined(t, Register) ==> (CanMislead(t) <==> n in s.book.served))
  {
    var t := Step(s, Unregister(n));
    if n !in s.book.served {
      UnregisterKeepsInv(s, n);
      forall actions, r | Proper(t, actions) && Leads(t, actions, r) ensures !Misled(r) {
        ProperKeepsInv(t, actions, r);
      }
    } else {
      var actions, r := UnregisterServedMisleads(s, n);
    }
  }

  ghost function Stale(): State<int> {
    State(Pool(2, map[], [0], [Record(false, Some(9))]),
          Book([2], [Unregistered], map[], map[0 := 9], []), Idle, Waiting)
  }

  lemma ServeThenUnregister(s: State<int>)
    requires Init(s)
    ensures Leads(s, [Register, ServeFind(2, 9), ServeStore, ServeUnlock, Unregister(0)], Stale())
  {
    var s1 := Step(s, Register);
    var s2 := Step(s1, ServeFind(2, 9));
    var s3 := Step(s2, ServeStore);
    var s4 := Step(s3, ServeUnlock);
    assert s4.pool == Pool(2, map[2 := 0], [], [Record(false, Some(9))]);
    assert s4.book == Book([2], [Unresolved], map[2 := 0], map[0 := 9], []);
    var s5 := Step(s4, Unregister(0));
    assert s5 == Stale();
    var all: seq<Action<int>> := [Register, ServeFind(2, 9), ServeStore, ServeUnlock, Unregister(0)];
    assert all[4..][1..] == [] && all[3..][1..] == all[4..] && all[2..][1..] == all[3..] && all[1..][1..] == all[2..];
    assert Leads(s4, all[4..], Stale()) && Leads(s3, all[3..], Stale());
    assert Leads(s2, all[2..], Stale()) && Leads(s1, all[1..], Stale());
  }

  /** Why the discipline is needed. A request is served, then unregistered without
      being waited for: its record goes back unlocked, and the wait for the next
      request returns at once, with a value nobody served it with. */
  lemma UnregisterAfterServeGoesWrong(s: State<int>) returns (r: State<int>)
    requires Init(s)
    ensures Leads(s, [Register, ServeFind(2, 9), ServeStore, ServeUnlock, Unregister(0)], Stale())
    ensures Leads(Stale(), [Register, WaitFind(1), WaitLock, WaitRead, WaitUnregister], r)
    ensures r.book.returned == [(1, 9)] && 1 !in r.book.served
  {
    ServeThenUnregister(s);
    var s6 := Step(Stale(), Register);
    assert s6.pool == Pool(3, map[3 := 0], [], [Record(false, Some(9))]);
    assert s6.book == Book([2, 3], [Unregistered, Unresolved], map[3 := 1], map[0 := 9], []);
    var s7 := Step(s6, WaitFind(1));
    var s8 := Step(s7, WaitLock);
    var s9 := Step(s8, WaitRead);
    r := Step(s9, WaitUnregister);
    var all: seq<Action<int>> := [Register, WaitFind(1), WaitLock, WaitRead, WaitUnregister];
    assert all[4..][1..] == [] && all[3..][1..] == all[4..] && all[2..][1..] == all[3..] && all[1..][1..] == all[2..];
    assert Leads(s9, all[4..], r) && Leads(s8, all[3..], r);
    assert Leads(s7, all[2..], r) && Leads(s6, all[1..], r);
  }
}
