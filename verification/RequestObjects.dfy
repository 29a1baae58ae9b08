/** The objects lunchbox::RequestHandler and lunchbox::Request, used by one caller
    at a time. A handler is a map from identifiers to records, whatever it does
    with the records underneath; a request asks it once and remembers. */
module RequestObjects {
  import opened Common
  import opened RequestHandler

  /** An unlocked record under an identifier has its result. */
  ghost predicate Filled<V>(requests: map<Id, RecordIndex>, records: seq<Record<V>>) {
    forall id :: id in requests && requests[id] < |records| ==>
      records[requests[id]].locked || records[requests[id]].result.Some?
  }

  ghost predicate Sound<V>(p: Pool<V>) {
    && p.requestID < MAX_UINT32
    && Partition(p.requests, p.free, |p.records|) && FreeLocked(p.free, p.records) && Filled(p.requests, p.records)
  }

  /** What the pool knows under an identifier. */
  function Lookup<V>(p: Pool<V>, id: Id): Option<Record<V>> {
    if id in p.requests && p.requests[id] < |p.records| then Some(p.records[p.requests[id]]) else None
  }

  ghost predicate SameElsewhere<V>(p: Pool<V>, q: Pool<V>, id: Id) {
    forall i :: i != id ==> Lookup(p, i) == Lookup(q, i)
  }

  predicate IsServed<V>(r: Option<Record<V>>) {
    r.Some? && !r.value.locked
  }

  lemma RegisteredElsewhere<V>(p: Pool<V>)
    requires Sound(p)
    ensures var id, q := NextId(p.requestID), Registered(p);
            SameElsewhere(p, q, id) && Lookup(q, id).Some? && Lookup(q, id).value.locked
  {
  }

  lemma RegisteredLoses<V>(p: Pool<V>)
    requires Sound(p) && NextId(p.requestID) in p.requests
    ensures !Sound(Registered(p))
  {
    var id, q := NextId(p.requestID), Registered(p);
    var lost := p.requests[id];
    forall i ensures !Under(q.requests, i, lost) {
    }
    assert lost !in q.free && lost < |q.records| && !Placed(q.requests, lost);
  }

  lemma RegisteredSound<V>(p: Pool<V>)
    requires Sound(p) && NextId(p.requestID) !in p.requests
    ensures Sound(Registered(p))
  {
    var id, q := NextId(p.requestID), Registered(p);
    RegisteredPartition(p);
    assert forall i :: 0 <= i < |q.free| ==> q.free[i] == p.free[i + 1];
    forall i | i in q.requests && q.requests[i] < |q.records|
      ensures q.records[q.requests[i]].locked || q.records[q.requests[i]].result.Some?
    {
      assert i != id ==> q.requests[i] == p.requests[i];
    }
  }

  /** Registering loses a record just when it reuses an identifier still outstanding. */
  lemma RegisteredSoundIff<V>(p: Pool<V>)
    requires Sound(p)
    ensures Sound(Registered(p)) <==> Lookup(p, NextId(p.requestID)).None?
  {
    if NextId(p.requestID) in p.requests {
      RegisteredLoses(p);
    } else {
      RegisteredSound(p);
    }
  }

  /** Releasing leaves an unlocked record in the free list just when it was served. */
  lemma ReleasedSoundIff<V>(p: Pool<V>, id: Id)
    requires Sound(p)
    ensures var q := Released(p, id);
            && SameElsewhere(p, q, id) && Lookup(q, id).None?
            && (Sound(q) <==> !IsServed(Lookup(p, id)))
  {
    var q := Released(p, id);
    ReleasedPartition(p, id);
    if id in p.requests {
      assert q.free[0] == p.requests[id];
      assert forall i :: 0 < i < |q.free| ==> q.free[i] == p.free[i - 1];
    }
  }

  /** Changing the record under one identifier changes it under no other. */
  lemma SetRecordSound<V>(p: Pool<V>, id: Id, r: Record<V>)
    requires Sound(p) && id in p.requests && (r.locked || r.result.Some?)
    ensures p.requests[id] < |p.records|
    ensures var q := SetRecord(p, p.requests[id], r);
            Sound(q) && SameElsewhere(p, q, id) && Lookup(q, id) == Some(r)
  {
    FreeLockedChange(p.requests, p.free, p.records, id, r);
  }

  class Handler<V(==)> {
    var requestID: Id
    var requests: map<Id, RecordIndex>
    var freeRecords: seq<RecordIndex>
    /** All records ever allocated; a record is named by its place. */
    var records: seq<Record<V>>

    function View(): Pool<V> reads this {
      Pool(requestID, requests, freeRecords, records)
    }

    ghost predicate Valid() reads this {
      Sound(View())
    }

    /** What a caller can find out about an identifier. */
    function Known(id: Id): Option<Record<V>> reads this {
      Lookup(View(), id)
    }

    constructor ()
      ensures Valid() && View() == Pool(1, map[], [], [])
    {
      requestID, requests, freeRecords, records := 1, map[], [], [];
    }

    /** registerRequest: a new request is not served, whatever became of its record
        before, and no other request is touched. */
    method RegisterRequest() returns (id: Id)
      requires Valid()
      modifies this
      ensures id == NextId(old(requestID)) == requestID && Known(id).Some? && !IsServed(Known(id))
      ensures SameElsewhere(old(View()), View(), id)
      ensures Valid() <==> old(Known(NextId(requestID))).None?
      ensures View() == Registered(old(View()))
    {
      RegisteredSoundIff(View());
      RegisteredElsewhere(View());
      var request: RecordIndex;
      if freeRecords == [] {
        request := |records|;
        records := records + [Record(true, None)];
      } else {
        request := freeRecords[0];
        freeRecords := freeRecords[1..];
      }
      requestID := (requestID + 1) % MAX_UINT32;
      requests := requests[requestID := request];
      id := requestID;
    }

    /** unregisterRequest: sound just when the request has not been served. */
    method UnregisterRequest(id: Id)
      requires Valid()
      modifies this
      ensures Known(id).None? && SameElsewhere(old(View()), View(), id)
      ensures Valid() <==> !IsServed(old(Known(id)))
      ensures View() == Released(old(View()), id)
    {
      ReleasedSoundIff(View(), id);
      if id !in requests {
        return;
      }
      var request := requests[id];
      requests := requests - {id};
      freeRecords := [request] + freeRecords;
    }

    /** serveRequest: an identifier that is not registered is ignored. The record's
        mutex may be unlocked only once. */
    method ServeRequest(id: Id, result: V)
      requires Valid() && !IsServed(Known(id))
      modifies this`records
      ensures Valid() && SameElsewhere(old(View()), View(), id)
      ensures Known(id) == if old(Known(id)).None? then None else Some(Record(false, Some(result)))
      ensures View() == if id in requests then SetRecord(old(View()), requests[id], Record(false, Some(result)))
                        else old(View())
    {
      if id !in requests {
        return;
      }
      var request := requests[id];
      SetRecordSound(View(), id, Record(false, Some(result)));
      records := records[request := records[request].(result := Some(result))];
      records := records[request := records[request].(locked := false)];
    }

    /** waitRequest: the result of a served request, which is then forgotten; None
        stands for the false of an unknown identifier or a timeout. */
    method WaitRequest(id: Id) returns (result: Option<V>)
      requires Valid()
      modifies this
      ensures Valid() && SameElsewhere(old(View()), View(), id) && requestID == old(requestID)
      ensures if IsServed(old(Known(id)))
              then result == old(Known(id)).value.result && result.Some? && Known(id).None? &&
                   freeRecords == [old(requests)[id]] + old(freeRecords) && id in old(requests) &&
                   View() == Released(SetRecord(old(View()), old(requests)[id], Record(true, result)), id)
              else result == None && View() == old(View())
    {
      if id !in requests {
        return None;
      }
      var request := requests[id];
      if records[request].locked {
        return None;
      }
      SetRecordSound(View(), id, records[request].(locked := true));
      records := records[request := records[request].(locked := true)];
      result := records[request].result;
      UnregisterRequest(id);
    }

    /** isRequestReady: try the record's lock and give it back. */
    method IsRequestReady(id: Id) returns (isReady: bool)
      requires Valid()
      modifies this
      ensures Valid() && View() == old(View())
      ensures isReady <==> IsServed(Known(id))
    {
      if id !in requests {
        return false;
      }
      var request := requests[id];
      isReady := !records[request].locked;
      if isReady {
        records := records[request := records[request].(locked := true)];
        records := records[request := records[request].(locked := false)];
      }
    }

    /** Run any calls, except those that the discipline forbids or that name `kept`. */
    method Perform(calls: seq<Call<V>>, kept: Option<Id>)
      requires Valid()
      modifies this
      ensures Valid() && View() == AfterAll(old(View()), calls, kept)
      ensures kept.Some? ==> Known(kept.value) == old(Known(kept.value))
    {
      for i := 0 to |calls|
        invariant Valid() && View() == AfterAll(old(View()), calls[..i], kept)
        invariant kept.Some? ==> Known(kept.value) == old(Known(kept.value))
      {
        PerformOne(calls[i], kept);
        assert calls[..i + 1][..i] == calls[..i];
      }
      assert calls[..|calls|] == calls;
    }

    method PerformOne(c: Call<V>, kept: Option<Id>)
      requires Valid()
      modifies this
      ensures Valid() && View() == After(old(View()), c, kept)
      ensures kept.Some? ==> Known(kept.value) == old(Known(kept.value))
    {
      var id := Named(View(), c);
      if !Permitted(View(), c, kept) {
        return;
      }
      match c
      case Register => var newId := RegisterRequest();
      case Serve(_, v) => ServeRequest(id, v);
      case Wait(_) => var result := WaitRequest(id);
      case Unregister(_) => UnregisterRequest(id);
    }
  }

  /** The identifier a call is about. */
  function Named<V>(p: Pool<V>, c: Call<V>): Id {
    if c.Register? then NextId(p.requestID) else c.id
  }

  /** The discipline: no identifier is reused while outstanding, and a served request
      is neither served again nor unregistered. */
  predicate Permitted<V>(p: Pool<V>, c: Call<V>, kept: Option<Id>) {
    var r := Lookup(p, Named(p, c));
    && kept != Some(Named(p, c))
    && (c.Register? ==> r.None?)
    && (c.Serve? || c.Unregister? ==> !IsServed(r))
  }

  /** What a call makes of the pool. */
  ghost function After<V>(p: Pool<V>, c: Call<V>, kept: Option<Id>): Pool<V> {
    var id := Named(p, c);
    if !Permitted(p, c, kept) then p
    else if c.Register? then Registered(p)
    else if c.Unregister? then Released(p, id)
    else if id !in p.requests || p.requests[id] >= |p.records| then p
    else if c.Serve? then SetRecord(p, p.requests[id], Record(false, Some(c.v)))
    else if p.records[p.requests[id]].locked then p
    else Released(SetRecord(p, p.requests[id], p.records[p.requests[id]].(locked := true)), id)
  }

  ghost function AfterAll<V>(p: Pool<V>, calls: seq<Call<V>>, kept: Option<Id>): Pool<V> {
    if calls == [] then p else After(AfterAll(p, calls[..|calls| - 1], kept), calls[|calls| - 1], kept)
  }

  /** One call on a handler. */
  datatype Call<V> = Register | Serve(id: Id, v: V) | Wait(id: Id) | Unregister(id: Id)

  /** What Request::wait comes to: a value, FutureTimeout or UnregisteredRequest. */
  datatype Outcome<V> = Value(v: V) | TimedOut | NotRegistered

  class Request<V(==)> {
    const handler: Handler<V>
    const request: Id
    var state: Future<V>

    constructor (h: Handler<V>, id: Id)
      ensures handler == h && request == id && state == Unresolved
    {
      handler, request, state := h, id, Unresolved;
    }

    /** wait: asks the handler only while unresolved, and keeps what it says. */
    method Wait() returns (outcome: Outcome<V>)
      requires handler.Valid()
      modifies this, handler
      ensures handler.Valid() && SameElsewhere(old(handler.View()), handler.View(), request)
      ensures outcome == match old(state)
                         case Unregistered => NotRegistered
                         case Done(v) => Value(v)
                         case Unresolved =>
                           var r := old(handler.Known(request));
                           if IsServed(r) && r.value.result.Some? then Value(r.value.result.value) else TimedOut
      ensures state == if old(state) == Unresolved && outcome.Value? then Done(outcome.v) else old(state)
      ensures old(state) != Unresolved || outcome == TimedOut ==> handler.View() == old(handler.View())
      ensures handler.requestID == old(handler.requestID)
      ensures old(state) == Unresolved && outcome.Value? ==>
                request in old(handler.requests) &&
                handler.freeRecords == [old(handler.requests)[request]] + old(handler.freeRecords)
    {
      match state {
        case Unregistered => return NotRegistered;
        case Unresolved =>
          var reply := handler.WaitRequest(request);
          if reply == None {
            return TimedOut;
          }
          state := Done(reply.value);
        case Done(_) =>
      }
      outcome := Value(state.value);
    }

    method IsReady() returns (ready: bool)
      requires handler.Valid()
      modifies handler
      ensures handler.Valid() && handler.View() == old(handler.View())
      ensures ready <==> state.Done? || (state == Unresolved && IsServed(handler.Known(request)))
    {
      match state
      case Unresolved => ready := handler.IsRequestReady(request);
      case Unregistered => ready := false;
      case Done(_) => ready := true;
    }

    /** unregister: forgets an unresolved request, for good. */
    method Unregister()
      requires handler.Valid()
      modifies this, handler
      ensures state != Unresolved
      ensures if old(state) == Unresolved
              then state == Unregistered && handler.Known(request).None? &&
                   SameElsewhere(old(handler.View()), handler.View(), request) &&
                   (handler.Valid() <==> !IsServed(old(handler.Known(request))))
              else state == old(state) && handler.View() == old(handler.View())
    {
      if state == Unresolved {
        state := Unregistered;
        handler.UnregisterRequest(request);
      }
    }
  }

  /** A request, with any other calls going on in between: it times out until it is
      served, and from then on every wait returns the value it was served with. */
  method WaitTwice<V(==)>(h: Handler<V>, v: V, before: seq<Call<V>>, between: seq<Call<V>>, after: seq<Call<V>>)
    returns (early: Outcome<V>, first: Outcome<V>, second: Outcome<V>)
    requires h.Valid() && NextId(h.requestID) !in h.requests
    modifies h
    ensures h.Valid() && early == TimedOut && first == Value(v) && second == Value(v)
  {
    var id := h.RegisterRequest();
    var r := new Request<V>(h, id);
    h.Perform(before, Some(id));
    early := r.Wait();
    h.ServeRequest(id, v);
    h.Perform(between, Some(id));
    first := r.Wait();
    h.Perform(after, None);
    second := r.Wait();
  }

  /** A request from registration to its answer. */
  method Complete<V(==)>(h: Handler<V>, v: V) returns (r: Request<V>, outcome: Outcome<V>, ghost rec: RecordIndex)
    requires h.Valid() && NextId(h.requestID) !in h.requests
    modifies h
    ensures h.Valid() && h.requestID == NextId(old(h.requestID))
    ensures SameElsewhere(old(h.View()), h.View(), h.requestID)
    ensures fresh(r) && r.handler == h && r.state == Done(v) && outcome == Value(v)
    ensures rec == if old(h.freeRecords) == [] then |old(h.records)| else old(h.freeRecords)[0]
    ensures h.freeRecords != [] && h.freeRecords[0] == rec
  {
    var id := h.RegisterRequest();
    rec := h.requests[id];
    r := new Request<V>(h, id);
    h.ServeRequest(id, v);
    outcome := r.Wait();
  }

  lemma NextIdDiffers(id: Id)
    requires id < MAX_UINT32
    ensures NextId(id) != id
  {
  }

  /** A second request gets the first one's record, and is served with another
      value; the first still answers with its own. */
  method AnswerSurvivesRecycling<V(==)>(h: Handler<V>, v: V, w: V)
    returns (first: Outcome<V>, other: Outcome<V>, second: Outcome<V>, ghost recycled: bool)
    requires h.Valid() && NextId(h.requestID) !in h.requests && NextId(NextId(h.requestID)) !in h.requests
    modifies h
    ensures h.Valid() && recycled && first == Value(v) && other == Value(w) && second == Value(v)
  {
    NextIdDiffers(NextId(h.requestID));
    var a, b;
    ghost var rec, rec';
    a, first, rec := Complete(h, v);
    assert Lookup(h.View(), NextId(h.requestID)).None?;
    b, other, rec' := Complete(h, w);
    recycled := rec' == rec;
    second := a.Wait();
  }
}
