/**
 * The deferred update queue of client/update_queue.cpp: a FIFO of callback
 * entries that is drained synchronously, and a table of entries waiting for a
 * server request to finish.
 *
 * Entry equality as used by `queue.removeAll` is declared in update_queue.h,
 * which is not part of this model; it is taken to be callback identity, as the
 * comments on `push` and `add` describe ("you can only set a callback once").
 */
module DeferredQueue {
  import opened Wrappers
  import opened UpdateTypes
  import opened CityUpdates

  // ---------------------------------------------------------------------------
  // The queue as a value

  /** Whether some entry of `q` has callback `cb` (the std::any_of of has_callback). */
  function Contains(q: seq<Entry>, cb: Callback): (b: bool)
    ensures b <==> exists i :: 0 <= i < |q| && q[i].callback == cb
  {
    if q == [] then false else q[0].callback == cb || Contains(q[1..], cb)
  }

  /** How many entries of `q` have callback `cb`. */
  function Count(q: seq<Entry>, cb: Callback): nat
  {
    if q == [] then 0 else (if q[0].callback == cb then 1 else 0) + Count(q[1..], cb)
  }

  /** No two entries share a callback. */
  predicate Unique(q: seq<Entry>)
  {
    forall i, j :: 0 <= i < j < |q| ==> q[i].callback != q[j].callback
  }

  /** `queue.removeAll(wq)`: drop every entry with `cb`, keep the rest in order; nothing is freed. */
  function RemoveAll(q: seq<Entry>, cb: Callback): (r: seq<Entry>)
    ensures forall e :: e in r <==> e in q && e.callback != cb
    ensures !Contains(q, cb) ==> r == q
    ensures |r| == |q| - Count(q, cb)
  {
    if q == [] then []
    else (if q[0].callback == cb then [] else [q[0]]) + RemoveAll(q[1..], cb)
  }

  /** The queue after `removeAll(wq)` and `enqueue(wq)`, before any draining. */
  function Pushed(q: seq<Entry>, wq: Entry): (r: seq<Entry>)
    ensures |r| >= 1 && r[|r| - 1] == wq
  {
    RemoveAll(q, wq.callback) + [wq]
  }

  // ---------------------------------------------------------------------------
  // Draining

  /** The foreign calls made so far and the city masks they leave. */
  datatype Effects = Effects(events: seq<Event>, masks: seq<UpdateMask>)

  /**
   * `wq.callback(wq.data)`: the call is recorded; the cities callback also
   * serves and clears every dirty city. Callbacks are taken not to touch the queue.
   */
  function Invoke(wq: Entry, ids: seq<nat>, masks: seq<UpdateMask>): (r: Effects)
    requires |ids| == |masks|
    ensures |r.masks| == |masks|
    ensures |r.events| >= 1 && r.events[0] == Invoked(wq.callback, wq.data)
    ensures r.masks == if wq.callback == CitiesUpdate then Cleared(masks) else masks
  {
    if wq.callback == CitiesUpdate then
      Effects([Invoked(wq.callback, wq.data)] + CityActions(ids, masks), Cleared(masks))
    else
      Effects([Invoked(wq.callback, wq.data)], masks)
  }

  /** update_unqueue's loop: dequeue, invoke, then release, until the queue is empty. */
  function Drain(q: seq<Entry>, ids: seq<nat>, masks: seq<UpdateMask>): (r: Effects)
    requires |ids| == |masks|
    ensures |r.masks| == |masks|
    ensures |r.events| >= |q|
    ensures q == [] ==> r == Effects([], masks)
  {
    if q == [] then Effects([], masks)
    else
      var now := Invoke(q[0], ids, masks);
      var later := Drain(q[1..], ids, now.masks);
      Effects(now.events + Release(q[0]) + later.events, later.masks)
  }

  /** One turn of update_unqueue's loop: the head's effects, then the rest of the drain. */
  lemma DrainStep(q: seq<Entry>, ids: seq<nat>, masks: seq<UpdateMask>, t: seq<Event>)
    requires q != [] && |ids| == |masks|
    ensures var now := Invoke(q[0], ids, masks);
      && t + Drain(q, ids, masks).events == t + now.events + Release(q[0]) + Drain(q[1..], ids, now.masks).events
      && Drain(q, ids, masks).masks == Drain(q[1..], ids, now.masks).masks
  {
    var now := Invoke(q[0], ids, masks);
    var later := Drain(q[1..], ids, now.masks);
    AppendAssoc(now.events, Release(q[0]), later.events);
    AppendAssoc(t, now.events, Release(q[0]) + later.events);
    AppendAssoc(t + now.events, Release(q[0]), later.events);
  }

  /** The part of the client state a push acts on, at one moment. */
  datatype Snapshot = Snapshot(queue: seq<Entry>, hasIdleCb: bool, trace: seq<Event>, masks: seq<UpdateMask>)

  /**
   * What `push(wq)` does to the state `s`, for cities with ids `ids`: the entry
   * replaces any entry with its callback and goes to the tail; when no drain
   * was pending, the whole queue is then drained.
   */
  predicate PushStep(wq: Entry, ids: seq<nat>, s: Snapshot, s': Snapshot)
    ensures PushStep(wq, ids, s, s') ==> s.trace <= s'.trace && |s'.masks| == |s.masks|
    ensures PushStep(wq, ids, s, s') && !s.hasIdleCb ==> s'.queue == [] && !s'.hasIdleCb
    ensures PushStep(wq, ids, s, s') && s.hasIdleCb ==> s'.trace == s.trace && s'.masks == s.masks
  {
    |ids| == |s.masks| &&
    if s.hasIdleCb then
      s' == s.(queue := Pushed(s.queue, wq))
    else
      var drained := Drain(Pushed(s.queue, wq), ids, s.masks);
      s' == Snapshot([], false, s.trace + drained.events, drained.masks)
  }

  // ---------------------------------------------------------------------------
  // The waiting table as a value

  type Table = map<int, seq<Entry>>

  /** The entries waiting on `id`, in registration order. */
  function Waiters(t: Table, id: int): seq<Entry>
  {
    if id in t then t[id] else []
  }

  /** `wq_processing_finished[request_id].append(e)`: the list is created when absent. */
  function WithRequest(t: Table, id: int, e: Entry): (r: Table)
    ensures r.Keys == t.Keys + {id}
    ensures Waiters(r, id) == Waiters(t, id) + [e]
    ensures forall k :: k in t && k != id ==> r[k] == t[k]
  {
    t[id := Waiters(t, id) + [e]]
  }

  /** Whether an entry with this callback and data already waits on `id`. */
  predicate IsWaiting(t: Table, id: int, cb: Callback, data: Option<nat>)
  {
    exists i :: 0 <= i < |Waiters(t, id)| && Waiters(t, id)[i].callback == cb && Waiters(t, id)[i].data == data
  }

  /** The table connect_processing_finished_unique leaves. */
  function WithUniqueRequest(t: Table, id: int, cb: Callback, data: Option<nat>): (r: Table)
    ensures IsWaiting(r, id, cb, data)
    ensures r.Keys == t.Keys + {id}
    ensures forall k :: k in t && k != id ==> r[k] == t[k]
    ensures |Waiters(r, id)| <= |Waiters(t, id)| + 1
  {
    if IsWaiting(t, id, cb, data) then t
    else
      var r := WithRequest(t, id, Entry(cb, data, None));
      assert Waiters(r, id)[|Waiters(t, id)|] == Entry(cb, data, None);
      r
  }

  /** Releasing the waiting lists of the keys `ks`, one list after the other. */
  function ReleaseLists(t: Table, ks: seq<int>): (r: seq<Event>)
    requires forall k :: k in ks ==> k in t
    ensures forall e :: e in r ==> e.Freed?
  {
    if ks == [] then []
    else
      var last := ks[|ks| - 1];
      assert last in ks;
      ReleaseLists(t, ks[..|ks| - 1]) + ReleaseAll(t[last])
  }

  lemma ReleaseListsSnoc(t: Table, ks: seq<int>, k: int)
    requires forall x :: x in ks ==> x in t
    requires k in t
    ensures ReleaseLists(t, ks + [k]) == ReleaseLists(t, ks) + ReleaseAll(t[k])
  {
  }

  predicate DistinctKeys(ks: seq<int>)
  {
    forall i, j :: 0 <= i < j < |ks| ==> ks[i] != ks[j]
  }

  /** Scans a waiting list for an entry with this callback and data (the loop of connect_processing_finished_unique). */
  method FindWaiter(list: seq<Entry>, callback: Callback, data: Option<nat>) returns (found: bool)
    ensures found <==> exists i :: 0 <= i < |list| && list[i].callback == callback && list[i].data == data
  {
    var i := 0;
    while i < |list|
      invariant 0 <= i <= |list|
      invariant forall j :: 0 <= j < i ==> !(list[j].callback == callback && list[j].data == data)
    {
      var d := list[i];
      if d.callback == callback && d.data == data {
        return true;
      }
      i := i + 1;
    }
    return false;
  }

  // ---------------------------------------------------------------------------
  // The object

  class UpdateQueue {
    /** `queue`: callbacks waiting to be invoked, head first. */
    var queue: seq<Entry>
    /** `wq_processing_finished`: entries waiting for a request id to finish. */
    var waiting: Table
    /** `has_idle_cb`: raised by push just before it drains, and lowered again as the drain starts. */
    var hasIdleCb: bool
    /** The calls made into code outside the queue, oldest first. */
    var trace: seq<Event>

    /** The queue's state together with the masks of `cities`. */
    ghost function Snap(cities: seq<City>): (s: Snapshot)
      reads this, cities
      ensures |s.masks| == |cities|
    {
      Snapshot(queue, hasIdleCb, trace, Masks(cities))
    }

    /** A fresh queue, in place of the lazily allocated singleton of uq(). */
    constructor ()
      ensures queue == [] && waiting == map[] && !hasIdleCb && trace == []
    {
      queue := [];
      waiting := map[];
      hasIdleCb := false;
      trace := [];
    }

    /** wq_run_requests: move the entries waiting on `requestId` to the tail, without dedup or drain. */
    method WqRunRequests(requestId: int)
      modifies this
      ensures requestId !in old(waiting) ==> queue == old(queue) && waiting == old(waiting)
      ensures requestId in old(waiting) ==>
        queue == old(queue) + old(waiting)[requestId] && waiting == old(waiting) - {requestId}
      ensures hasIdleCb == old(hasIdleCb) && trace == old(trace)
    {
      if requestId !in waiting {
        return;
      }
      var list := waiting[requestId];
      var i := 0;
      while i < |list|
        invariant 0 <= i <= |list|
        invariant queue == old(queue) + list[..i]
        invariant waiting == old(waiting) && hasIdleCb == old(hasIdleCb) && trace == old(trace)
      {
        queue := queue + [list[i]];
        i := i + 1;
      }
      assert list[..i] == list;
      waiting := waiting - {requestId};
    }

    /** wq_data_destroy: free owned data, then null data and free function. */
    method WqDataDestroy(wq: Entry) returns (r: Entry)
      modifies this
      ensures r == Destroyed(wq)
      ensures trace == old(trace) + Release(wq)
      ensures queue == old(queue) && waiting == old(waiting) && hasIdleCb == old(hasIdleCb)
    {
      r := wq;
      if r.data.Some? && r.freeData.Some? {
        trace := trace + [Freed(r.freeData.value, r.data.value)];
      }
      r := r.(data := None, freeData := None);
    }

    /** wq_add_request: park an entry until `requestId` finishes. */
    method WqAddRequest(requestId: int, callback: Callback, data: Option<nat>, freeData: Option<nat>)
      modifies this
      ensures waiting == WithRequest(old(waiting), requestId, Entry(callback, data, freeData))
      ensures queue == old(queue) && hasIdleCb == old(hasIdleCb) && trace == old(trace)
    {
      var list := if requestId in waiting then waiting[requestId] else [];
      waiting := waiting[requestId := list + [Entry(callback, data, freeData)]];
    }

    /**
     * init (also run by the destructor): release every queued entry, then every
     * waiting entry, invoking nothing, and empty both. The table is visited in
     * an unspecified key order, returned as `keyOrder`.
     */
    method Init() returns (ghost keyOrder: seq<int>)
      modifies this
      ensures queue == [] && waiting == map[] && hasIdleCb == old(hasIdleCb)
      ensures forall k :: k in keyOrder <==> k in old(waiting)
      ensures DistinctKeys(keyOrder)
      ensures trace == old(trace) + ReleaseAll(old(queue)) + ReleaseLists(old(waiting), keyOrder)
    {
      while queue != []
        invariant old(trace) + ReleaseAll(old(queue)) == trace + ReleaseAll(queue)
        invariant waiting == old(waiting) && hasIdleCb == old(hasIdleCb)
        decreases |queue|
      {
        ghost var t := trace;
        var wq := queue[0];
        queue := queue[1..];
        var destroyed := WqDataDestroy(wq);
        AppendAssoc(t, Release(wq), ReleaseAll(queue));
      }
      keyOrder := ReleaseWaiting();
      waiting := map[];
    }

    /** The second half of init: release the entries of every waiting list, list after list. */
    method ReleaseWaiting() returns (ghost keyOrder: seq<int>)
      modifies this
      ensures forall k :: k in keyOrder <==> k in waiting
      ensures DistinctKeys(keyOrder)
      ensures trace == old(trace) + ReleaseLists(waiting, keyOrder)
      ensures queue == old(queue) && waiting == old(waiting) && hasIdleCb == old(hasIdleCb)
    {
      var rest := waiting.Keys;
      keyOrder := [];
      while exists k :: k in rest
        invariant queue == old(queue) && waiting == old(waiting) && hasIdleCb == old(hasIdleCb)
        invariant rest <= waiting.Keys
        invariant forall k :: k in keyOrder <==> k in waiting && k !in rest
        invariant DistinctKeys(keyOrder)
        invariant trace == old(trace) + ReleaseLists(waiting, keyOrder)
        decreases rest
      {
        var k :| k in rest;
        ghost var t := trace;
        ReleaseEntries(waiting[k]);
        ReleaseListsSnoc(waiting, keyOrder, k);
        AppendAssoc(old(trace), ReleaseLists(waiting, keyOrder), ReleaseAll(waiting[k]));
        keyOrder := keyOrder + [k];
        rest := rest - {k};
      }
    }

    /** The inner loop of init: wq_data_destroy on each entry of one waiting list, front to back. */
    method ReleaseEntries(list: seq<Entry>)
      modifies this
      ensures trace == old(trace) + ReleaseAll(list)
      ensures queue == old(queue) && waiting == old(waiting) && hasIdleCb == old(hasIdleCb)
    {
      var j := 0;
      while j < |list|
        invariant 0 <= j <= |list|
        invariant old(trace) + ReleaseAll(list) == trace + ReleaseAll(list[j..])
        invariant queue == old(queue) && waiting == old(waiting) && hasIdleCb == old(hasIdleCb)
      {
        assert list[j..][1..] == list[j + 1..];
        ghost var t := trace;
        var destroyed := WqDataDestroy(list[j]);
        AppendAssoc(t, Release(list[j]), ReleaseAll(list[j + 1..]));
        j := j + 1;
      }
    }

    /** processing_finished: the session layer reports that `requestId` finished. */
    method ProcessingFinished(requestId: int)
      modifies this
      ensures requestId !in old(waiting) ==> queue == old(queue) && waiting == old(waiting)
      ensures requestId in old(waiting) ==>
        queue == old(queue) + old(waiting)[requestId] && waiting == old(waiting) - {requestId}
      ensures hasIdleCb == old(hasIdleCb) && trace == old(trace)
    {
      WqRunRequests(requestId);
    }

    /**
     * update_unqueue: clear has_idle_cb, then invoke and release every entry,
     * head first, until the queue is empty (entries are never re-queued by
     * their callbacks here).
     */
    method UpdateUnqueue(cities: seq<City>)
      requires Distinct(cities)
      modifies this, cities
      ensures queue == [] && !hasIdleCb && waiting == old(waiting)
      ensures trace == old(trace) + Drain(old(queue), Ids(cities), old(Masks(cities))).events
      ensures Masks(cities) == Drain(old(queue), Ids(cities), old(Masks(cities))).masks
    {
      hasIdleCb := false;
      ghost var ids := Ids(cities);
      ghost var total := Drain(queue, ids, Masks(cities));
      ghost var t0 := trace;
      while queue != []
        invariant waiting == old(waiting) && !hasIdleCb
        invariant t0 + total.events == trace + Drain(queue, ids, Masks(cities)).events
        invariant total.masks == Drain(queue, ids, Masks(cities)).masks
        decreases |queue|
      {
        DequeueAndCall(cities);
      }
    }

    /** One turn of update_unqueue's loop: dequeue the head, invoke it, release it. */
    method DequeueAndCall(cities: seq<City>)
      requires Distinct(cities) && queue != []
      modifies this, cities
      ensures queue == old(queue)[1..] && waiting == old(waiting) && hasIdleCb == old(hasIdleCb)
      ensures trace + Drain(queue, Ids(cities), Masks(cities)).events
           == old(trace) + Drain(old(queue), Ids(cities), old(Masks(cities))).events
      ensures Drain(queue, Ids(cities), Masks(cities)).masks == Drain(old(queue), Ids(cities), old(Masks(cities))).masks
    {
      var wq := queue[0];
      DrainStep(queue, Ids(cities), Masks(cities), trace);
      queue := queue[1..];
      Call(wq, cities);
      var destroyed := WqDataDestroy(wq);
    }

    /** `wq.callback(wq.data)`: record the call; the cities callback also serves the cities. */
    method Call(wq: Entry, cities: seq<City>)
      requires Distinct(cities)
      modifies this, cities
      ensures trace == old(trace) + Invoke(wq, Ids(cities), old(Masks(cities))).events
      ensures Masks(cities) == Invoke(wq, Ids(cities), old(Masks(cities))).masks
      ensures queue == old(queue) && waiting == old(waiting) && hasIdleCb == old(hasIdleCb)
    {
      ghost var ids, before := Ids(cities), Masks(cities);
      var events := [Invoked(wq.callback, wq.data)];
      if wq.callback == CitiesUpdate {
        var actions := CitiesUpdateCallback(cities);
        events := events + actions;
      }
      assert events == Invoke(wq, ids, before).events;
      trace := trace + events;
    }

    /**
     * push: replace any entry with the same callback by `wq` at the tail; when
     * no drain is pending, drain at once. Entries removed here are not released.
     */
    method Push(wq: Entry, cities: seq<City>)
      requires Distinct(cities)
      modifies this, cities
      ensures PushStep(wq, Ids(cities), old(Snap(cities)), Snap(cities))
      ensures waiting == old(waiting)
    {
      ghost var before := Snap(cities);
      queue := RemoveAll(queue, wq.callback);
      queue := queue + [wq];
      assert queue == Pushed(before.queue, wq);
      if !hasIdleCb {
        hasIdleCb := true;
        assert Masks(cities) == before.masks;
        UpdateUnqueue(cities);
      }
    }

    /** add: push a callback with no data and no free function. */
    method Add(callback: Callback, cities: seq<City>)
      requires Distinct(cities)
      modifies this, cities
      ensures PushStep(Entry(callback, None, None), Ids(cities), old(Snap(cities)), Snap(cities))
      ensures waiting == old(waiting)
    {
      Push(Entry(callback, None, None), cities);
    }

    /** has_callback: whether some queued entry has this callback. */
    function HasCallback(callback: Callback): (b: bool)
      reads this
      ensures b <==> exists i :: 0 <= i < |queue| && queue[i].callback == callback
    {
      Contains(queue, callback)
    }

    /** connect_processing_finished: park a callback, with unowned data, until `requestId` finishes. */
    method ConnectProcessingFinished(requestId: int, callback: Callback, data: Option<nat>)
      modifies this
      ensures waiting == WithRequest(old(waiting), requestId, Entry(callback, data, None))
      ensures queue == old(queue) && hasIdleCb == old(hasIdleCb) && trace == old(trace)
    {
      WqAddRequest(requestId, callback, data, None);
    }

    /** connect_processing_finished_unique: as above, unless the same callback and data already wait on `requestId`. */
    method ConnectProcessingFinishedUnique(requestId: int, callback: Callback, data: Option<nat>)
      modifies this
      ensures waiting == WithUniqueRequest(old(waiting), requestId, callback, data)
      ensures queue == old(queue) && hasIdleCb == old(hasIdleCb) && trace == old(trace)
    {
      if requestId in waiting {
        var present := FindWaiter(waiting[requestId], callback, data);
        if present {
          return;
        }
      }
      WqAddRequest(requestId, callback, data, None);
    }

    /** connect_processing_finished_full: park a callback whose data is owned and freed by `freeData`. */
    method ConnectProcessingFinishedFull(requestId: int, callback: Callback, data: Option<nat>, freeData: Option<nat>)
      modifies this
      ensures waiting == WithRequest(old(waiting), requestId, Entry(callback, data, freeData))
      ensures queue == old(queue) && hasIdleCb == old(hasIdleCb) && trace == old(trace)
    {
      WqAddRequest(requestId, callback, data, freeData);
    }
  }
}
