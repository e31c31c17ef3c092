/**
 * Properties of the deferred update queue, stated over the value-level
 * definitions that the methods of DeferredQueue.UpdateQueue are proved against.
 */
module QueueProperties {
  import opened Wrappers
  import opened UpdateTypes
  import opened CityUpdates
  import opened DeferredQueue

  // ---------------------------------------------------------------------------
  // removeAll and push: one entry per callback, the newest at the tail

  lemma {:induction false} CountAppend(a: seq<Entry>, b: seq<Entry>, cb: Callback)
    ensures Count(a + b, cb) == Count(a, cb) + Count(b, cb)
  {
    if a == [] {
      assert a + b == b;
    } else {
      assert (a + b)[1..] == a[1..] + b;
      CountAppend(a[1..], b, cb);
    }
  }

  /** `removeAll` works entry by entry, so it keeps the relative order of what it keeps. */
  lemma {:induction false} RemoveAllAppend(a: seq<Entry>, b: seq<Entry>, cb: Callback)
    ensures RemoveAll(a + b, cb) == RemoveAll(a, cb) + RemoveAll(b, cb)
  {
    if a == [] {
      assert a + b == b;
    } else {
      assert (a + b)[1..] == a[1..] + b;
      RemoveAllAppend(a[1..], b, cb);
      var head := if a[0].callback == cb then [] else [a[0]];
      AppendAssoc(head, RemoveAll(a[1..], cb), RemoveAll(b, cb));
    }
  }

  lemma {:induction false} CountAbsent(q: seq<Entry>, cb: Callback)
    requires !Contains(q, cb)
    ensures Count(q, cb) == 0
  {
    if q != [] {
      CountAbsent(q[1..], cb);
    }
  }

  /**
   * The queue push leaves before draining: the new entry is last, it is the only
   * entry with its callback, and every other entry of the old queue is kept.
   */
  lemma PushedShape(q: seq<Entry>, wq: Entry)
    ensures var r := Pushed(q, wq);
      && |r| == |q| - Count(q, wq.callback) + 1
      && r[|r| - 1] == wq
      && (forall i :: 0 <= i < |r| - 1 ==> r[i].callback != wq.callback)
      && Count(r, wq.callback) == 1
      && (forall e :: e in r <==> e == wq || (e in q && e.callback != wq.callback))
  {
    var kept := RemoveAll(q, wq.callback);
    var r := kept + [wq];
    assert forall i :: 0 <= i < |r| - 1 ==> r[i] == kept[i] && kept[i] in kept;
    assert !Contains(kept, wq.callback);
    CountAbsent(kept, wq.callback);
    CountAppend(kept, [wq], wq.callback);
  }

  /** Pushing A onto [A, B, C] moves A to the tail: the queue becomes [B, C, A]. */
  lemma PushMovesToTail(a: Entry, b: Entry, c: Entry, a': Entry)
    requires a.callback != b.callback && a.callback != c.callback
    requires a'.callback == a.callback
    ensures Pushed([a, b, c], a') == [b, c, a']
  {
  }

  /**
   * Two pushes of the same callback leave what the second alone would: the
   * first entry is dropped silently, its data is never freed by the drop.
   */
  lemma RepeatedPushKeepsLatest(q: seq<Entry>, e1: Entry, e2: Entry)
    requires e1.callback == e2.callback
    ensures Pushed(Pushed(q, e1), e2) == Pushed(q, e2)
  {
    var cb := e2.callback;
    var kept := RemoveAll(q, cb);
    assert !Contains(kept, cb) by {
      forall i | 0 <= i < |kept|
        ensures kept[i].callback != cb
      {
        assert kept[i] in kept;
      }
    }
    assert RemoveAll(kept, cb) == kept;
    assert [e1][1..] == [];
    assert RemoveAll([e1], cb) == [];
    RemoveAllAppend(kept, [e1], cb);
    assert RemoveAll(kept + [e1], cb) == kept;
  }

  lemma UniqueSnoc(s: seq<Entry>, w: Entry)
    requires Unique(s)
    requires forall e :: e in s ==> e.callback != w.callback
    ensures Unique(s + [w])
  {
  }

  lemma {:induction false} RemoveAllKeepsUnique(q: seq<Entry>, cb: Callback)
    requires Unique(q)
    ensures Unique(RemoveAll(q, cb))
  {
    if q != [] {
      var rest := RemoveAll(q[1..], cb);
      RemoveAllKeepsUnique(q[1..], cb);
      if q[0].callback != cb {
        var r := [q[0]] + rest;
        forall i, j | 0 <= i < j < |r|
          ensures r[i].callback != r[j].callback
        {
          assert r[j] == rest[j - 1] && rest[j - 1] in rest;
          if i == 0 {
            var k :| 0 <= k < |q[1..]| && q[1..][k] == r[j];
            assert q[0].callback != q[k + 1].callback;
          }
        }
      }
    }
  }

  /** push keeps "no callback is queued twice". */
  lemma PushedKeepsUnique(q: seq<Entry>, wq: Entry)
    requires Unique(q)
    ensures Unique(Pushed(q, wq))
  {
    RemoveAllKeepsUnique(q, wq.callback);
    UniqueSnoc(RemoveAll(q, wq.callback), wq);
  }

  /**
   * wq_run_requests appends without removeAll, so an entry already queued can
   * end up queued twice: the one-entry-per-callback rule is push's, not the queue's.
   */
  lemma RunRequestsCanDuplicate(e: Entry, id: int)
    ensures var queue := [e];
      var waiting := map[id := [e]];
      && Unique(queue)
      && !Unique(queue + waiting[id])
      && Count(queue + waiting[id], e.callback) == 2
  {
    var both := [e] + map[id := [e]][id];
    assert both == [e, e];
    assert both[0].callback == both[1].callback;
    assert both[1..] == [e] && [e][1..] == [];
    assert Count([e], e.callback) == 1 + Count([], e.callback);
  }

  // ---------------------------------------------------------------------------
  // Draining

  /** The city refreshes recorded in a trace, in order. */
  function Refreshes(t: seq<Event>): (r: seq<Event>)
    ensures forall e :: e in r ==> IsCityAction(e) && e in t
  {
    if t == [] then []
    else (if IsCityAction(t[0]) then [t[0]] else []) + Refreshes(t[1..])
  }

  lemma {:induction false} RefreshesAppend(a: seq<Event>, b: seq<Event>)
    ensures Refreshes(a + b) == Refreshes(a) + Refreshes(b)
  {
    if a == [] {
      assert a + b == b;
    } else {
      assert (a + b)[1..] == a[1..] + b;
      RefreshesAppend(a[1..], b);
      var head := if IsCityAction(a[0]) then [a[0]] else [];
      AppendAssoc(head, Refreshes(a[1..]), Refreshes(b));
    }
  }

  lemma {:induction false} RefreshesOfCityEvents(t: seq<Event>)
    requires forall e :: e in t ==> IsCityAction(e)
    ensures Refreshes(t) == t
  {
    if t != [] {
      assert t[0] in t;
      RefreshesOfCityEvents(t[1..]);
    }
  }

  /** The effects of invoking one entry, sorted by kind. */
  lemma InvokeKinds(wq: Entry, ids: seq<nat>, masks: seq<UpdateMask>)
    requires |ids| == |masks|
    ensures var now := Invoke(wq, ids, masks);
      && Invocations(now.events) == [Invoked(wq.callback, wq.data)]
      && Frees(now.events) == []
      && Refreshes(now.events) == (if wq.callback == CitiesUpdate then CityActions(ids, masks) else [])
  {
    var call := [Invoked(wq.callback, wq.data)];
    assert call[1..] == [];
    assert Frees(call) == Frees(call[1..]);
    assert Refreshes(call) == Refreshes(call[1..]);
    assert Invocations(call) == call;
    if wq.callback == CitiesUpdate {
      var acts := CityActions(ids, masks);
      CityActionsAreCityEvents(ids, masks);
      RefreshesOfCityEvents(acts);
      InvocationsAppend(call, acts);
      FreesAppend(call, acts);
      RefreshesAppend(call, acts);
    }
  }

  /** Releasing one entry is at most one free-function call. */
  lemma ReleaseKinds(e: Entry)
    ensures Invocations(Release(e)) == [] && Refreshes(Release(e)) == []
    ensures Frees(Release(e)) == Release(e)
  {
  }

  /**
   * update_unqueue invokes every queued entry exactly once, front to back: the
   * invocations of the drain are the queue's requests.
   */
  lemma {:induction false} DrainCallsEachOnce(q: seq<Entry>, ids: seq<nat>, masks: seq<UpdateMask>)
    requires |ids| == |masks|
    ensures Invocations(Drain(q, ids, masks).events) == Requests(q)
  {
    if q != [] {
      var now := Invoke(q[0], ids, masks);
      var later := Drain(q[1..], ids, now.masks);
      var head := now.events + Release(q[0]);
      DrainCallsEachOnce(q[1..], ids, now.masks);
      InvokeKinds(q[0], ids, masks);
      ReleaseKinds(q[0]);
      InvocationsAppend(now.events, Release(q[0]));
      assert Invocations(head) == [Invoked(q[0].callback, q[0].data)];
      InvocationsAppend(head, later.events);
      assert Drain(q, ids, masks).events == head + later.events;
    }
  }

  /**
   * update_unqueue releases every queued entry after its call: the free-function
   * calls of the drain are those of releasing the queue, front to back.
   */
  lemma {:induction false} DrainFreesQueued(q: seq<Entry>, ids: seq<nat>, masks: seq<UpdateMask>)
    requires |ids| == |masks|
    ensures Frees(Drain(q, ids, masks).events) == ReleaseAll(q)
  {
    if q != [] {
      var now := Invoke(q[0], ids, masks);
      var later := Drain(q[1..], ids, now.masks);
      var head := now.events + Release(q[0]);
      DrainFreesQueued(q[1..], ids, now.masks);
      InvokeKinds(q[0], ids, masks);
      ReleaseKinds(q[0]);
      FreesAppend(now.events, Release(q[0]));
      assert Frees(head) == Release(q[0]);
      FreesAppend(head, later.events);
      assert Drain(q, ids, masks).events == head + later.events;
    }
  }

  /**
   * The city masks a drain leaves: all clear when the cities callback was
   * queued, untouched otherwise.
   */
  lemma {:induction false} DrainMasks(q: seq<Entry>, ids: seq<nat>, masks: seq<UpdateMask>)
    requires |ids| == |masks|
    ensures Contains(q, CitiesUpdate) ==> Drain(q, ids, masks).masks == Cleared(masks)
    ensures !Contains(q, CitiesUpdate) ==> Drain(q, ids, masks).masks == masks
  {
    if q != [] {
      var now := Invoke(q[0], ids, masks);
      DrainMasks(q[1..], ids, now.masks);
      if q[0].callback == CitiesUpdate {
        assert Cleared(Cleared(masks)) == Cleared(masks);
      }
    }
  }

  /**
   * However many times it was queued, the cities callback serves each dirty
   * city once, with the bits it had when the drain began; a drain without it
   * refreshes no city.
   */
  lemma {:induction false} DrainRefreshes(q: seq<Entry>, ids: seq<nat>, masks: seq<UpdateMask>)
    requires |ids| == |masks|
    ensures Refreshes(Drain(q, ids, masks).events) == if Contains(q, CitiesUpdate) then CityActions(ids, masks) else []
  {
    if q != [] {
      var now := Invoke(q[0], ids, masks);
      var later := Drain(q[1..], ids, now.masks);
      DrainRefreshes(q[1..], ids, now.masks);
      InvokeKinds(q[0], ids, masks);
      ReleaseKinds(q[0]);
      RefreshesAppend(now.events, Release(q[0]));
      RefreshesAppend(now.events + Release(q[0]), later.events);
      if q[0].callback == CitiesUpdate && Contains(q[1..], CitiesUpdate) {
        CleanCitiesNoActions(ids, Cleared(masks));
      }
    }
  }

  /**
   * A push made while no drain is pending (always the case outside a callback)
   * runs the whole queue: it ends empty, every entry of the pushed queue is
   * invoked once in order and released, and the guard is down again.
   */
  lemma TopLevelPushDrains(wq: Entry, ids: seq<nat>, s: Snapshot, s': Snapshot)
    requires PushStep(wq, ids, s, s') && !s.hasIdleCb
    ensures s'.queue == [] && !s'.hasIdleCb
    ensures |s'.trace| >= |s.trace| && s'.trace[..|s.trace|] == s.trace
    ensures Invocations(s'.trace[|s.trace|..]) == Requests(Pushed(s.queue, wq))
    ensures Frees(s'.trace[|s.trace|..]) == ReleaseAll(Pushed(s.queue, wq))
  {
    var drained := Drain(Pushed(s.queue, wq), ids, s.masks);
    assert s'.trace[|s.trace|..] == drained.events;
    DrainCallsEachOnce(Pushed(s.queue, wq), ids, s.masks);
    DrainFreesQueued(Pushed(s.queue, wq), ids, s.masks);
  }

  /**
   * Draining a lone cities callback when only city k is dirty: one invocation,
   * then exactly the actions city k is owed, and every city ends clean.
   */
  lemma DrainLoneCitiesCall(ids: seq<nat>, masks: seq<UpdateMask>, k: nat)
    requires |ids| == |masks| && k < |ids|
    requires forall i :: 0 <= i < |masks| && i != k ==> masks[i] == NoUpdate
    ensures Drain([Entry(CitiesUpdate, None, None)], ids, masks)
      == Effects([Invoked(CitiesUpdate, None)] + ActionsFor(ids[k], masks[k]), Cleared(masks))
  {
    var cu := Entry(CitiesUpdate, None, None);
    CityActionsSingle(ids, masks, k);
    assert [cu][1..] == [];
    var now := Invoke(cu, ids, masks);
    assert Drain([cu], ids, masks).events == now.events + Release(cu) + [];
  }

  /** An action owed for one bit is owed for any mask that has the bit. */
  lemma ActionOfBit(id: nat, bit: UpdateMask, m: UpdateMask, e: Event)
    requires IsUpdateBit(bit) && Has(m, bit) && e in ActionsFor(id, bit)
    ensures e in ActionsFor(id, m)
  {
  }

  // ---------------------------------------------------------------------------
  // The waiting table and teardown

  /** connect_processing_finished_unique registers (callback, data) once, however often it is called. */
  lemma UniqueRequestIdempotent(t: Table, id: int, cb: Callback, data: Option<nat>)
    ensures IsWaiting(WithUniqueRequest(t, id, cb, data), id, cb, data)
    ensures WithUniqueRequest(WithUniqueRequest(t, id, cb, data), id, cb, data) == WithUniqueRequest(t, id, cb, data)
    ensures IsWaiting(t, id, cb, data) ==> WithUniqueRequest(t, id, cb, data) == t
    ensures !IsWaiting(t, id, cb, data) ==> WithUniqueRequest(t, id, cb, data) == WithRequest(t, id, Entry(cb, data, None))
  {
    if !IsWaiting(t, id, cb, data) {
      var r := WithRequest(t, id, Entry(cb, data, None));
      var n := |Waiters(t, id)|;
      assert Waiters(r, id)[n] == Entry(cb, data, None);
    }
  }

  /** Teardown frees what is owned and invokes nothing, whatever the key order. */
  lemma {:induction false} ReleaseListsOnlyFrees(t: Table, ks: seq<int>)
    requires forall k :: k in ks ==> k in t
    ensures Invocations(ReleaseLists(t, ks)) == []
    ensures Frees(ReleaseLists(t, ks)) == ReleaseLists(t, ks)
  {
    if ks != [] {
      var n := |ks| - 1;
      var last := ks[n];
      assert last in ks;
      ReleaseListsOnlyFrees(t, ks[..n]);
      ReleaseAllOnlyFrees(t[last]);
      InvocationsAppend(ReleaseLists(t, ks[..n]), ReleaseAll(t[last]));
      FreesAppend(ReleaseLists(t, ks[..n]), ReleaseAll(t[last]));
    }
  }

  /** What init appends to the trace: free-function calls only. */
  lemma InitInvokesNothing(q: seq<Entry>, t: Table, ks: seq<int>)
    requires forall k :: k in ks ==> k in t
    ensures Invocations(ReleaseAll(q) + ReleaseLists(t, ks)) == []
    ensures Frees(ReleaseAll(q) + ReleaseLists(t, ks)) == ReleaseAll(q) + ReleaseLists(t, ks)
  {
    ReleaseAllOnlyFrees(q);
    ReleaseListsOnlyFrees(t, ks);
    InvocationsAppend(ReleaseAll(q), ReleaseLists(t, ks));
    FreesAppend(ReleaseAll(q), ReleaseLists(t, ks));
  }

  /** wq_data_destroy nulls what it frees, so destroying an entry twice frees once. */
  lemma DestroyTwiceFreesOnce(e: Entry)
    ensures Release(e) + Release(Destroyed(e)) == Release(e)
    ensures Destroyed(Destroyed(e)) == Destroyed(e)
  {
  }
}
