/**
 * The values the update queue stores and the foreign effects it causes.
 *
 * A callback is identified by the function it points to; the callbacks that
 * client/update_queue.cpp itself queues get one constructor each, every other
 * caller's callback is `Foreign(id)`. Opaque `void *` payloads and free
 * functions are numbers: two of them are the same pointer iff the numbers are
 * equal.
 */
module UpdateTypes {
  import opened Wrappers

  datatype Callback =
    | SetClientPage              // set_client_page_callback
    | MenusInit                  // the lambda queued by menus_init
    | MenusUpdate                // menus_update_callback
    | MultipliersDialogUpdate    // real_multipliers_dialog_update
    | CitiesUpdate               // cities_update_callback
    | ConnListDialogUpdate       // real_conn_list_dialog_update
    | PlayersDialogUpdate        // real_players_dialog_update
    | CityReportDialogUpdate     // real_city_report_dialog_update
    | ScienceReportDialogUpdate  // real_science_report_dialog_update
    | EconomyReportDialogUpdate  // real_economy_report_dialog_update
    | UnitsReportDialogUpdate    // real_units_report_dialog_update
    | UnitSelectDialogUpdate     // unit_select_dialog_update_real
    | Foreign(id: nat)           // a callback defined elsewhere in the client

  /** waiting_queue_data: a callback, its data and the function that frees the data. */
  datatype Entry = Entry(callback: Callback, data: Option<nat>, freeData: Option<nat>)

  /** One call out of the queue into code that is not modelled, in the order it happens. */
  datatype Event =
    | Invoked(callback: Callback, data: Option<nat>)  // wq.callback(wq.data)
    | Freed(fn: nat, payload: nat)                    // wq.free_data_func(wq.data)
    | CityReportUpdated(city: nat)                    // real_city_report_update_city
    | CityDialogRefreshed(city: nat)                  // real_city_dialog_refresh
    | CityDialogPopped(city: nat)                     // real_city_dialog_popup

  /** An entry whose data is owned by it: wq_data_destroy will call its free function. */
  predicate Owns(e: Entry)
  {
    e.data.Some? && e.freeData.Some?
  }

  /** What wq_data_destroy calls: the free function, only when data and free function are both set. */
  function Release(e: Entry): (r: seq<Event>)
    ensures |r| <= 1
    ensures r != [] <==> Owns(e)
    ensures Owns(e) ==> r == [Freed(e.freeData.value, e.data.value)]
  {
    if Owns(e) then [Freed(e.freeData.value, e.data.value)] else []
  }

  /** The entry wq_data_destroy leaves behind: data and free function nulled. */
  function Destroyed(e: Entry): (r: Entry)
    ensures r.callback == e.callback
    ensures !Owns(r) && Release(r) == []
  {
    e.(data := None, freeData := None)
  }

  /** Releasing every entry of `q`, front to back, without invoking any callback. */
  function ReleaseAll(q: seq<Entry>): (r: seq<Event>)
    ensures |r| <= |q|
    ensures forall e :: e in r ==> e.Freed?
  {
    if q == [] then [] else Release(q[0]) + ReleaseAll(q[1..])
  }

  /** The callback invocations recorded in a trace, in order. */
  function Invocations(t: seq<Event>): seq<Event>
  {
    if t == [] then []
    else (if t[0].Invoked? then [t[0]] else []) + Invocations(t[1..])
  }

  /** The free-function calls recorded in a trace, in order. */
  function Frees(t: seq<Event>): seq<Event>
  {
    if t == [] then []
    else (if t[0].Freed? then [t[0]] else []) + Frees(t[1..])
  }

  /** The invocations a queue asks for: each entry's callback on its data, front to back. */
  function Requests(q: seq<Entry>): (r: seq<Event>)
    ensures |r| == |q|
    ensures forall i :: 0 <= i < |q| ==> r[i] == Invoked(q[i].callback, q[i].data)
  {
    if q == [] then [] else [Invoked(q[0].callback, q[0].data)] + Requests(q[1..])
  }

  lemma AppendAssoc<T>(a: seq<T>, b: seq<T>, c: seq<T>)
    ensures (a + b) + c == a + (b + c)
  {
  }

  lemma {:induction false} InvocationsAppend(a: seq<Event>, b: seq<Event>)
    ensures Invocations(a + b) == Invocations(a) + Invocations(b)
  {
    if a != [] {
      assert (a + b)[1..] == a[1..] + b;
      InvocationsAppend(a[1..], b);
    } else {
      assert a + b == b;
    }
  }

  lemma {:induction false} FreesAppend(a: seq<Event>, b: seq<Event>)
    ensures Frees(a + b) == Frees(a) + Frees(b)
  {
    if a != [] {
      assert (a + b)[1..] == a[1..] + b;
      FreesAppend(a[1..], b);
    } else {
      assert a + b == b;
    }
  }

  /** Releasing entries invokes no callback and records nothing but free-function calls. */
  lemma {:induction false} ReleaseAllOnlyFrees(q: seq<Entry>)
    ensures Invocations(ReleaseAll(q)) == []
    ensures Frees(ReleaseAll(q)) == ReleaseAll(q)
  {
    if q != [] {
      ReleaseAllOnlyFrees(q[1..]);
      InvocationsAppend(Release(q[0]), ReleaseAll(q[1..]));
      FreesAppend(Release(q[0]), ReleaseAll(q[1..]));
    }
  }

  /** The entries of `q` that own their data, in queue order. */
  function Owning(q: seq<Entry>): (r: seq<Entry>)
    ensures |r| <= |q|
    ensures forall e :: e in r <==> e in q && Owns(e)
    ensures forall j :: 0 <= j < |r| ==> Owns(r[j])
  {
    if q == [] then []
    else (if Owns(q[0]) then [q[0]] else []) + Owning(q[1..])
  }

  /**
   * ReleaseAll frees exactly the owning entries, each once, in queue order:
   * its j-th event is the free of the j-th owning entry, and nothing else is freed.
   */
  lemma {:induction false} ReleaseAllFreesOwned(q: seq<Entry>)
    ensures |ReleaseAll(q)| == |Owning(q)|
    ensures forall j :: 0 <= j < |ReleaseAll(q)| ==>
      ReleaseAll(q)[j] == Freed(Owning(q)[j].freeData.value, Owning(q)[j].data.value)
  {
    if q != [] {
      ReleaseAllFreesOwned(q[1..]);
      var rest := ReleaseAll(q[1..]);
      var own := Owning(q[1..]);
      if Owns(q[0]) {
        assert ReleaseAll(q) == [Freed(q[0].freeData.value, q[0].data.value)] + rest;
        assert Owning(q) == [q[0]] + own;
        assert |ReleaseAll(q)| == |Owning(q)|;
        assert ReleaseAll(q)[0] == Freed(Owning(q)[0].freeData.value, Owning(q)[0].data.value);
        forall j | 1 <= j < |ReleaseAll(q)|
          ensures ReleaseAll(q)[j] == Freed(Owning(q)[j].freeData.value, Owning(q)[j].data.value)
        {
          assert ReleaseAll(q)[j] == rest[j - 1] && Owning(q)[j] == own[j - 1];
        }
      } else {
        assert ReleaseAll(q) == rest && Owning(q) == own;
      }
    }
  }

  /** A list in which no entry owns its data is released without any call. */
  lemma {:induction false} ReleaseAllNoOwners(q: seq<Entry>)
    requires forall i :: 0 <= i < |q| ==> !Owns(q[i])
    ensures ReleaseAll(q) == []
  {
    if q != [] {
      assert !Owns(q[0]);
      assert forall i :: 0 <= i < |q[1..]| ==> q[1..][i] == q[i + 1];
      ReleaseAllNoOwners(q[1..]);
    }
  }

  /** Every owning entry of the list has its free function called on its data. */
  lemma {:induction false} ReleaseAllFreesEachOwner(q: seq<Entry>)
    ensures forall i :: 0 <= i < |q| && Owns(q[i]) ==> Freed(q[i].freeData.value, q[i].data.value) in ReleaseAll(q)
  {
    if q != [] {
      ReleaseAllFreesEachOwner(q[1..]);
      forall i | 1 <= i < |q| && Owns(q[i])
        ensures Freed(q[i].freeData.value, q[i].data.value) in ReleaseAll(q)
      {
        assert q[1..][i - 1] == q[i];
      }
    }
  }
}
