/**
 * The city coalescing pattern of client/update_queue.cpp: each city carries a
 * `need_updates` mask of owed refreshes, and the single queued callback
 * `cities_update_callback` clears every dirty mask and performs the owed
 * refreshes in a fixed order.
 */
module CityUpdates {
  import opened UpdateTypes

  /** enum city_updates (declared in city.h), stored in `pcity->client.need_updates`. */
  type UpdateMask = bv8

  const NoUpdate: UpdateMask := 0      // CU_NO_UPDATE
  const UpdateReport: UpdateMask := 1  // CU_UPDATE_REPORT
  const UpdateDialog: UpdateMask := 2  // CU_UPDATE_DIALOG
  const PopupDialog: UpdateMask := 4   // CU_POPUP_DIALOG

  predicate IsUpdateBit(bit: UpdateMask)
  {
    bit == UpdateReport || bit == UpdateDialog || bit == PopupDialog
  }

  predicate Has(mask: UpdateMask, bit: UpdateMask)
  {
    mask & bit != 0
  }

  /** The mask after ORing one update bit into it, as the three city-marking functions do. */
  function Mark(mask: UpdateMask, bit: UpdateMask): (r: UpdateMask)
    requires IsUpdateBit(bit)
    ensures Has(r, bit) && r != NoUpdate
    ensures r & !bit == mask & !bit
    ensures forall b :: IsUpdateBit(b) ==> (Has(r, b) <==> b == bit || Has(mask, b))
  {
    mask | bit
  }

  /** The masks after marking `city` with `bit`: every position holding that city is marked. */
  function MarkedMasks(masks: seq<UpdateMask>, cities: seq<City>, city: City, bit: UpdateMask): (r: seq<UpdateMask>)
    requires |masks| == |cities| && IsUpdateBit(bit)
    ensures |r| == |masks|
    ensures forall i :: 0 <= i < |r| ==> r[i] == if cities[i] == city then Mark(masks[i], bit) else masks[i]
  {
    seq(|masks|, i requires 0 <= i < |masks| => if cities[i] == city then Mark(masks[i], bit) else masks[i])
  }

  /** A city record; only the field the update queue touches is modelled. */
  class City {
    const id: nat
    var needUpdates: UpdateMask

    constructor (id: nat)
      ensures this.id == id && needUpdates == NoUpdate
    {
      this.id := id;
      needUpdates := NoUpdate;
    }
  }

  /** cities_iterate visits every city once. */
  predicate Distinct(cities: seq<City>)
  {
    forall i, j :: 0 <= i < j < |cities| ==> cities[i] != cities[j]
  }

  function Ids(cities: seq<City>): (r: seq<nat>)
    ensures |r| == |cities|
    ensures forall i :: 0 <= i < |cities| ==> r[i] == cities[i].id
  {
    seq(|cities|, i requires 0 <= i < |cities| => cities[i].id)
  }

  ghost function Masks(cities: seq<City>): (r: seq<UpdateMask>)
    reads cities
    ensures |r| == |cities|
    ensures forall i :: 0 <= i < |cities| ==> r[i] == cities[i].needUpdates
  {
    seq(|cities|, i reads cities requires 0 <= i < |cities| => cities[i].needUpdates)
  }

  /** Every mask cleared, as cities_update_callback leaves them. */
  function Cleared(masks: seq<UpdateMask>): (r: seq<UpdateMask>)
    ensures |r| == |masks|
    ensures forall i :: 0 <= i < |r| ==> r[i] == NoUpdate
  {
    seq(|masks|, _ => NoUpdate)
  }

  predicate IsCityAction(e: Event)
  {
    e.CityReportUpdated? || e.CityDialogRefreshed? || e.CityDialogPopped?
  }

  /** The position of an action in the fixed order report, dialog refresh, popup. */
  function Rank(e: Event): nat
  {
    match e
    case CityReportUpdated(_) => 0
    case CityDialogRefreshed(_) => 1
    case CityDialogPopped(_) => 2
    case _ => 3
  }

  /** The refreshes owed to one city: one per set bit, report before dialog refresh before popup. */
  function ActionsFor(id: nat, mask: UpdateMask): (r: seq<Event>)
    ensures mask == NoUpdate ==> r == []
    ensures forall e :: e in r ==> IsCityAction(e) && e.city == id
    ensures CityReportUpdated(id) in r <==> Has(mask, UpdateReport)
    ensures CityDialogRefreshed(id) in r <==> Has(mask, UpdateDialog)
    ensures CityDialogPopped(id) in r <==> Has(mask, PopupDialog)
    ensures forall i, j :: 0 <= i < j < |r| ==> Rank(r[i]) < Rank(r[j])
  {
    (if Has(mask, UpdateReport) then [CityReportUpdated(id)] else [])
    + (if Has(mask, UpdateDialog) then [CityDialogRefreshed(id)] else [])
    + (if Has(mask, PopupDialog) then [CityDialogPopped(id)] else [])
  }

  /** The refreshes cities_update_callback performs, city by city in iteration order. */
  function CityActions(ids: seq<nat>, masks: seq<UpdateMask>): (r: seq<Event>)
    requires |ids| == |masks|
    ensures forall e :: e in r ==> IsCityAction(e)
  {
    if ids == [] then []
    else CityActions(ids[..|ids| - 1], masks[..|masks| - 1]) + ActionsFor(ids[|ids| - 1], masks[|masks| - 1])
  }

  /** The body of the cities_iterate loop for one city: clear a dirty mask, then refresh. */
  method ServeCity(city: City) returns (owed: seq<Event>)
    modifies city
    ensures city.needUpdates == NoUpdate
    ensures owed == ActionsFor(city.id, old(city.needUpdates))
  {
    var needUpdate := city.needUpdates;
    owed := [];
    if needUpdate == NoUpdate {
      return;
    }
    city.needUpdates := NoUpdate;
    if Has(needUpdate, UpdateReport) {
      owed := owed + [CityReportUpdated(city.id)];
    }
    if Has(needUpdate, UpdateDialog) {
      owed := owed + [CityDialogRefreshed(city.id)];
    }
    if Has(needUpdate, PopupDialog) {
      owed := owed + [CityDialogPopped(city.id)];
    }
  }

  /**
   * cities_update_callback: every city whose mask is not CU_NO_UPDATE gets its
   * mask cleared and then its owed refreshes, in the fixed order; clean cities
   * are skipped.
   */
  method CitiesUpdateCallback(cities: seq<City>) returns (actions: seq<Event>)
    requires Distinct(cities)
    modifies cities
    ensures Masks(cities) == Cleared(old(Masks(cities)))
    ensures actions == CityActions(Ids(cities), old(Masks(cities)))
  {
    ghost var before := Masks(cities);
    ghost var ids := Ids(cities);
    actions := [];
    var i := 0;
    while i < |cities|
      invariant 0 <= i <= |cities|
      invariant forall j :: 0 <= j < |cities| ==> cities[j].needUpdates == if j < i then NoUpdate else before[j]
      invariant actions == CityActions(ids[..i], before[..i])
    {
      var owed := ServeCity(cities[i]);
      CityActionsSnoc(ids, before, i);
      actions := actions + owed;
      i := i + 1;
    }
    assert ids[..i] == ids && before[..i] == before;
    assert Masks(cities) == Cleared(before);
  }

  lemma CityActionsSnoc(ids: seq<nat>, masks: seq<UpdateMask>, i: nat)
    requires |ids| == |masks| && i < |ids|
    ensures CityActions(ids[..i + 1], masks[..i + 1]) == CityActions(ids[..i], masks[..i]) + ActionsFor(ids[i], masks[i])
  {
    assert ids[..i + 1][..i] == ids[..i] && masks[..i + 1][..i] == masks[..i];
  }

  /** City refreshes are neither callback invocations nor free-function calls. */
  lemma {:induction false} CityEventsOnly(t: seq<Event>)
    requires forall e :: e in t ==> IsCityAction(e)
    ensures Invocations(t) == [] && Frees(t) == []
  {
    if t != [] {
      assert t[0] in t;
      CityEventsOnly(t[1..]);
    }
  }

  /** Every action of the callback is a city refresh. */
  lemma {:induction false} CityActionsAreCityEvents(ids: seq<nat>, masks: seq<UpdateMask>)
    requires |ids| == |masks|
    ensures forall e :: e in CityActions(ids, masks) ==> IsCityAction(e)
    ensures Invocations(CityActions(ids, masks)) == [] && Frees(CityActions(ids, masks)) == []
  {
    if ids != [] {
      CityActionsAreCityEvents(ids[..|ids| - 1], masks[..|masks| - 1]);
    }
    CityEventsOnly(CityActions(ids, masks));
  }

  /** Only a city with owed refreshes contributes actions: clean cities add nothing. */
  lemma {:induction false} CleanCitiesNoActions(ids: seq<nat>, masks: seq<UpdateMask>)
    requires |ids| == |masks|
    requires forall i :: 0 <= i < |masks| ==> masks[i] == NoUpdate
    ensures CityActions(ids, masks) == []
  {
    if ids != [] {
      CleanCitiesNoActions(ids[..|ids| - 1], masks[..|masks| - 1]);
    }
  }

  /** The actions are city actions only, and each action's city has a set bit for it. */
  lemma {:induction false} CityActionsOwed(ids: seq<nat>, masks: seq<UpdateMask>, e: Event)
    requires |ids| == |masks|
    requires e in CityActions(ids, masks)
    ensures IsCityAction(e)
    ensures exists i :: 0 <= i < |ids| && ids[i] == e.city && e in ActionsFor(ids[i], masks[i])
  {
    var n := |ids| - 1;
    if e in ActionsFor(ids[n], masks[n]) {
    } else {
      CityActionsOwed(ids[..n], masks[..n], e);
      var i :| 0 <= i < n && ids[..n][i] == e.city && e in ActionsFor(ids[..n][i], masks[..n][i]);
      assert ids[i] == e.city && e in ActionsFor(ids[i], masks[i]);
    }
  }

  /** When only one city is dirty, the callback performs exactly that city's actions. */
  lemma {:induction false} CityActionsSingle(ids: seq<nat>, masks: seq<UpdateMask>, k: nat)
    requires |ids| == |masks| && k < |ids|
    requires forall i :: 0 <= i < |masks| && i != k ==> masks[i] == NoUpdate
    ensures CityActions(ids, masks) == ActionsFor(ids[k], masks[k])
  {
    var n := |ids| - 1;
    assert CityActions(ids, masks) == CityActions(ids[..n], masks[..n]) + ActionsFor(ids[n], masks[n]);
    if k == n {
      CleanCitiesNoActions(ids[..n], masks[..n]);
    } else {
      assert masks[n] == NoUpdate && ActionsFor(ids[n], masks[n]) == [];
      assert ids[..n][k] == ids[k] && masks[..n][k] == masks[k];
      CityActionsSingle(ids[..n], masks[..n], k);
    }
  }

  /** Every set bit of every city is served by the callback. */
  lemma {:induction false} CityActionsServe(ids: seq<nat>, masks: seq<UpdateMask>, i: nat)
    requires |ids| == |masks| && i < |ids|
    ensures forall e :: e in ActionsFor(ids[i], masks[i]) ==> e in CityActions(ids, masks)
  {
    var n := |ids| - 1;
    assert CityActions(ids, masks) == CityActions(ids[..n], masks[..n]) + ActionsFor(ids[n], masks[n]);
    if i < n {
      assert ids[..n][i] == ids[i] && masks[..n][i] == masks[i];
      CityActionsServe(ids[..n], masks[..n], i);
    }
  }
}
