/**
 * The client-side requests of client/update_queue.cpp: each asks the update
 * queue for a deferred GUI refresh. The queue is passed in explicitly rather
 * than reached through the `update_queue::uq()` singleton.
 */
module ClientRequests {
  import opened Wrappers
  import T = UpdateTypes
  import C = CityUpdates
  import Q = DeferredQueue
  import QP = QueueProperties

  /** `enum client_pages`, as a number. */
  type ClientPage = nat

  const PageMain: ClientPage := 0

  /** The file-level `next_client_page`: the page the next page switch shows. */
  class PageRequest {
    var next: ClientPage

    constructor()
      ensures next == PageMain
    {
      next := PageMain;
    }
  }

  /** An entry with no data and no free function, as `add` pushes. */
  function Plain(cb: T.Callback): (e: T.Entry)
    ensures e.callback == cb && !T.Owns(e) && T.Release(e) == []
  {
    T.Entry(cb, None, None)
  }

  // ---------------------------------------------------------------------------
  // Pages

  /** set_client_page: remember the page, then ask for the switch. */
  method SetClientPage(pages: PageRequest, uq: Q.UpdateQueue, cities: seq<C.City>, page: ClientPage)
    requires C.Distinct(cities)
    modifies pages, uq, cities
    ensures pages.next == page
    ensures Q.PushStep(Plain(T.SetClientPage), C.Ids(cities), old(uq.Snap(cities)), uq.Snap(cities))
    ensures uq.waiting == old(uq.waiting)
  {
    pages.next := page;
    uq.Add(T.SetClientPage, cities);
  }

  /**
   * client_start_server_and_set_page: when the server starts, remember the page
   * and switch to it once the request `lastRequestId` is processed; otherwise
   * nothing changes. Starting the server is the outcome `serverStarted`.
   */
  method ClientStartServerAndSetPage(pages: PageRequest, uq: Q.UpdateQueue, page: ClientPage,
                                     serverStarted: bool, lastRequestId: int)
    modifies pages, uq
    ensures serverStarted ==> pages.next == page
    ensures serverStarted ==> uq.waiting == Q.WithRequest(old(uq.waiting), lastRequestId, Plain(T.SetClientPage))
    ensures !serverStarted ==> pages.next == old(pages.next) && uq.waiting == old(uq.waiting)
    ensures uq.queue == old(uq.queue) && uq.hasIdleCb == old(uq.hasIdleCb) && uq.trace == old(uq.trace)
  {
    if serverStarted {
      pages.next := page;
      uq.ConnectProcessingFinished(lastRequestId, T.SetClientPage, None);
    }
  }

  /** update_queue_is_switching_page: whether a page switch is queued. */
  function IsSwitchingPage(uq: Q.UpdateQueue): (b: bool)
    reads uq
    ensures b <==> exists i :: 0 <= i < |uq.queue| && uq.queue[i].callback == T.SetClientPage
  {
    uq.HasCallback(T.SetClientPage)
  }

  /**
   * get_client_page: the page a queued switch will show, else the page shown
   * now (`currentPage`, what get_current_client_page reports).
   */
  function GetClientPage(pages: PageRequest, uq: Q.UpdateQueue, currentPage: ClientPage): (p: ClientPage)
    reads pages, uq
    ensures IsSwitchingPage(uq) ==> p == pages.next
    ensures !IsSwitchingPage(uq) ==> p == currentPage
  {
    if uq.HasCallback(T.SetClientPage) then pages.next else currentPage
  }

  /**
   * A page switch registered on a request is queued once the request is
   * processed, whatever was queued or waiting before.
   */
  lemma SwitchQueuedWhenProcessed(queue: seq<T.Entry>, waiting: Q.Table, id: int)
    ensures var w := Q.WithRequest(waiting, id, Plain(T.SetClientPage));
      id in w && Q.Contains(queue + w[id], T.SetClientPage)
  {
    var w := Q.WithRequest(waiting, id, Plain(T.SetClientPage));
    var r := queue + w[id];
    assert r[|r| - 1] == Plain(T.SetClientPage);
  }

  // ---------------------------------------------------------------------------
  // Menus and dialogs

  /** menus_init: queue the menu initialisation (which also updates them). */
  method MenusInit(uq: Q.UpdateQueue, cities: seq<C.City>)
    requires C.Distinct(cities)
    modifies uq, cities
    ensures Q.PushStep(Plain(T.MenusInit), C.Ids(cities), old(uq.Snap(cities)), uq.Snap(cities))
    ensures uq.waiting == old(uq.waiting)
  {
    uq.Add(T.MenusInit, cities);
  }

  /** menus_update: queue the menu update only when it is not queued already. */
  method MenusUpdate(uq: Q.UpdateQueue, cities: seq<C.City>)
    requires C.Distinct(cities)
    modifies uq, cities
    ensures old(uq.HasCallback(T.MenusUpdate)) ==> uq.Snap(cities) == old(uq.Snap(cities))
    ensures !old(uq.HasCallback(T.MenusUpdate)) ==>
      Q.PushStep(Plain(T.MenusUpdate), C.Ids(cities), old(uq.Snap(cities)), uq.Snap(cities))
    ensures uq.waiting == old(uq.waiting)
  {
    if !uq.HasCallback(T.MenusUpdate) {
      uq.Add(T.MenusUpdate, cities);
    }
  }

  /**
   * When menus_update finds the update absent, the queue it pushes onto has no
   * menu update, so the one it adds is the only one: nothing is displaced.
   */
  lemma MenusUpdateDisplacesNothing(queue: seq<T.Entry>)
    requires !Q.Contains(queue, T.MenusUpdate)
    ensures Q.Pushed(queue, Plain(T.MenusUpdate)) == queue + [Plain(T.MenusUpdate)]
  {
  }

  /** multipliers_dialog_update. */
  method MultipliersDialogUpdate(uq: Q.UpdateQueue, cities: seq<C.City>)
    requires C.Distinct(cities)
    modifies uq, cities
    ensures Q.PushStep(Plain(T.MultipliersDialogUpdate), C.Ids(cities), old(uq.Snap(cities)), uq.Snap(cities))
    ensures uq.waiting == old(uq.waiting)
  {
    uq.Add(T.MultipliersDialogUpdate, cities);
  }

  /** conn_list_dialog_update. */
  method ConnListDialogUpdate(uq: Q.UpdateQueue, cities: seq<C.City>)
    requires C.Distinct(cities)
    modifies uq, cities
    ensures Q.PushStep(Plain(T.ConnListDialogUpdate), C.Ids(cities), old(uq.Snap(cities)), uq.Snap(cities))
    ensures uq.waiting == old(uq.waiting)
  {
    uq.Add(T.ConnListDialogUpdate, cities);
  }

  /** players_dialog_update. */
  method PlayersDialogUpdate(uq: Q.UpdateQueue, cities: seq<C.City>)
    requires C.Distinct(cities)
    modifies uq, cities
    ensures Q.PushStep(Plain(T.PlayersDialogUpdate), C.Ids(cities), old(uq.Snap(cities)), uq.Snap(cities))
    ensures uq.waiting == old(uq.waiting)
  {
    uq.Add(T.PlayersDialogUpdate, cities);
  }

  /** city_report_dialog_update. */
  method CityReportDialogUpdate(uq: Q.UpdateQueue, cities: seq<C.City>)
    requires C.Distinct(cities)
    modifies uq, cities
    ensures Q.PushStep(Plain(T.CityReportDialogUpdate), C.Ids(cities), old(uq.Snap(cities)), uq.Snap(cities))
    ensures uq.waiting == old(uq.waiting)
  {
    uq.Add(T.CityReportDialogUpdate, cities);
  }

  /** science_report_dialog_update. */
  method ScienceReportDialogUpdate(uq: Q.UpdateQueue, cities: seq<C.City>)
    requires C.Distinct(cities)
    modifies uq, cities
    ensures Q.PushStep(Plain(T.ScienceReportDialogUpdate), C.Ids(cities), old(uq.Snap(cities)), uq.Snap(cities))
    ensures uq.waiting == old(uq.waiting)
  {
    uq.Add(T.ScienceReportDialogUpdate, cities);
  }

  /** economy_report_dialog_update. */
  method EconomyReportDialogUpdate(uq: Q.UpdateQueue, cities: seq<C.City>)
    requires C.Distinct(cities)
    modifies uq, cities
    ensures Q.PushStep(Plain(T.EconomyReportDialogUpdate), C.Ids(cities), old(uq.Snap(cities)), uq.Snap(cities))
    ensures uq.waiting == old(uq.waiting)
  {
    uq.Add(T.EconomyReportDialogUpdate, cities);
  }

  /** units_report_dialog_update. */
  method UnitsReportDialogUpdate(uq: Q.UpdateQueue, cities: seq<C.City>)
    requires C.Distinct(cities)
    modifies uq, cities
    ensures Q.PushStep(Plain(T.UnitsReportDialogUpdate), C.Ids(cities), old(uq.Snap(cities)), uq.Snap(cities))
    ensures uq.waiting == old(uq.waiting)
  {
    uq.Add(T.UnitsReportDialogUpdate, cities);
  }

  /** unit_select_dialog_update. */
  method UnitSelectDialogUpdate(uq: Q.UpdateQueue, cities: seq<C.City>)
    requires C.Distinct(cities)
    modifies uq, cities
    ensures Q.PushStep(Plain(T.UnitSelectDialogUpdate), C.Ids(cities), old(uq.Snap(cities)), uq.Snap(cities))
    ensures uq.waiting == old(uq.waiting)
  {
    uq.Add(T.UnitSelectDialogUpdate, cities);
  }

  // ---------------------------------------------------------------------------
  // Marking a city

  /**
   * What a city-marking request does: `city` gets `bit` added to its mask, and
   * the cities callback is pushed from the state with that mark in place.
   */
  ghost predicate MarkedThenPushed(cities: seq<C.City>, city: C.City, bit: C.UpdateMask,
                                   before: Q.Snapshot, cityBefore: C.UpdateMask,
                                   after: Q.Snapshot, cityAfter: C.UpdateMask)
    requires C.IsUpdateBit(bit)
  {
    && |before.masks| == |cities|
    && Q.PushStep(Plain(T.CitiesUpdate), C.Ids(cities),
                  before.(masks := C.MarkedMasks(before.masks, cities, city, bit)), after)
    && (city !in cities ==> cityAfter == C.Mark(cityBefore, bit))
  }

  method MarkCity(uq: Q.UpdateQueue, cities: seq<C.City>, city: C.City, bit: C.UpdateMask)
    requires C.Distinct(cities) && C.IsUpdateBit(bit)
    modifies uq, cities, city
    ensures MarkedThenPushed(cities, city, bit, old(uq.Snap(cities)), old(city.needUpdates), uq.Snap(cities), city.needUpdates)
    ensures uq.waiting == old(uq.waiting)
  {
    ghost var before := uq.Snap(cities);
    city.needUpdates := C.Mark(city.needUpdates, bit);
    assert uq.Snap(cities) == before.(masks := C.MarkedMasks(before.masks, cities, city, bit));
    uq.Add(T.CitiesUpdate, cities);
  }

  /** popup_city_dialog: mark the city for a dialog popup, queue the cities callback. */
  method PopupCityDialog(uq: Q.UpdateQueue, cities: seq<C.City>, city: C.City)
    requires C.Distinct(cities)
    modifies uq, cities, city
    ensures MarkedThenPushed(cities, city, C.PopupDialog, old(uq.Snap(cities)), old(city.needUpdates), uq.Snap(cities), city.needUpdates)
    ensures uq.waiting == old(uq.waiting)
  {
    MarkCity(uq, cities, city, C.PopupDialog);
  }

  /** refresh_city_dialog: mark the city for a dialog refresh, queue the cities callback. */
  method RefreshCityDialog(uq: Q.UpdateQueue, cities: seq<C.City>, city: C.City)
    requires C.Distinct(cities)
    modifies uq, cities, city
    ensures MarkedThenPushed(cities, city, C.UpdateDialog, old(uq.Snap(cities)), old(city.needUpdates), uq.Snap(cities), city.needUpdates)
    ensures uq.waiting == old(uq.waiting)
  {
    MarkCity(uq, cities, city, C.UpdateDialog);
  }

  /** city_report_dialog_update_city: mark the city for a report row update, queue the cities callback. */
  method CityReportDialogUpdateCity(uq: Q.UpdateQueue, cities: seq<C.City>, city: C.City)
    requires C.Distinct(cities)
    modifies uq, cities, city
    ensures MarkedThenPushed(cities, city, C.UpdateReport, old(uq.Snap(cities)), old(city.needUpdates), uq.Snap(cities), city.needUpdates)
    ensures uq.waiting == old(uq.waiting)
  {
    MarkCity(uq, cities, city, C.UpdateReport);
  }

  /**
   * A city marked outside any callback is served by the drain the marking
   * request runs: the action for its bit is performed and every city ends clean.
   */
  lemma MarkedCityIsServed(cities: seq<C.City>, k: nat, bit: C.UpdateMask,
                           before: Q.Snapshot, cityBefore: C.UpdateMask,
                           after: Q.Snapshot, cityAfter: C.UpdateMask)
    requires C.Distinct(cities) && C.IsUpdateBit(bit) && k < |cities|
    requires !before.hasIdleCb
    requires MarkedThenPushed(cities, cities[k], bit, before, cityBefore, after, cityAfter)
    ensures after.queue == [] && !after.hasIdleCb
    ensures after.masks == C.Cleared(before.masks)
    ensures |after.trace| >= |before.trace| && after.trace[..|before.trace|] == before.trace
    ensures forall e :: e in C.ActionsFor(cities[k].id, bit) ==> e in after.trace[|before.trace|..]
  {
    var ids := C.Ids(cities);
    var cu := Plain(T.CitiesUpdate);
    var marked := C.MarkedMasks(before.masks, cities, cities[k], bit);
    var q := Q.Pushed(before.queue, cu);
    var drained := Q.Drain(q, ids, marked);
    assert after.trace == before.trace + drained.events;
    assert after.trace[|before.trace|..] == drained.events;
    assert Q.Contains(q, T.CitiesUpdate) by {
      assert q[|q| - 1] == cu;
    }
    QP.DrainMasks(q, ids, marked);
    QP.DrainRefreshes(q, ids, marked);
    C.CityActionsServe(ids, marked, k);
    forall e | e in C.ActionsFor(cities[k].id, bit)
      ensures e in drained.events
    {
      QP.ActionOfBit(ids[k], bit, marked[k], e);
    }
  }

  /**
   * Two marks of one city in a row, outside any callback, are not coalesced:
   * each runs its own drain. The first serves the first bit; the second finds
   * every city clean except the one it marks, so it calls the cities callback
   * once more and performs exactly the action for the second bit.
   */
  lemma SuccessiveMarksDrainSeparately(cities: seq<C.City>, k: nat, b1: C.UpdateMask, b2: C.UpdateMask,
                                       s: Q.Snapshot, c0: C.UpdateMask,
                                       s1: Q.Snapshot, c1: C.UpdateMask,
                                       s2: Q.Snapshot, c2: C.UpdateMask)
    requires C.Distinct(cities) && C.IsUpdateBit(b1) && C.IsUpdateBit(b2) && k < |cities|
    requires !s.hasIdleCb
    requires MarkedThenPushed(cities, cities[k], b1, s, c0, s1, c1)
    requires MarkedThenPushed(cities, cities[k], b2, s1, c1, s2, c2)
    ensures s1.queue == [] && !s1.hasIdleCb && s2.queue == [] && !s2.hasIdleCb
    ensures s.trace <= s1.trace && s1.trace <= s2.trace
    ensures forall e :: e in C.ActionsFor(cities[k].id, b1) ==> e in s1.trace[|s.trace|..]
    ensures s2.trace[|s1.trace|..] == [T.Invoked(T.CitiesUpdate, None)] + C.ActionsFor(cities[k].id, b2)
    ensures s2.masks == C.Cleared(s.masks)
  {
    MarkedCityIsServed(cities, k, b1, s, c0, s1, c1);
    var ids := C.Ids(cities);
    var cu := Plain(T.CitiesUpdate);
    var m := C.MarkedMasks(s1.masks, cities, cities[k], b2);
    assert Q.Pushed(s1.queue, cu) == [cu];
    MarkOnCleanCities(cities, s1.masks, k, b2);
    QP.DrainLoneCitiesCall(ids, m, k);
    assert s2.trace == s1.trace + Q.Drain([cu], ids, m).events;
    assert s2.masks == C.Cleared(s.masks);
  }

  /** Marking one city of an all-clean list leaves that city with just the bit, and every other city clean. */
  lemma MarkOnCleanCities(cities: seq<C.City>, masks: seq<C.UpdateMask>, k: nat, bit: C.UpdateMask)
    requires C.Distinct(cities) && C.IsUpdateBit(bit) && k < |cities| && |masks| == |cities|
    requires forall i :: 0 <= i < |masks| ==> masks[i] == C.NoUpdate
    ensures var m := C.MarkedMasks(masks, cities, cities[k], bit);
      && m[k] == bit
      && forall i :: 0 <= i < |m| && i != k ==> m[i] == C.NoUpdate
  {
    var m := C.MarkedMasks(masks, cities, cities[k], bit);
    forall i | 0 <= i < |m| && i != k
      ensures m[i] == C.NoUpdate
    {
      assert cities[i] != cities[k];
    }
  }
}
