# Freeciv21 client update queue, modelled in Dafny

Freeciv21's client does not redraw its GUI the moment game state changes.
Requests for a refresh are instead queued as callbacks in `update_queue`:

- a request for a callback that is already queued replaces the queued one and goes to the tail;
- a push made while no drain is running drains the whole queue at once, invoking each entry front to back and then releasing its data;
- entries may also wait on a server request id; they move to the queue when the server reports the request processed;
- `init` tears everything down without invoking anything.

On top of the queue sit the client's request functions: page switches, menus, report dialogs, and three functions that mark a city dirty. The single cities callback serves all dirty cities: it skips clean cities, clears each mask, then refreshes the report row, the dialog and the popup, in that order.

The model is split into these files:

- `update_types.dfy` holds the entries, the callbacks and the trace of foreign calls. A callback invocation, a free-function call and a city refresh are each recorded as an `Event`.
- `city_updates.dfy` holds the city update bits and the cities callback.
- `deferred_queue.dfy` holds the queue as values, the drain as a function (`Drain`), and the class `UpdateQueue`. The class's methods are proved against those functions.
- `queue_properties.dfy` holds the properties relating several operations.
- `client_requests.dfy` holds the request functions.

## Model

| member | source | states |
|---|---|---|
| UpdateTypes.Release | client/update_queue.cpp:77-85 | the free function is called, exactly once, iff both data and free function are set |
| UpdateTypes.Destroyed | client/update_queue.cpp:77-85 | destroying nulls data and free function, so a destroyed entry owns nothing and releasing it frees nothing |
| UpdateTypes.Requests | client/update_queue.cpp:123-128 | the invocations a queue asks for: entry i's callback on entry i's data, one per entry |
| UpdateTypes.ReleaseAllOnlyFrees | client/update_queue.cpp:96-109 | releasing entries invokes no callback; every recorded event is a free-function call |
| UpdateTypes.ReleaseAll | client/update_queue.cpp:98-101 | releasing a list records at most one call per entry, and every call is to a free function |
| UpdateTypes.ReleaseAllFreesOwned | client/update_queue.cpp:77-85 | releasing a list frees exactly the owning entries, each once, in list order: the j-th free is that of the j-th owning entry |
| UpdateTypes.ReleaseAllFreesEachOwner | client/update_queue.cpp:77-85 | every owning entry of a list has its free function called on its data |
| UpdateTypes.ReleaseAllNoOwners | client/update_queue.cpp:77-85 | a list in which no entry owns data is released without any call |
| CityUpdates.Mark | client/update_queue.cpp:314-338 | marking ORs exactly one bit in: that bit is set afterwards, every other bit is unchanged, and the mask is no longer clean |
| CityUpdates.MarkedMasks | client/update_queue.cpp:314-338 | marking a city changes the masks of that city only |
| CityUpdates.ActionsFor | client/update_queue.cpp:290-299 | a clean city gets no action; each of report, dialog and popup is performed iff its bit is set, in that order, all for this city |
| CityUpdates.ServeCity | client/update_queue.cpp:287-299 | the city's mask ends clear and the actions are those owed for its old mask |
| CityUpdates.CitiesUpdateCallback | client/update_queue.cpp:271-311 | every city ends clean, and the actions are, city by city in iteration order, those owed for the old masks |
| CityUpdates.CleanCitiesNoActions | client/update_queue.cpp:290-292 | when every city is clean the callback does nothing |
| CityUpdates.CityActions | client/update_queue.cpp:286-309 | the callback's actions over all cities are city refreshes only |
| CityUpdates.CityActionsSingle | client/update_queue.cpp:286-309 | when only one city is dirty, the callback performs exactly that city's actions |
| CityUpdates.CityActionsOwed | client/update_queue.cpp:284-310 | every action of the callback is owed: it is for some city whose mask has the matching bit |
| CityUpdates.CityActionsServe | client/update_queue.cpp:284-310 | every action owed to every city is performed |
| CityUpdates.CityActionsAreCityEvents | client/update_queue.cpp:271-311 | the cities callback invokes no queued callback and frees nothing |
| DeferredQueue.Contains | client/update_queue.cpp:153-157 | true iff some entry has the callback |
| DeferredQueue.RemoveAll | client/update_queue.cpp:136 | keeps exactly the entries with another callback, and their count; a queue without the callback is unchanged |
| DeferredQueue.Pushed | client/update_queue.cpp:136-137 | the queue push builds, before draining, ends with the pushed entry |
| DeferredQueue.Invoke | client/update_queue.cpp:126 | an invocation first records the callback call on its data; only the cities callback changes the masks, and it clears them all |
| DeferredQueue.Drain | client/update_queue.cpp:125-129 | the drain loop records at least one event per entry; an empty queue records nothing and changes no mask |
| DeferredQueue.PushStep | client/update_queue.cpp:134-143 | a push only extends the trace; with no drain pending it leaves the queue empty and the flag down, and with one pending it records nothing and changes no mask |
| DeferredQueue.WithUniqueRequest | client/update_queue.cpp:172-185 | afterwards the pair waits on the id, at most one entry is added, and other ids are unchanged |
| DeferredQueue.ReleaseLists | client/update_queue.cpp:103-107 | releasing the waiting lists records free-function calls only |
| DeferredQueue.WithRequest | client/update_queue.cpp:88-93 | appends the entry to the list of that request id, creating the list when absent; other ids are unchanged |
| DeferredQueue.FindWaiter | client/update_queue.cpp:176-183 | true iff some waiting entry has both the callback and the data |
| DeferredQueue.UpdateQueue.WqRunRequests | client/update_queue.cpp:63-74 | an unknown id changes nothing; otherwise the waiting entries are appended in order, without dedup or drain, and the id is removed |
| DeferredQueue.UpdateQueue.WqDataDestroy | client/update_queue.cpp:77-85 | the trace gains the release of the entry, and the destroyed entry is returned |
| DeferredQueue.UpdateQueue.WqAddRequest | client/update_queue.cpp:88-93 | the waiting table becomes WithRequest of the old one; nothing else changes |
| DeferredQueue.UpdateQueue.Init | client/update_queue.cpp:96-109 | both containers end empty; the trace gains the releases of the queue, front to back, then of each waiting list, one key at a time, each key once |
| DeferredQueue.UpdateQueue.ReleaseWaiting | client/update_queue.cpp:103-107 | every waiting list is released once, in some key order that covers every key once |
| DeferredQueue.UpdateQueue.ReleaseEntries | client/update_queue.cpp:104-106 | every entry of a list is released, in order |
| DeferredQueue.UpdateQueue.ProcessingFinished | client/update_queue.cpp:114-117 | same as WqRunRequests |
| DeferredQueue.UpdateQueue.UpdateUnqueue | client/update_queue.cpp:120-130 | the queue ends empty with no drain pending; the trace and the city masks are those Drain gives for the old queue |
| DeferredQueue.UpdateQueue.DequeueAndCall | client/update_queue.cpp:124-128 | one turn of the drain loop keeps the outcome of the whole drain unchanged |
| DeferredQueue.UpdateQueue.Call | client/update_queue.cpp:126 | invoking an entry records the call; the cities callback also serves the cities |
| DeferredQueue.UpdateQueue.Push | client/update_queue.cpp:134-143 | the queue becomes Pushed of the old one; if no drain was pending, it is then drained to empty (PushStep) |
| DeferredQueue.UpdateQueue.Add | client/update_queue.cpp:147-150 | push of an entry with no data and no free function |
| DeferredQueue.UpdateQueue.HasCallback | client/update_queue.cpp:153-157 | true iff some queued entry has the callback |
| DeferredQueue.UpdateQueue.ConnectProcessingFinished | client/update_queue.cpp:161-166 | registers the callback and data on the id with no free function |
| DeferredQueue.UpdateQueue.ConnectProcessingFinishedUnique | client/update_queue.cpp:172-185 | registers the callback and data on the id unless that pair already waits on it |
| DeferredQueue.UpdateQueue.ConnectProcessingFinishedFull | client/update_queue.cpp:189-194 | registers the callback, data and free function on the id |
| QueueProperties.CountAppend | client/update_queue.cpp:134-137 | entries are counted per callback additively over concatenation |
| QueueProperties.RemoveAllAppend | client/update_queue.cpp:136 | removeAll keeps the relative order of the entries it keeps |
| QueueProperties.PushedShape | client/update_queue.cpp:134-137 | after push the new entry is last, it is the only one with its callback, and exactly the other entries of the old queue remain |
| QueueProperties.PushMovesToTail | client/update_queue.cpp:131-137 | pushing A onto [A, B, C] gives [B, C, A] |
| QueueProperties.RepeatedPushKeepsLatest | client/update_queue.cpp:144-150 | two pushes of one callback leave what the second alone would: the first is overwritten |
| QueueProperties.RemoveAllKeepsUnique | client/update_queue.cpp:136 | removeAll keeps a queue free of duplicate callbacks |
| QueueProperties.PushedKeepsUnique | client/update_queue.cpp:131-137 | push keeps a queue free of duplicate callbacks |
| QueueProperties.RunRequestsCanDuplicate | client/update_queue.cpp:63-74 | moving waiters into the queue can queue a callback twice |
| QueueProperties.InvokeKinds | client/update_queue.cpp:126 | one invocation is a single callback call, frees nothing, and refreshes cities only for the cities callback |
| QueueProperties.DrainCallsEachOnce | client/update_queue.cpp:120-130 | a drain invokes every queued entry exactly once, front to back |
| QueueProperties.DrainFreesQueued | client/update_queue.cpp:124-128 | a drain's free-function calls are exactly those of releasing the queue, front to back |
| QueueProperties.DrainMasks | client/update_queue.cpp:120-130 | after a drain every city is clean if the cities callback was queued; otherwise no mask changes |
| QueueProperties.DrainRefreshes | client/update_queue.cpp:120-130 | the cities callback serves each city once, with the bits the city had when the drain began, however often it was queued |
| QueueProperties.TopLevelPushDrains | client/update_queue.cpp:134-143 | a push with no drain pending leaves the queue empty, keeps the old trace as a prefix, and invokes and releases every entry of the pushed queue |
| QueueProperties.DrainLoneCitiesCall | client/update_queue.cpp:120-130 | draining a lone cities callback with one dirty city records one invocation, then exactly that city's actions, and leaves every city clean |
| QueueProperties.ActionOfBit | client/update_queue.cpp:295-297 | an action owed for one bit is owed for every mask that has that bit |
| QueueProperties.UniqueRequestIdempotent | client/update_queue.cpp:172-185 | after a unique registration the pair waits on the id, and registering it again changes nothing |
| QueueProperties.ReleaseListsOnlyFrees | client/update_queue.cpp:103-107 | releasing the waiting lists invokes no callback |
| QueueProperties.InitInvokesNothing | client/update_queue.cpp:96-109 | teardown records free-function calls only, in any key order |
| QueueProperties.DestroyTwiceFreesOnce | client/update_queue.cpp:77-85 | destroying an entry twice frees its data once |
| ClientRequests.PageRequest.constructor | client/update_queue.cpp:196-198 | the next page starts as the main page |
| ClientRequests.SetClientPage | client/update_queue.cpp:207-213 | the next page is recorded and the page switch is pushed |
| ClientRequests.ClientStartServerAndSetPage | client/update_queue.cpp:216-226 | if the server starts, the page is recorded and the switch waits on the last request id; otherwise nothing changes |
| ClientRequests.IsSwitchingPage | client/update_queue.cpp:239-242 | true iff a page switch is queued |
| ClientRequests.GetClientPage | client/update_queue.cpp:229-236 | the recorded next page while a switch is queued, else the current page |
| ClientRequests.SwitchQueuedWhenProcessed | client/update_queue.cpp:216-226 | once its request is processed, a registered switch is queued |
| ClientRequests.MenusInit | client/update_queue.cpp:245-251 | pushes the menu initialisation |
| ClientRequests.MenusUpdate | client/update_queue.cpp:257-262 | pushes the menu update only when none is queued; otherwise nothing changes |
| ClientRequests.MenusUpdateDisplacesNothing | client/update_queue.cpp:257-262 | when no menu update is queued, pushing one only appends it |
| ClientRequests.MultipliersDialogUpdate | client/update_queue.cpp:265-268 | pushes the multipliers dialog update |
| ClientRequests.ConnListDialogUpdate | client/update_queue.cpp:341-344 | pushes the connection list update |
| ClientRequests.PlayersDialogUpdate | client/update_queue.cpp:347-350 | pushes the nation report update |
| ClientRequests.CityReportDialogUpdate | client/update_queue.cpp:353-356 | pushes the city report update |
| ClientRequests.ScienceReportDialogUpdate | client/update_queue.cpp:359-362 | pushes the science report update |
| ClientRequests.EconomyReportDialogUpdate | client/update_queue.cpp:365-368 | pushes the economy report update |
| ClientRequests.UnitsReportDialogUpdate | client/update_queue.cpp:371-374 | pushes the units report update |
| ClientRequests.UnitSelectDialogUpdate | client/update_queue.cpp:377-380 | pushes the unit selection dialog update |
| ClientRequests.MarkCity | client/update_queue.cpp:314-338 | the city gains the bit, then the cities callback is pushed from that state |
| ClientRequests.PopupCityDialog | client/update_queue.cpp:314-320 | marks the city for a popup, then pushes the cities callback |
| ClientRequests.RefreshCityDialog | client/update_queue.cpp:323-329 | marks the city for a dialog refresh, then pushes the cities callback |
| ClientRequests.CityReportDialogUpdateCity | client/update_queue.cpp:332-338 | marks the city for a report row update, then pushes the cities callback |
| ClientRequests.MarkedCityIsServed | client/update_queue.cpp:314-338 | a city marked with no drain pending gets the action for its bit, and every city ends clean |
| ClientRequests.MarkOnCleanCities | client/update_queue.cpp:314-338 | marking one city of an all-clean list leaves it with just that bit and every other city clean |
| ClientRequests.SuccessiveMarksDrainSeparately | client/update_queue.cpp:314-338 | two marks of one city in a row run two drains: the first serves the first bit, the second invokes the cities callback again and performs exactly the action for the second bit |

## Left out

- The `update_queue::uq()` singleton and `drop()` are left out. The queue is passed to each request explicitly.
- The `next_client_page` global is the `PageRequest` object, also passed explicitly.
- `waiting_queue_data` equality, which `removeAll` uses, is declared in update_queue.h. That header is not part of this model. Equality is taken to be callback identity, as the comments on `push` and `add` describe.
- The values of the `CU_*` bits are set in city.h, which is not part of this model. They are taken to be 1, 2 and 4 (report, dialog, popup), and `CU_NO_UPDATE` is taken to be 0.
- The model follows the code:
  - `removeAll` drops an overwritten entry without releasing its data.
  - `wq_run_requests` appends without dedup and does not drain. Entries moved there run at the next push.
  - `update_unqueue` lowers `has_idle_cb` before its loop, so every push made outside a callback drains at once, and two requests in a row run two drains.
- Callbacks that push, mark cities or touch the queue while they run (re-entrancy) are left out. An invocation only records its call; the cities callback also serves the cities. With callbacks kept out of the queue, `has_idle_cb` is never up when a push starts. It does not guard against re-entrancy either: it is already down while the loop runs, so a push made from inside a callback would start a nested drain.
- The work done by callbacks is left out: page switching, menus, dialogs and reports. So is `get_current_client_page` and `client_start_server`; their results are parameters.
- SetClientPage: the page that `set_client_page_callback` shows is not carried in the trace. The trace records only that the switch was invoked.
- UpdateQueue.Init: the waiting table is a hash map whose iteration order is unspecified. The key order is a ghost result: every key appears once, in some order.
- The callback methods and the cities callback require the city list to hold no city twice, as a game's city list does.
- The `FREECIV_DEBUG` bookkeeping in the cities callback and the debug logging are left out. The debug bookkeeping only reports bits nobody handled, and with three bits all handled it reports nothing.
- The destructor, which calls `init`, is covered by `Init`.
- The constructor and the field defaults are in update_queue.h, which is not part of this model. `UpdateQueue` is taken to start empty, with nothing waiting and no drain pending.
