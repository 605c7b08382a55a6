# GroopList grocery page, modelled in Dafny

GroopList is a household grocery-list web app. Members of a household share
one realtime grocery list. While location tracking is on, they are alerted
when a member comes near one of four catalogue grocery stores. Everything
durable lives in a hosted document store. The little logic the app owns sits
in the grocery page, and this project models it:

- **Last-seen label** (`LastSeen`): a millisecond timestamp becomes
  "unknown", "just now", "N min(s) ago", "N hr(s) ago" or "N day(s) ago".
- **Store-proximity alerts** (`Proximity`, `App.GroceryPage.OnPositionSample`).
  On each location sample the page keeps the stores within 0.5 miles. When a
  user and a household are set and some item is still open, it announces each
  nearby store not yet announced, in catalogue order. Then it keeps exactly
  the nearby store ids as the announced set (`lastNotifiedStores`).
- **Grocery list state** (`Items`, `App.GroceryPage`): the optimistic append
  when an item is added; wholesale replacement by each realtime snapshot; the
  fields written when an item's completion is toggled.
- **State resets**: switching tracking off and leaving the household.

The page's React state is the class `App.GroceryPage`, one field per state
variable. Its handlers are methods. Each method's `modifies` clause names the
fields that handler sets, and its `ensures` gives their new values. Backend
writes are not performed. A handler returns the payload it would write and
takes the write's outcome (`Done` or `Failed(message)`) as a parameter.
Snapshots arrive as a sequence of documents. The clock (`now`, `nowIso`), the
random temporary-id suffix and each store's distance are parameters.

The code does not behave as a design with rollback and pending-item merging
would. The model follows the code:

- A failed item creation leaves the optimistic entry in the list. Only the
  error banner is set. This is what the handler's own code does; a listener
  snapshot that arrives while the creation is pending replaces the list,
  optimistic entry included, and is not interleaved in this model.
- A failed membership upsert is awaited before the optimistic append, so it
  leaves the list unchanged.
- Every snapshot replaces the whole list. No pending entry is kept across a
  snapshot.
- List order is whatever order the snapshot delivers. The page does not
  sort the list itself.
- `completedById` is written as `uid || null`. So it is null for a completed
  item when the session has no uid. `completedByName` and `completedAt` are
  set exactly when the item becomes completed.
- An ungated sample (nothing left to buy, for example) updates the nearby
  stores but leaves the announced set alone. So the announced set is always
  within the catalogue, but it can name stores that are no longer near. If
  the member comes back to such a store later, no new alert is sent.

Dafny's `/` with a positive divisor rounds toward minus infinity, as
JavaScript's `Math.floor(x / d)` does. The formatter uses it directly, also
for negative deltas.

## Model

| member | source | states |
|---|---|---|
| `LastSeen.FormatLastSeen` | app/page.tsx:117-129 | "unknown" exactly when the timestamp is missing or 0; "just now" exactly when it is set and less than 60000 ms old, negative deltas included |
| `LastSeen.MinutesLabel` | app/page.tsx:120-123 | between one minute and one hour the label shows floor(delta/60000), between 1 and 59, as "1 min ago" or "N mins ago" |
| `LastSeen.HoursLabel` | app/page.tsx:124-126 | between one hour and one day the label shows floor(delta/3600000), between 1 and 23, singular exactly at 1 |
| `LastSeen.DaysLabel` | app/page.tsx:127-128 | from one day on the label shows floor(delta/86400000), at least 1, singular exactly at 1 |
| `LastSeen.DivDiv` | app/page.tsx:120-127 | flooring twice equals flooring once by the product of the divisors, which links the minute, hour and day counts to the raw delta |
| `LastSeen.AgoShowsCount` | app/page.tsx:122-128 | a label starts with the decimal digits of its count followed by a space, and those digits read back as the count |
| `LastSeen.AgoSingularIffOne` | app/page.tsx:122-128 | the plural "s" before " ago" appears exactly when the count is not 1 |
| `Strings.Decimal` | app/page.tsx:123 | a count is rendered as a non-empty run of decimal digits without a leading zero |
| `Strings.DecimalRoundTrip` | app/page.tsx:123 | parsing the rendered digits gives back the number |
| `Strings.DecimalInjective` | app/page.tsx:123 | distinct counts give distinct labels |
| `Strings.Trim` | app/page.tsx:451 | `String.prototype.trim`: white space is cut from both ends, so the result is never longer than the input (what is cut and what is kept is stated by the two lemmas below) |
| `Strings.TrimStartSpec` | app/page.tsx:451 | the start of `trim`: the result is a suffix of the input, everything cut off is white space, and the result does not start with white space |
| `Strings.TrimEndSpec` | app/page.tsx:451 | the end of `trim`: the result is a prefix of its input, everything cut off is white space, and the result does not end with white space |
| `Strings.TrimEmptyIffAllWhite` | app/page.tsx:437 | a name trims to empty exactly when it is all white space, so the add guard rejects exactly the blank names |
| `Strings.TrimIdempotent` | app/page.tsx:451 | trimming a trimmed name changes nothing |
| `Proximity.Nearby` | app/page.tsx:271-274 | the catalogue filtered by distance at most 0.5 miles, in catalogue order, never longer than the catalogue (which stores it holds is stated by `NearbyIdsIff` and `NearbyWithin`) |
| `Proximity.NewlyNear` | app/page.tsx:278-279 | the nearby stores whose id is not yet announced, in visiting order; with nothing announced, every nearby store is new |
| `Proximity.ShoppingAlert` | app/page.tsx:281-287 | the alert for a store is of kind "member_shopping" and carries the member's id and the store's name |
| `Proximity.ProximityStep` | app/page.tsx:277-295 | one gated sample: alerts for the newly near stores; the new announced set holds only nearby ids and keeps every announced id that is still nearby |
| `Proximity.NewlyNearMembers` | app/page.tsx:278-279 | a store is announced exactly when it is nearby and its id was not in the announced set |
| `Proximity.StepNotifiedIsNearby` | app/page.tsx:289-295 | after a gated sample the announced set equals the ids of the nearby stores, so stores out of range are dropped without an alert |
| `Proximity.SentInCatalogueOrder` | app/page.tsx:271-291 | a sample's alerts are the catalogue stores that are within the threshold and not yet announced, in catalogue order |
| `Proximity.StepAlertCount` | app/page.tsx:278-290 | in one sample, a catalogue store gets one alert if it is in range and not yet announced, and none otherwise |
| `Proximity.NearbyIdsIff` | app/page.tsx:271-274 | a store's id is among the nearby ids exactly when its distance is at most 0.5 miles |
| `Proximity.NearbyWithin` | app/page.tsx:271-275 | every nearby store is a catalogue store |
| `Proximity.TraceAlertsCountEntries` | app/page.tsx:271-295 | over any run of gated samples, each store is announced exactly once per entry into range: staying near is silent, leaving is silent, coming back is announced again |
| `Proximity.StayingNearAnnouncesOnce` | app/page.tsx:278-291 | a store in range on two consecutive samples is announced once |
| `Proximity.ReentryAnnouncesAgain` | app/page.tsx:289-295 | near, away, near again: the store is announced twice |
| `Proximity.CatalogueIsUnique` | app/page.tsx:83-88 | the four catalogue stores have distinct ids and distinct names |
| `Proximity.NearbyOnlyWholeFoods` | app/page.tsx:83-90 | with only Whole Foods Market within the threshold, the nearby list is that store alone |
| `Proximity.WholeFoodsAnnounced` | app/page.tsx:271-295 | at 0.3 miles from Whole Foods Market, with nothing announced, one sample sends exactly one alert for that store and the announced set becomes {"1"} |
| `Proximity.WholeFoodsTitle` | app/page.tsx:281-287 | the alert for Whole Foods Market is titled "<name> is near Whole Foods Market!" |
| `Proximity.WholeFoodsLeft` | app/page.tsx:271-295 | at 0.8 miles the next sample is silent and the store leaves the announced set |
| `Proximity.StaleTick` | app/page.tsx:271-325 | a tick that tests a captured announced set but updates the current one; when the two sets agree it is exactly the proximity step, and it never announces a store out of range into the set |
| `Proximity.StaleTickAnnouncesAgain` | app/page.tsx:320-325 | a tick from the interval timer tests the announced set captured when tracking was switched on, so a member who stays near a store is announced on every tick |
| `Items.ItemFromDoc` | app/page.tsx:371-381 | one document as a list entry: the document id; `name` or ""; `addedByName`, else `addedBy`, else ""; the `addedAt` timestamp, else the current time; completed exactly when `completed` is true; `completedByName` as stored; no completion time exactly when `completedAt` is falsy, and the current time when it is truthy but not a timestamp |
| `Items.ItemsFromSnapshot` | app/page.tsx:370-383 | the list a snapshot yields has one entry per document, the k-th being the k-th document mapped by `ItemFromDoc` |
| `Items.SnapshotKeepsDocumentIds` | app/page.tsx:370-383 | a snapshot yields one list entry per document, with the document ids in snapshot order |
| `Items.SnapshotDropsOptimistic` | app/page.tsx:383 | after a snapshot, every listed id is a document id, so a "temp-" entry does not survive |
| `Items.ConfirmedItemListedOnce` | app/page.tsx:449-456 | a confirmed item is listed exactly as often as its document appears in the snapshot, whatever optimistic entries came before |
| `Items.FindItem` | app/page.tsx:480-481 | the result is absent exactly when no entry has the id; otherwise it is the first entry with that id |
| `Items.HasOpenItem` | app/page.tsx:277 | true exactly when some entry is not completed |
| `Items.CompletionFor` | app/page.tsx:482-488 | the update writes the opposite state; completer name and server timestamp are set exactly when completing; the completer id is set exactly when completing with a truthy uid |
| `Items.ToggleAttribution` | app/page.tsx:475-492 | once a toggle is committed, the listed item's completer and completion time are present exactly when it is completed |
| `Items.LastToggleWins` | app/page.tsx:483-488 | of two committed toggles the later one decides all four written fields, so attribution never disagrees with the final state |
| `Items.AddedItemListedOpen` | app/page.tsx:459-466 | a confirmed added item is listed open, with the trimmed name, the adder's name and no completion attribution |
| `Items.OptimisticItem` | app/page.tsx:449-455 | the optimistic entry has a "temp-" id, the given name, the adder's name and the client time, and is open with no completion attribution |
| `App.GroceryPage.constructor` | app/page.tsx:93-114 | the initial state: no user or household, empty list, tracking and notifications off, nothing announced |
| `App.GroceryPage.OnPositionSample` | app/page.tsx:261-296 | records the sample, sets the nearby stores to the catalogue filtered by the threshold, and under the gate matches the proximity step; without the gate sends nothing and keeps the announced set |
| `App.GroceryPage.AnnounceNewlyNear` | app/page.tsx:278-291 | the loop emits one alert per nearby store missing from the set as the callback first read it, in visiting order, and adds those ids |
| `App.GroceryPage.AlertStep` | app/page.tsx:277-295 | the gated part of a sample sends what the proximity step sends and leaves exactly the nearby ids announced |
| `App.GroceryPage.GeolocationUnsupported` | app/page.tsx:255-258 | without geolocation, only the location error is set |
| `App.GroceryPage.OnPositionError` | app/page.tsx:308-311 | a sensor error sets the location error to "Location error: " and the message |
| `App.GroceryPage.StopTracking` | app/page.tsx:328-332 | tracking is off, the location, nearby stores and location error are cleared, and nothing is announced |
| `App.GroceryPage.ToggleLocationTracking` | app/page.tsx:320-339 | switching off clears the location, the nearby stores, the location error and the announced set; switching on only raises the flag |
| `App.GroceryPage.LeaveHousehold` | app/page.tsx:593-613 | leaving empties the list, notifications, nearby stores and announced set, clears user, household, names, location and error, and switches tracking and notifications off |
| `App.GroceryPage.OnItemsSnapshot` | app/page.tsx:366-384 | with an active household the list becomes exactly the mapped snapshot, whatever it held before |
| `App.GroceryPage.AddGroceryItem` | app/page.tsx:435-473 | a no-op for a blank name or no user or household; a failed membership upsert sets the banner only; otherwise exactly one open "temp-" entry with the trimmed name is appended at the end, and a failed creation keeps it and sets the banner |
| `App.GroceryPage.AppendOptimistic` | app/page.tsx:448-472 | the optimistic entry is appended at the end; the creation payload carries the name, `uid || null`, the adder and `completed: false`; success clears the input, failure sets the banner and keeps the entry |
| `App.GroceryPage.ToggleItemCompletion` | app/page.tsx:475-492 | no write without a user and household or for an unlisted id; otherwise writes the completion update for the opposite state; the list is not changed |

## Left out

- `calculateDistance` (app/page.tsx:243-252): haversine over floating point. Each sample takes the distance to every store as input, and only the comparison with the 0.5-mile threshold is modelled.
- Backend calls (`setDoc`, `addDoc`, `updateDoc`, `deleteDoc`, `getDoc`, `onSnapshot`) and sign-in. Writes are returned as payloads and their outcomes are parameters. Snapshots are inputs. `ApplyCompletion` and `CreatedDoc` stand for what the backend stores.
- `createNotification`'s persistence and the browser `Notification` it may show. The drafts it receives are the output of `OnPositionSample`.
- The location document written at the end of a sample (app/page.tsx:298-306). It is a backend write that changes no page state.
- The `addedAtClient` field (`Date.now()`) of the item creation payload. It is a clock reading that the page never reads back.
- The membership upsert's payload in `addGroceryItem` (app/page.tsx:440-447). Only its outcome is modelled.
- The interval timer, the first sample requested when tracking is switched on, and `localStorage`. Samples arrive as `OnPositionSample` calls. The timer's stale view of state is modelled separately by `Proximity.StaleTick`.
- `leaveHousehold` does not clear the two-minute timer, so ticks can go on after the member leaves. The timer is not modelled, so neither is this.
- Interleaving. Each handler runs to completion as one step: React's batching of state updates is not modelled, and neither is a listener snapshot arriving while a handler awaits `setDoc`, `addDoc` or `updateDoc` (app/page.tsx:441, app/page.tsx:459, app/page.tsx:483). Such a snapshot may already list the local write, or replace the optimistic entry, before the handler resumes.
- Pending-write snapshots. The items listener asks for metadata changes too (app/page.tsx:370), so a snapshot of a local write that is not yet committed reads each server timestamp as null. Right after a local toggle the item is listed completed, with `completedBy`, but without `completedAt` until the commit arrives; the same null is why `addedAt` falls back to the current time (app/page.tsx:377). `Items.ToggleAttribution` and `Items.AddedItemListedOpen` describe committed documents only; `Items.ItemFromDoc` itself covers the null case (`Missing`).
- Items.ItemsFromSnapshot: takes one `nowIso` per snapshot, while the source calls `new Date()` separately for each document's fallback (app/page.tsx:377, app/page.tsx:380). The clock readings of one snapshot can differ by a few milliseconds; the model gives them all the same value.
- `FormatLastSeen` takes whole-millisecond integers. NaN timestamps and JavaScript's exponent notation for counts of 10^21 or more are not modelled.
- `e?.message || String(e)` is modelled as the failure's message.
- Other handlers and effects of the page are not part of this model: manual refetch, delete, create or join household, notification toggling and read marks, the permission prompt, auth effects, and the members and locations listeners. The same goes for app/lists/page.tsx, components/PushSetup.tsx, components/InstallPrompt.tsx, lib/firebase.ts and public/firebase-messaging-sw.js, and for all rendering and pull-to-refresh handling.

## Findings

| source | as written | input that shows it | evidently intended | confidence | as-written member | corrected member |
|---|---|---|---|---|---|---|
| app/page.tsx:325 | `setInterval(updateLocation, 120000)` keeps the callback from the render where tracking was switched on. Every tick therefore tests the announced set (and the gate) as they were at that moment, while the functional updates change the current set. | Tracking switched on with nothing announced. The member stays 0.3 miles from Whole Foods Market over two ticks, and each tick announces the store again. | One alert per entry into range, reading the current announced set on each sample. | not executed; follows from how React closures capture state | `Proximity.StaleTickAnnouncesAgain` | `Proximity.TraceAlertsCountEntries` |
