/** The grocery page's component state and the handlers that change it:
    location samples and their proximity alerts, switching tracking off,
    leaving the household, adding an item, the items listener, and
    toggling an item's completion.

    Each React state variable is a field; a handler's state updates are
    applied in order and take effect when it returns. Backend writes are
    not performed: a handler returns what it would write and takes the
    write's outcome as a parameter. */
module App {
  import opened Types
  import opened Strings
  import opened Proximity
  import opened Items

  class GroceryPage {
    var currentUser: Option<User>
    var household: Option<Household>
    var uid: Option<string>
    var userName: string
    var householdName: string
    var householdCode: string
    var groceryList: seq<GroceryItem>
    var newItemName: string
    var locationEnabled: bool
    var currentLocation: Option<LocationData>
    var nearbyStores: seq<GroceryStore>
    var locationError: Option<string>
    var notifications: seq<Notification>
    var notificationsEnabled: bool
    var lastNotifiedStores: set<string>
    var errorBanner: Option<string>

    /** The announced set and the nearby list only ever name catalogue stores.
        Every handler below keeps it. */
    ghost predicate Valid()
      reads this
    {
      && lastNotifiedStores <= Ids(GroceryStores)
      && forall s :: s in nearbyStores ==> s in GroceryStores
    }

    /** `household?.id` is truthy: the household listeners are subscribed. */
    predicate HouseholdActive()
      reads this
    {
      household.Some? && household.value.id != ""
    }

    /** Whether a location sample may announce stores. */
    predicate AlertGate()
      reads this
    {
      currentUser.Some? && household.Some? && HasOpenItem(groceryList)
    }

    /** The initial `useState` values, with the signed-in uid. */
    constructor (uid: Option<string>)
      ensures Valid()
      ensures this.uid == uid && currentUser == None && household == None
      ensures userName == "" && householdName == "" && householdCode == "" && newItemName == ""
      ensures groceryList == [] && notifications == [] && errorBanner == None
      ensures !locationEnabled && currentLocation == None && nearbyStores == [] && locationError == None
      ensures !notificationsEnabled && lastNotifiedStores == {}
    {
      this.uid := uid;
      currentUser, household := None, None;
      userName, householdName, householdCode, newItemName := "", "", "", "";
      groceryList, notifications, errorBanner := [], [], None;
      locationEnabled, currentLocation, nearbyStores, locationError := false, None, [], None;
      notificationsEnabled, lastNotifiedStores := false, {};
    }

    /** The success callback of `updateLocation`: record the sample, keep
        the stores within the threshold (`distances[i]` is the distance to
        `GroceryStores[i]`), and, if the gate holds, announce each nearby
        store not already announced and keep exactly the nearby ids. The
        announcements are returned in the order they are created. */
    method OnPositionSample(lat: real, lng: real, now: int, distances: seq<real>) returns (sent: seq<NotificationDraft>)
      requires Valid() && |distances| == |GroceryStores|
      modifies this`currentLocation, this`locationError, this`nearbyStores, this`lastNotifiedStores
      ensures Valid()
      ensures currentLocation == Some(LocationData(lat, lng, now)) && locationError == None
      ensures nearbyStores == Nearby(GroceryStores, distances)
      ensures AlertGate() ==> Step(sent, lastNotifiedStores)
                              == ProximityStep(currentUser.value, nearbyStores, old(lastNotifiedStores))
      ensures AlertGate() ==> lastNotifiedStores == Ids(nearbyStores)
      ensures !AlertGate() ==> sent == [] && lastNotifiedStores == old(lastNotifiedStores)
    {
      currentLocation := Some(LocationData(lat, lng, now));
      locationError := None;
      var nearby := Nearby(GroceryStores, distances);
      NearbyWithin(GroceryStores, distances);
      nearbyStores := nearby;
      sent := [];
      if currentUser.Some? && household.Some? && HasOpenItem(groceryList) {
        sent := AlertStep(currentUser.value, nearby);
      }
    }

    /** The gated part of a sample: announce the newly near stores, then
        drop from the announced set every store that is no longer near. */
    method AlertStep(user: User, nearby: seq<GroceryStore>) returns (sent: seq<NotificationDraft>)
      modifies this`lastNotifiedStores
      ensures Step(sent, lastNotifiedStores) == ProximityStep(user, nearby, old(lastNotifiedStores))
      ensures lastNotifiedStores == Ids(nearby)
    {
      ghost var seen := lastNotifiedStores;
      sent := AnnounceNewlyNear(user, nearby);
      lastNotifiedStores := lastNotifiedStores * Ids(nearby);
      StepNotifiedIsNearby(user, nearby, seen);
    }

    /** `nearby.forEach`: each store whose id the callback's announced set
        lacks is announced and added to the set. The test reads the set as
        it was when the callback started, as the closure does. */
    method AnnounceNewlyNear(user: User, nearby: seq<GroceryStore>) returns (sent: seq<NotificationDraft>)
      modifies this`lastNotifiedStores
      ensures sent == Alerts(user, NewlyNear(nearby, old(lastNotifiedStores)))
      ensures lastNotifiedStores == old(lastNotifiedStores) + Ids(NewlyNear(nearby, old(lastNotifiedStores)))
    {
      var seen := lastNotifiedStores;
      sent := [];
      ghost var entered: seq<GroceryStore> := [];
      var i := 0;
      while i < |nearby|
        invariant 0 <= i <= |nearby|
        invariant entered == NewlyNear(nearby[..i], seen)
        invariant sent == Alerts(user, entered)
        invariant lastNotifiedStores == seen + Ids(entered)
      {
        var store := nearby[i];
        NewlyNearExtend(nearby, i, seen);
        if store.id !in seen {
          AlertsSnoc(user, entered, store);
          sent := sent + [ShoppingAlert(user, store)];
          lastNotifiedStores := lastNotifiedStores + {store.id};
          entered := entered + [store];
        }
        i := i + 1;
      }
      assert nearby[..i] == nearby;
    }

    /** `updateLocation` in a browser without geolocation. */
    method GeolocationUnsupported()
      requires Valid()
      modifies this`locationError
      ensures Valid()
      ensures locationError == Some("Geolocation is not supported by this browser")
    {
      locationError := Some("Geolocation is not supported by this browser");
    }

    /** The error callback of `updateLocation`. */
    method OnPositionError(message: string)
      requires Valid()
      modifies this`locationError
      ensures Valid()
      ensures locationError == Some("Location error: " + message)
    {
      locationError := Some("Location error: " + message);
    }

    /** The location part of both resets: tracking off, no location, no
        nearby stores, no location error, nothing announced. */
    method StopTracking()
      modifies this`locationEnabled, this`currentLocation, this`nearbyStores, this`locationError, this`lastNotifiedStores
      ensures !locationEnabled && currentLocation == None && nearbyStores == [] && locationError == None
      ensures lastNotifiedStores == {}
    {
      locationEnabled := false;
      currentLocation := None;
      nearbyStores := [];
      locationError := None;
      lastNotifiedStores := {};
    }

    /** `toggleLocationTracking`. Switching on only sets the flag here: the
        first sample and the two-minute timer deliver `OnPositionSample`
        calls later. Switching off forgets the location, the nearby stores,
        any location error and every announced store. */
    method ToggleLocationTracking()
      requires Valid()
      modifies this`locationEnabled, this`currentLocation, this`nearbyStores, this`locationError, this`lastNotifiedStores
      ensures Valid()
      ensures locationEnabled == !old(locationEnabled)
      ensures old(locationEnabled) ==> currentLocation == None && nearbyStores == [] && locationError == None && lastNotifiedStores == {}
      ensures !old(locationEnabled) ==> currentLocation == old(currentLocation) && nearbyStores == old(nearbyStores)
                                        && locationError == old(locationError) && lastNotifiedStores == old(lastNotifiedStores)
    {
      if !locationEnabled {
        locationEnabled := true;
      } else {
        StopTracking();
      }
    }

    /** `leaveHousehold`. The two membership deletes swallow their errors,
        so whatever they do the page ends signed out of the household with
        an empty list, tracking and notifications off, nothing announced. */
    method LeaveHousehold()
      requires Valid()
      modifies this`currentUser, this`household, this`userName, this`householdName, this`householdCode,
               this`groceryList, this`locationEnabled, this`currentLocation, this`nearbyStores,
               this`locationError, this`notifications, this`notificationsEnabled, this`lastNotifiedStores
      ensures Valid()
      ensures currentUser == None && household == None && !HouseholdActive() && !AlertGate()
      ensures userName == "" && householdName == "" && householdCode == ""
      ensures groceryList == [] && notifications == []
      ensures !locationEnabled && currentLocation == None && nearbyStores == [] && locationError == None
      ensures !notificationsEnabled && lastNotifiedStores == {}
    {
      currentUser := None;
      household := None;
      userName, householdName, householdCode := "", "", "";
      groceryList := [];
      StopTracking();
      notifications := [];
      notificationsEnabled := false;
    }

    /** The items listener: each snapshot replaces the whole list, so any
        optimistic entry is gone once the backend's view arrives. No
        snapshot is delivered without an active household. */
    method OnItemsSnapshot(docs: seq<ItemDoc>, nowIso: string)
      requires Valid()
      modifies this`groceryList
      ensures Valid()
      ensures HouseholdActive() ==> groceryList == ItemsFromSnapshot(docs, nowIso)
      ensures !HouseholdActive() ==> groceryList == old(groceryList)
    {
      if household.Some? && household.value.id != "" {
        groceryList := ItemsFromSnapshot(docs, nowIso);
      }
    }

    /** `addGroceryItem`. `tempSuffix` and `nowIso` stand for the random id
        suffix and the clock; `membership` and `creation` are how the
        membership upsert and the item creation settle. The membership
        upsert is awaited before the optimistic entry is appended, so its
        failure leaves the list as it was; a failed creation leaves the
        optimistic entry in place (it is not rolled back). */
    method AddGroceryItem(tempSuffix: string, nowIso: string, membership: Outcome, creation: Outcome)
      returns (written: Option<NewItemWrite>)
      requires Valid()
      modifies this`groceryList, this`errorBanner, this`newItemName
      ensures Valid()
      ensures Trim(old(newItemName)) == [] || currentUser.None? || !HouseholdActive() ==>
                && groceryList == old(groceryList) && newItemName == old(newItemName)
                && errorBanner == None && written == None
      ensures Trim(old(newItemName)) != [] && currentUser.Some? && HouseholdActive() && Truthy(uid) && membership.Failed? ==>
                && groceryList == old(groceryList) && newItemName == old(newItemName)
                && errorBanner == Some(AddFailurePrefix + membership.message) && written == None
      ensures Trim(old(newItemName)) != [] && currentUser.Some? && HouseholdActive() && !(Truthy(uid) && membership.Failed?) ==>
                && groceryList == old(groceryList)
                     + [OptimisticItem(tempSuffix, Trim(old(newItemName)), currentUser.value.name, nowIso)]
                && written == Some(NewItemWrite(Trim(old(newItemName)), if Truthy(uid) then uid else None, currentUser.value.name, false))
                && (creation.Done? ==> errorBanner == None && newItemName == "")
                && (creation.Failed? ==> errorBanner == Some(AddFailurePrefix + creation.message)
                                         && newItemName == old(newItemName))
    {
      errorBanner := None;
      written := None;
      var name := Trim(newItemName);
      if name == [] || currentUser.None? || !HouseholdActive() {
      } else if Truthy(uid) && membership.Failed? {
        errorBanner := Some(AddFailurePrefix + membership.message);
      } else {
        var w := AppendOptimistic(name, tempSuffix, nowIso, creation);
        written := Some(w);
      }
    }

    /** The part of `addGroceryItem` after the membership upsert: append the
        optimistic entry, ask for the item document, and on success clear
        the input, on failure set the banner. */
    method AppendOptimistic(name: string, tempSuffix: string, nowIso: string, creation: Outcome)
      returns (written: NewItemWrite)
      requires currentUser.Some? && errorBanner == None
      modifies this`groceryList, this`errorBanner, this`newItemName
      ensures groceryList == old(groceryList) + [OptimisticItem(tempSuffix, name, currentUser.value.name, nowIso)]
      ensures written == NewItemWrite(name, if Truthy(uid) then uid else None, currentUser.value.name, false)
      ensures creation.Done? ==> errorBanner == None && newItemName == ""
      ensures creation.Failed? ==> errorBanner == Some(AddFailurePrefix + creation.message)
                                   && newItemName == old(newItemName)
    {
      groceryList := groceryList + [OptimisticItem(tempSuffix, name, currentUser.value.name, nowIso)];
      written := NewItemWrite(name, if Truthy(uid) then uid else None, currentUser.value.name, false);
      if creation.Failed? {
        errorBanner := Some(AddFailurePrefix + creation.message);
      } else {
        newItemName := "";
      }
    }

    /** `toggleItemCompletion`. Nothing is written without a user and an
        active household or when the id is not listed; otherwise the
        opposite completion state is written with its attribution. The
        list itself changes only when the listener delivers the result. */
    method ToggleItemCompletion(itemId: string, write: Outcome) returns (update: Option<CompletionUpdate>)
      requires Valid()
      modifies this`errorBanner
      ensures Valid()
      ensures var existing := FindItem(groceryList, itemId);
        if currentUser.None? || !HouseholdActive() || existing.None? then
          update == None && errorBanner == None
        else
          && update == Some(CompletionFor(!existing.value.completed, uid, currentUser.value.name))
          && errorBanner == (if write.Failed? then Some("Failed to update item: " + write.message) else None)
    {
      errorBanner := None;
      update := None;
      if currentUser.None? || household.None? || household.value.id == "" {
        return;
      }
      var existing := FindItem(groceryList, itemId);
      if existing.None? {
        return;
      }
      var willComplete := !existing.value.completed;
      update := Some(CompletionFor(willComplete, uid, currentUser.value.name));
      if write.Failed? {
        errorBanner := Some("Failed to update item: " + write.message);
      }
    }
  }
}
