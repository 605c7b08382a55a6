/** Store proximity alerts. On every location sample the page keeps the
    stores within half a mile, and, while a signed-in member of a household
    still has something to buy, announces each store the member has newly
    come near, exactly once until the member leaves its range again.

    The haversine distance is floating point and is not modelled: each
    sample supplies the distance to every catalogue store, and only the
    comparison with the threshold is. */
module Proximity {
  import opened Types

  /** The fixed store catalogue, in the order the page checks it. */
  const GroceryStores: seq<GroceryStore> := [
    GroceryStore("1", "Whole Foods Market", 37.7749, -122.4194, "123 Market St, San Francisco, CA"),
    GroceryStore("2", "Safeway", 37.7849, -122.4094, "456 Mission St, San Francisco, CA"),
    GroceryStore("3", "Trader Joe's", 37.7649, -122.4294, "789 Castro St, San Francisco, CA"),
    GroceryStore("4", "Target", 37.7549, -122.4394, "321 Valencia St, San Francisco, CA")
  ]

  /** In miles; a store exactly at the threshold counts as near. */
  const ProximityThreshold: real := 0.5

  predicate UniqueIds(stores: seq<GroceryStore>)
  {
    forall i, j :: 0 <= i < j < |stores| ==> stores[i].id != stores[j].id
  }

  predicate UniqueNames(stores: seq<GroceryStore>)
  {
    forall i, j :: 0 <= i < j < |stores| ==> stores[i].name != stores[j].name
  }

  function Ids(stores: seq<GroceryStore>): set<string>
  {
    set s | s in stores :: s.id
  }

  /** `GROCERY_STORES.filter(store => distance <= PROXIMITY_THRESHOLD)`,
      with `distances[i]` the distance to `stores[i]`. */
  function Nearby(stores: seq<GroceryStore>, distances: seq<real>): (r: seq<GroceryStore>)
    requires |distances| == |stores|
    ensures |r| <= |stores|
  {
    if stores == [] then []
    else (if distances[0] <= ProximityThreshold then [stores[0]] else [])
         + Nearby(stores[1..], distances[1..])
  }

  /** The nearby stores whose id the previous sample had not yet announced,
      in the order `nearby.forEach` visits them. */
  function NewlyNear(nearby: seq<GroceryStore>, notified: set<string>): (r: seq<GroceryStore>)
    ensures notified == {} ==> r == nearby
  {
    if nearby == [] then []
    else (if nearby[0].id !in notified then [nearby[0]] else [])
         + NewlyNear(nearby[1..], notified)
  }

  /** The "member_shopping" notification created when `user` comes near `store`. */
  function ShoppingAlert(user: User, store: GroceryStore): (a: NotificationDraft)
    ensures a.kind == MemberShopping
    ensures a.userId == Some(user.id) && a.storeName == Some(store.name)
  {
    NotificationDraft(
      MemberShopping,
      user.name + " is near " + store.name + "!",
      user.name + " is close to " + store.name + ". Perfect time to coordinate shopping!",
      Some(user.id),
      Some(store.name))
  }

  function Alerts(user: User, stores: seq<GroceryStore>): seq<NotificationDraft>
  {
    if stores == [] then [] else [ShoppingAlert(user, stores[0])] + Alerts(user, stores[1..])
  }

  /** The notifications a sample emits and the next `lastNotifiedStores`. */
  datatype Step = Step(sent: seq<NotificationDraft>, notified: set<string>)

  /** One sample while the gate holds (a current user, a household, an open
      item). The announced set first gains each newly near id, then keeps
      only the ids still near, as the two functional state updates do. */
  function ProximityStep(user: User, nearby: seq<GroceryStore>, notified: set<string>): (r: Step)
    ensures r.notified <= Ids(nearby)
    ensures notified * Ids(nearby) <= r.notified
  {
    var entered := NewlyNear(nearby, notified);
    Step(Alerts(user, entered), (notified + Ids(entered)) * Ids(nearby))
  }

  // ---------------------------------------------------------------------
  // One sample

  lemma {:induction false} NewlyNearMembers(nearby: seq<GroceryStore>, notified: set<string>)
    ensures forall s :: s in NewlyNear(nearby, notified) <==> s in nearby && s.id !in notified
  {
    if nearby != [] {
      NewlyNearMembers(nearby[1..], notified);
      assert nearby == [nearby[0]] + nearby[1..];
    }
  }

  /** After a gated sample the announced set is exactly the nearby stores:
      a store that left range is dropped, without any notification. */
  lemma StepNotifiedIsNearby(user: User, nearby: seq<GroceryStore>, notified: set<string>)
    ensures ProximityStep(user, nearby, notified).notified == Ids(nearby)
  {
    NewlyNearMembers(nearby, notified);
  }

  /** The stores of the catalogue that are near and not yet announced,
      in catalogue order. */
  function Entered(stores: seq<GroceryStore>, distances: seq<real>, notified: set<string>): seq<GroceryStore>
    requires |distances| == |stores|
  {
    if stores == [] then []
    else (if distances[0] <= ProximityThreshold && stores[0].id !in notified then [stores[0]] else [])
         + Entered(stores[1..], distances[1..], notified)
  }

  lemma {:induction false} NewlyNearAppend(a: seq<GroceryStore>, b: seq<GroceryStore>, notified: set<string>)
    ensures NewlyNear(a + b, notified) == NewlyNear(a, notified) + NewlyNear(b, notified)
  {
    if a != [] {
      assert (a + b)[1..] == a[1..] + b;
      NewlyNearAppend(a[1..], b, notified);
    } else {
      assert a + b == b;
    }
  }

  /** Visiting one more nearby store extends the newly near stores by that
      store exactly when it was not announced. */
  lemma NewlyNearExtend(nearby: seq<GroceryStore>, i: nat, notified: set<string>)
    requires i < |nearby|
    ensures nearby[i].id !in notified ==> NewlyNear(nearby[..i + 1], notified) == NewlyNear(nearby[..i], notified) + [nearby[i]]
    ensures nearby[i].id in notified ==> NewlyNear(nearby[..i + 1], notified) == NewlyNear(nearby[..i], notified)
  {
    var store := nearby[i];
    assert NewlyNear([store], notified) == if store.id !in notified then [store] else [] by {
      assert [store][1..] == [];
    }
    assert nearby[..i + 1] == nearby[..i] + [store];
    NewlyNearAppend(nearby[..i], [store], notified);
  }

  /** One more store adds its alert at the end and its id to the set. */
  lemma AlertsSnoc(user: User, stores: seq<GroceryStore>, store: GroceryStore)
    ensures Alerts(user, stores + [store]) == Alerts(user, stores) + [ShoppingAlert(user, store)]
    ensures Ids(stores + [store]) == Ids(stores) + {store.id}
  {
    AlertsAppend(user, stores, [store]);
    AlertAndIdOfOne(user, store);
  }

  lemma AlertAndIdOfOne(user: User, store: GroceryStore)
    ensures Alerts(user, [store]) == [ShoppingAlert(user, store)]
    ensures Alerts(user, []) == [] && Ids([store]) == {store.id} && Ids([]) == {}
  {
    assert [store][1..] == [];
  }

  /** The notifications follow catalogue order: a sample announces exactly
      the catalogue stores that are in range and were not announced, in the
      order the catalogue lists them. */
  lemma {:induction false} SentInCatalogueOrder(user: User, stores: seq<GroceryStore>, distances: seq<real>, notified: set<string>)
    requires |distances| == |stores|
    ensures ProximityStep(user, Nearby(stores, distances), notified).sent == Alerts(user, Entered(stores, distances, notified))
  {
    NewlyNearFusion(stores, distances, notified);
  }

  lemma {:induction false} NewlyNearFusion(stores: seq<GroceryStore>, distances: seq<real>, notified: set<string>)
    requires |distances| == |stores|
    ensures NewlyNear(Nearby(stores, distances), notified) == Entered(stores, distances, notified)
  {
    if stores != [] {
      var head := if distances[0] <= ProximityThreshold then [stores[0]] else [];
      NewlyNearAppend(head, Nearby(stores[1..], distances[1..]), notified);
      NewlyNearFusion(stores[1..], distances[1..], notified);
      if head != [] {
        assert head[1..] == [];
      }
    }
  }

  /** How many of the drafts announce the store called `name`. */
  function AlertCount(drafts: seq<NotificationDraft>, name: string): nat
  {
    if drafts == [] then 0
    else (if drafts[0].storeName == Some(name) then 1 else 0) + AlertCount(drafts[1..], name)
  }

  function NameCount(stores: seq<GroceryStore>, name: string): nat
  {
    if stores == [] then 0
    else (if stores[0].name == name then 1 else 0) + NameCount(stores[1..], name)
  }

  lemma {:induction false} AlertCountAppend(a: seq<NotificationDraft>, b: seq<NotificationDraft>, name: string)
    ensures AlertCount(a + b, name) == AlertCount(a, name) + AlertCount(b, name)
  {
    if a != [] {
      assert (a + b)[1..] == a[1..] + b;
      AlertCountAppend(a[1..], b, name);
    } else {
      assert a + b == b;
    }
  }

  lemma {:induction false} AlertsAppend(user: User, a: seq<GroceryStore>, b: seq<GroceryStore>)
    ensures Alerts(user, a + b) == Alerts(user, a) + Alerts(user, b)
  {
    if a != [] {
      assert (a + b)[1..] == a[1..] + b;
      AlertsAppend(user, a[1..], b);
    } else {
      assert a + b == b;
    }
  }

  lemma {:induction false} AlertCountIsNameCount(user: User, stores: seq<GroceryStore>, name: string)
    ensures AlertCount(Alerts(user, stores), name) == NameCount(stores, name)
  {
    if stores != [] {
      AlertCountIsNameCount(user, stores[1..], name);
    }
  }

  lemma {:induction false} EnteredFrom(stores: seq<GroceryStore>, distances: seq<real>, notified: set<string>, s: GroceryStore)
    requires |distances| == |stores|
    requires s in Entered(stores, distances, notified)
    ensures s in stores
  {
    if stores != [] && s !in (if distances[0] <= ProximityThreshold && stores[0].id !in notified then [stores[0]] else []) {
      EnteredFrom(stores[1..], distances[1..], notified, s);
    }
  }

  lemma {:induction false} NameCountAbsent(stores: seq<GroceryStore>, name: string)
    requires forall s :: s in stores ==> s.name != name
    ensures NameCount(stores, name) == 0
  {
    if stores != [] {
      NameCountAbsent(stores[1..], name);
    }
  }

  lemma {:induction false} EnteredNameCount(stores: seq<GroceryStore>, distances: seq<real>, notified: set<string>, k: nat)
    requires |distances| == |stores| && UniqueNames(stores) && k < |stores|
    ensures NameCount(Entered(stores, distances, notified), stores[k].name)
            == if distances[k] <= ProximityThreshold && stores[k].id !in notified then 1 else 0
  {
    var name := stores[k].name;
    var rest := Entered(stores[1..], distances[1..], notified);
    var head := if distances[0] <= ProximityThreshold && stores[0].id !in notified then [stores[0]] else [];
    assert Entered(stores, distances, notified) == head + rest;
    if k == 0 {
      forall s | s in rest ensures s.name != name {
        EnteredFrom(stores[1..], distances[1..], notified, s);
        var j :| 0 <= j < |stores[1..]| && stores[1..][j] == s;
        assert stores[j + 1] == s;
      }
      NameCountAbsent(rest, name);
      if head != [] {
        assert (head + rest)[1..] == rest;
      } else {
        assert head + rest == rest;
      }
    } else {
      EnteredNameCount(stores[1..], distances[1..], notified, k - 1);
      assert stores[1..][k - 1] == stores[k];
      assert stores[0].name != name;
      if head != [] {
        assert (head + rest)[1..] == rest;
      } else {
        assert head + rest == rest;
      }
    }
  }

  /** Exactly once per entry: in a sample, the store `stores[k]` is
      announced once if it is in range and was not announced before, and
      not at all otherwise. */
  lemma StepAlertCount(user: User, stores: seq<GroceryStore>, distances: seq<real>, notified: set<string>, k: nat)
    requires |distances| == |stores| && UniqueNames(stores) && k < |stores|
    ensures AlertCount(ProximityStep(user, Nearby(stores, distances), notified).sent, stores[k].name)
            == if distances[k] <= ProximityThreshold && stores[k].id !in notified then 1 else 0
  {
    SentInCatalogueOrder(user, stores, distances, notified);
    AlertCountIsNameCount(user, Entered(stores, distances, notified), stores[k].name);
    EnteredNameCount(stores, distances, notified, k);
  }

  lemma {:induction false} NearbyFrom(stores: seq<GroceryStore>, distances: seq<real>, s: GroceryStore) returns (j: nat)
    requires |distances| == |stores|
    requires s in Nearby(stores, distances)
    ensures j < |stores| && stores[j] == s && distances[j] <= ProximityThreshold
  {
    if distances[0] <= ProximityThreshold && s == stores[0] {
      j := 0;
    } else {
      var head := if distances[0] <= ProximityThreshold then [stores[0]] else [];
      assert s in Nearby(stores[1..], distances[1..]);
      var i := NearbyFrom(stores[1..], distances[1..], s);
      j := i + 1;
    }
  }

  /** Every nearby store is a catalogue store. */
  lemma NearbyWithin(stores: seq<GroceryStore>, distances: seq<real>)
    requires |distances| == |stores|
    ensures forall s :: s in Nearby(stores, distances) ==> s in stores
    ensures Ids(Nearby(stores, distances)) <= Ids(stores)
  {
    forall s | s in Nearby(stores, distances) ensures s in stores {
      var j := NearbyFrom(stores, distances, s);
    }
  }

  lemma {:induction false} NearbyHas(stores: seq<GroceryStore>, distances: seq<real>, k: nat)
    requires |distances| == |stores| && k < |stores| && distances[k] <= ProximityThreshold
    ensures stores[k] in Nearby(stores, distances)
  {
    if k > 0 {
      NearbyHas(stores[1..], distances[1..], k - 1);
    }
  }

  /** With unique ids, a store's id is among the nearby ids exactly when
      that store is within the threshold. */
  lemma NearbyIdsIff(stores: seq<GroceryStore>, distances: seq<real>, k: nat)
    requires |distances| == |stores| && UniqueIds(stores) && k < |stores|
    ensures stores[k].id in Ids(Nearby(stores, distances)) <==> distances[k] <= ProximityThreshold
  {
    if distances[k] <= ProximityThreshold {
      NearbyHas(stores, distances, k);
    } else if stores[k].id in Ids(Nearby(stores, distances)) {
      var s :| s in Nearby(stores, distances) && s.id == stores[k].id;
      var j := NearbyFrom(stores, distances, s);
      assert false;
    }
  }

  // ---------------------------------------------------------------------
  // A run of samples

  predicate SamplesFit(stores: seq<GroceryStore>, samples: seq<seq<real>>)
  {
    forall i :: 0 <= i < |samples| ==> |samples[i]| == |stores|
  }

  /** All notifications over consecutive gated samples, each sample seeing
      the announced set the previous one left. */
  function Trace(user: User, stores: seq<GroceryStore>, samples: seq<seq<real>>, notified: set<string>): seq<NotificationDraft>
    requires SamplesFit(stores, samples)
  {
    if samples == [] then []
    else
      var step := ProximityStep(user, Nearby(stores, samples[0]), notified);
      step.sent + Trace(user, stores, samples[1..], step.notified)
  }

  /** How many times store `k` comes into range over the samples: the
      samples where it is near and was not near just before. */
  function Entries(k: nat, samples: seq<seq<real>>, wasNear: bool): nat
    requires forall i :: 0 <= i < |samples| ==> k < |samples[i]|
  {
    if samples == [] then 0
    else
      var near := samples[0][k] <= ProximityThreshold;
      (if near && !wasNear then 1 else 0) + Entries(k, samples[1..], near)
  }

  /** Over any run of gated samples, each store is announced once per
      entry into range: staying near stays silent, leaving is silent, and
      coming back is announced again. */
  lemma {:induction false} TraceAlertsCountEntries(user: User, stores: seq<GroceryStore>, samples: seq<seq<real>>, notified: set<string>, k: nat)
    requires UniqueIds(stores) && UniqueNames(stores) && k < |stores| && SamplesFit(stores, samples)
    ensures AlertCount(Trace(user, stores, samples, notified), stores[k].name)
            == Entries(k, samples, stores[k].id in notified)
  {
    if samples != [] {
      var nearby := Nearby(stores, samples[0]);
      var step := ProximityStep(user, nearby, notified);
      var rest := Trace(user, stores, samples[1..], step.notified);
      AlertCountAppend(step.sent, rest, stores[k].name);
      StepAlertCount(user, stores, samples[0], notified, k);
      StepNotifiedIsNearby(user, nearby, notified);
      NearbyIdsIff(stores, samples[0], k);
      TraceAlertsCountEntries(user, stores, samples[1..], step.notified, k);
    }
  }

  /** Staying within range across two samples announces the store once. */
  lemma StayingNearAnnouncesOnce(user: User, stores: seq<GroceryStore>, first: seq<real>, second: seq<real>, notified: set<string>, k: nat)
    requires UniqueIds(stores) && UniqueNames(stores) && k < |stores| && stores[k].id !in notified
    requires |first| == |second| == |stores|
    requires first[k] <= ProximityThreshold && second[k] <= ProximityThreshold
    ensures AlertCount(Trace(user, stores, [first, second], notified), stores[k].name) == 1
  {
    TraceAlertsCountEntries(user, stores, [first, second], notified, k);
    assert [first, second][1..] == [second];
    assert Entries(k, [second], true) == 0 by {
      assert [second][1..] == [];
    }
  }

  /** Near, then out of range, then near again: announced twice. */
  lemma ReentryAnnouncesAgain(user: User, stores: seq<GroceryStore>, first: seq<real>, away: seq<real>, back: seq<real>, notified: set<string>, k: nat)
    requires UniqueIds(stores) && UniqueNames(stores) && k < |stores| && stores[k].id !in notified
    requires |first| == |away| == |back| == |stores|
    requires first[k] <= ProximityThreshold && away[k] > ProximityThreshold && back[k] <= ProximityThreshold
    ensures AlertCount(Trace(user, stores, [first, away, back], notified), stores[k].name) == 2
  {
    TraceAlertsCountEntries(user, stores, [first, away, back], notified, k);
    assert [first, away, back][1..] == [away, back];
    assert [away, back][1..] == [back];
    assert Entries(k, [back], false) == 1 by {
      assert [back][1..] == [];
    }
  }

  lemma CatalogueIsUnique()
    ensures UniqueIds(GroceryStores) && UniqueNames(GroceryStores)
  {
  }

  /** Which catalogue stores a sample finds near when only Whole Foods
      Market is within the threshold, and when none is. */
  lemma NearbyOnlyWholeFoods(d: seq<real>)
    requires |d| == 4 && d[1] > ProximityThreshold && d[2] > ProximityThreshold && d[3] > ProximityThreshold
    ensures Nearby(GroceryStores, d) == if d[0] <= ProximityThreshold then [GroceryStores[0]] else []
  {
    assert Nearby(GroceryStores[3..], d[3..]) == [] by {
      assert GroceryStores[3..][1..] == [];
    }
    assert Nearby(GroceryStores[2..], d[2..]) == [] by {
      assert GroceryStores[2..][1..] == GroceryStores[3..];
      assert d[2..][1..] == d[3..];
    }
    assert Nearby(GroceryStores[1..], d[1..]) == [] by {
      assert GroceryStores[1..][1..] == GroceryStores[2..];
      assert d[1..][1..] == d[2..];
    }
  }

  /** A member 0.3 miles from Whole Foods Market with nothing announced yet
      is announced, and the store joins the announced set. */
  lemma WholeFoodsAnnounced(user: User)
    ensures ProximityStep(user, Nearby(GroceryStores, [0.3, 2.0, 2.0, 2.0]), {})
            == Step([ShoppingAlert(user, GroceryStores[0])], {"1"})
  {
    NearbyOnlyWholeFoods([0.3, 2.0, 2.0, 2.0]);
    var wf := [GroceryStores[0]];
    AlertAndIdOfOne(user, GroceryStores[0]);
    assert NewlyNear(wf, {}) == wf by {
      assert wf[1..] == [];
    }
  }

  /** The alert names the member and the store. */
  lemma WholeFoodsTitle(user: User)
    ensures ShoppingAlert(user, GroceryStores[0]).title == user.name + " is near Whole Foods Market!"
  {
    assert GroceryStores[0].name == "Whole Foods Market";
  }

  /** Once the member is 0.8 miles away the next sample is silent and the
      store leaves the announced set. */
  lemma WholeFoodsLeft(user: User)
    ensures ProximityStep(user, Nearby(GroceryStores, [0.8, 2.0, 2.0, 2.0]), {"1"}) == Step([], {})
  {
    NearbyOnlyWholeFoods([0.8, 2.0, 2.0, 2.0]);
  }

  // ---------------------------------------------------------------------
  // The interval tick as written

  /** A location tick run from the interval timer. The callback was created
      when tracking was switched on, so its test reads the announced set
      `captured` from that moment, while the functional state updates apply
      to the set `current` the page holds now. */
  function StaleTick(user: User, nearby: seq<GroceryStore>, captured: set<string>, current: set<string>): (r: Step)
    ensures captured == current ==> r == ProximityStep(user, nearby, current)
    ensures r.notified <= Ids(nearby)
  {
    var entered := NewlyNear(nearby, captured);
    Step(Alerts(user, entered), (current + Ids(entered)) * Ids(nearby))
  }

  /** With tracking switched on from an empty announced set, a member who
      stays near Whole Foods Market is announced again on every tick,
      whereas a step reading the current set stays silent. */
  lemma StaleTickAnnouncesAgain(user: User)
    ensures var nearby := Nearby(GroceryStores, [0.3, 2.0, 2.0, 2.0]);
            var first := StaleTick(user, nearby, {}, {});
            var second := StaleTick(user, nearby, {}, first.notified);
            && first.notified == {"1"}
            && AlertCount(first.sent, "Whole Foods Market") == 1
            && AlertCount(second.sent, "Whole Foods Market") == 1
            && AlertCount(ProximityStep(user, nearby, first.notified).sent, "Whole Foods Market") == 0
  {
    NearbyOnlyWholeFoods([0.3, 2.0, 2.0, 2.0]);
    var wf := [GroceryStores[0]];
    assert wf[1..] == [];
    assert NewlyNear(wf, {}) == wf;
    assert NewlyNear(wf, {"1"}) == [];
    assert Alerts(user, wf) == [ShoppingAlert(user, GroceryStores[0])];
    assert AlertCount(Alerts(user, wf), "Whole Foods Market") == 1;
    StepNotifiedIsNearby(user, wf, {});
    assert Ids(wf) == {"1"};
  }
}
