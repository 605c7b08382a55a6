/** The records the grocery page works with, and the small wrappers used to
    stand for JavaScript's optional values and the outcome of a backend write. */
module Types {

  /** An optional value: `undefined`/`null` is `None`. */
  datatype Option<T> = None | Some(value: T)

  /** How an awaited backend call settled: resolved, or rejected with the
      error's message. */
  datatype Outcome = Done | Failed(message: string)

  /** JavaScript truthiness of an optional string: present and non-empty. */
  predicate Truthy(s: Option<string>)
  {
    s.Some? && s.value != ""
  }

  datatype User = User(id: string, name: string, householdId: string)

  datatype Household = Household(id: string, name: string, members: seq<User>, createdAt: string)

  /** A list entry as the page keeps it; `completedBy`/`completedAt` are
      absent for an open item. */
  datatype GroceryItem = GroceryItem(
    id: string,
    name: string,
    addedBy: string,
    addedAt: string,
    completed: bool,
    completedBy: Option<string>,
    completedAt: Option<string>)

  /** Latitude and longitude are the sensor's floating-point degrees; only
      their storage is modelled, never arithmetic on them. */
  datatype GroceryStore = GroceryStore(id: string, name: string, lat: real, lng: real, address: string)

  datatype LocationData = LocationData(lat: real, lng: real, timestamp: int)

  datatype NotificationKind = StoreProximity | MemberShopping

  /** A notification as the page lists it. */
  datatype Notification = Notification(
    id: string,
    kind: NotificationKind,
    title: string,
    message: string,
    timestamp: int,
    read: bool,
    userId: Option<string>,
    storeName: Option<string>)

  /** What the page hands to `createNotification`: a notification before the
      backend gives it an id, a timestamp and a read state. */
  datatype NotificationDraft = NotificationDraft(
    kind: NotificationKind,
    title: string,
    message: string,
    userId: Option<string>,
    storeName: Option<string>)
}
