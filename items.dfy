/** The shared grocery list: how documents from the realtime items listener
    become list entries, the document an added item is written as, and the
    field update that toggles an item's completion. */
module Items {
  import opened Types
  import opened Strings

  /** A timestamp field of a stored document: absent or null, a Firestore
      timestamp (shown by its ISO string), or some other truthy value that
      has no `toDate`. */
  datatype DocTimestamp = Missing | Stamp(iso: string) | NoDate

  /** A stored item document, with the fields the page writes or reads. */
  datatype ItemDoc = ItemDoc(
    id: string,
    name: Option<string>,
    addedById: Option<string>,
    addedByName: Option<string>,
    addedBy: Option<string>,
    addedAt: DocTimestamp,
    completed: Option<bool>,
    completedById: Option<string>,
    completedByName: Option<string>,
    completedAt: DocTimestamp)

  function OrEmpty(s: Option<string>): string
  {
    if Truthy(s) then s.value else ""
  }

  /** `data.addedAt?.toDate?.() || new Date()`, as an ISO string. */
  function StampOrNow(t: DocTimestamp, nowIso: string): string
  {
    if t.Stamp? then t.iso else nowIso
  }

  /** The listener's mapping of one document to a list entry; `nowIso` is
      `new Date().toISOString()` at the time of the snapshot. */
  function ItemFromDoc(d: ItemDoc, nowIso: string): (item: GroceryItem)
    ensures item.id == d.id
    // `name || ""`
    ensures Truthy(d.name) ==> item.name == d.name.value
    ensures !Truthy(d.name) ==> item.name == ""
    // `addedByName || addedBy || ""`
    ensures Truthy(d.addedByName) ==> item.addedBy == d.addedByName.value
    ensures !Truthy(d.addedByName) && Truthy(d.addedBy) ==> item.addedBy == d.addedBy.value
    ensures !Truthy(d.addedByName) && !Truthy(d.addedBy) ==> item.addedBy == ""
    // `addedAt?.toDate?.() || new Date()`
    ensures d.addedAt.Stamp? ==> item.addedAt == d.addedAt.iso
    ensures !d.addedAt.Stamp? ==> item.addedAt == nowIso
    // `!!completed`
    ensures item.completed <==> d.completed == Some(true)
    ensures item.completedBy == d.completedByName
    // a falsy `completedAt` is dropped; a truthy one without `toDate` reads as now
    ensures item.completedAt.None? <==> d.completedAt.Missing?
    ensures d.completedAt.Stamp? ==> item.completedAt == Some(d.completedAt.iso)
    ensures d.completedAt.NoDate? ==> item.completedAt == Some(nowIso)
  {
    GroceryItem(
      d.id,
      OrEmpty(d.name),
      if Truthy(d.addedByName) then d.addedByName.value else OrEmpty(d.addedBy),
      StampOrNow(d.addedAt, nowIso),
      d.completed == Some(true),
      d.completedByName,
      if d.completedAt.Missing? then None else Some(StampOrNow(d.completedAt, nowIso)))
  }

  /** The list a snapshot yields: its documents, mapped, in snapshot order. */
  function ItemsFromSnapshot(docs: seq<ItemDoc>, nowIso: string): (items: seq<GroceryItem>)
    ensures |items| == |docs|
    ensures forall k :: 0 <= k < |docs| ==> items[k] == ItemFromDoc(docs[k], nowIso)
  {
    if docs == [] then [] else [ItemFromDoc(docs[0], nowIso)] + ItemsFromSnapshot(docs[1..], nowIso)
  }

  function ItemIds(items: seq<GroceryItem>): seq<string>
  {
    if items == [] then [] else [items[0].id] + ItemIds(items[1..])
  }

  function DocIds(docs: seq<ItemDoc>): seq<string>
  {
    if docs == [] then [] else [docs[0].id] + DocIds(docs[1..])
  }

  /** The snapshot replaces the list: it holds one entry per document, with
      the document's id, in the same order, and nothing else. */
  lemma {:induction false} SnapshotKeepsDocumentIds(docs: seq<ItemDoc>, nowIso: string)
    ensures |ItemsFromSnapshot(docs, nowIso)| == |docs|
    ensures ItemIds(ItemsFromSnapshot(docs, nowIso)) == DocIds(docs)
  {
    if docs != [] {
      SnapshotKeepsDocumentIds(docs[1..], nowIso);
    }
  }

  predicate IsTempId(id: string)
  {
    |id| >= 5 && id[..5] == "temp-"
  }

  /** No optimistic entry survives a snapshot: after it, an id starting with
      "temp-" is in the list only if some document carries that id. */
  lemma {:induction false} SnapshotDropsOptimistic(docs: seq<ItemDoc>, nowIso: string, id: string)
    requires id in ItemIds(ItemsFromSnapshot(docs, nowIso))
    ensures id in DocIds(docs)
  {
    SnapshotKeepsDocumentIds(docs, nowIso);
  }

  function IdCount(ids: seq<string>, id: string): nat
  {
    if ids == [] then 0 else (if ids[0] == id then 1 else 0) + IdCount(ids[1..], id)
  }

  /** An added item, once confirmed, is listed exactly as often as the
      snapshot holds its document (once, when the backend gave it a fresh
      id), whatever optimistic entries the list held before. */
  lemma ConfirmedItemListedOnce(docs: seq<ItemDoc>, nowIso: string, id: string)
    ensures IdCount(ItemIds(ItemsFromSnapshot(docs, nowIso)), id) == IdCount(DocIds(docs), id)
  {
    SnapshotKeepsDocumentIds(docs, nowIso);
  }

  /** `groceryList.find(i => i.id === itemId)`. */
  function FindItem(items: seq<GroceryItem>, id: string): (r: Option<GroceryItem>)
    ensures r.None? <==> forall i :: 0 <= i < |items| ==> items[i].id != id
    ensures r.Some? ==> exists k :: 0 <= k < |items| && items[k] == r.value && r.value.id == id
                                    && forall j :: 0 <= j < k ==> items[j].id != id
  {
    if items == [] then None
    else if items[0].id == id then Some(items[0])
    else
      var r := FindItem(items[1..], id);
      if r.Some? then
        ghost var k :| 0 <= k < |items[1..]| && items[1..][k] == r.value && r.value.id == id
                       && forall j :: 0 <= j < k ==> items[1..][j].id != id;
        assert items[k + 1] == r.value;
        r
      else r
  }

  /** `groceryList.some(item => !item.completed)`. */
  function HasOpenItem(items: seq<GroceryItem>): (r: bool)
    ensures r <==> exists i :: 0 <= i < |items| && !items[i].completed
  {
    if items == [] then false
    else if !items[0].completed then true
    else
      var r := HasOpenItem(items[1..]);
      assert r ==> exists i :: 0 <= i < |items[1..]| && !items[1..][i].completed;
      assert forall i :: 1 <= i < |items| ==> items[i] == items[1..][i - 1];
      r
  }

  // ---------------------------------------------------------------------
  // Writes

  /** A timestamp field in a write: the server's commit time, or null. */
  datatype StampWrite = ServerTimestamp | NullStamp

  /** The entry `addGroceryItem` appends before the backend answers: a
      "temp-" id, the trimmed name, the adder's name, open. */
  function OptimisticItem(tempSuffix: string, name: string, addedBy: string, nowIso: string): (item: GroceryItem)
    ensures IsTempId(item.id) && item.name == name && item.addedBy == addedBy && item.addedAt == nowIso
    ensures !item.completed && item.completedBy.None? && item.completedAt.None?
  {
    GroceryItem("temp-" + tempSuffix, name, addedBy, nowIso, false, None, None)
  }

  /** The banner text before the failure's message when an add fails. */
  const AddFailurePrefix: string := "Failed to add item: "

  /** The document `addGroceryItem` asks the backend to create (its
      `addedAt` is the server timestamp). */
  datatype NewItemWrite = NewItemWrite(name: string, addedById: Option<string>, addedByName: string, completed: bool)

  /** The fields `toggleItemCompletion` writes. */
  datatype CompletionUpdate = CompletionUpdate(
    completed: bool,
    completedById: Option<string>,
    completedByName: Option<string>,
    completedAt: StampWrite)

  /** The fields written for an item that will become `willComplete`:
      attribution by the current user when completing, cleared otherwise.
      `uid || null` also clears the id when the session has no uid. */
  function CompletionFor(willComplete: bool, uid: Option<string>, userName: string): (u: CompletionUpdate)
    ensures u.completed == willComplete
    ensures u.completedByName.Some? <==> willComplete
    ensures u.completedByName.Some? ==> u.completedByName.value == userName
    ensures u.completedAt == ServerTimestamp <==> willComplete
    ensures u.completedById.Some? <==> willComplete && Truthy(uid)
    ensures u.completedById.Some? ==> u.completedById == uid
  {
    CompletionUpdate(
      willComplete,
      if willComplete && Truthy(uid) then uid else None,
      if willComplete then Some(userName) else None,
      if willComplete then ServerTimestamp else NullStamp)
  }

  /** The document the backend holds after it commits `u` at `commitIso`:
      the four written fields are replaced, the rest kept. */
  function ApplyCompletion(d: ItemDoc, u: CompletionUpdate, commitIso: string): ItemDoc
  {
    d.(completed := Some(u.completed),
       completedById := u.completedById,
       completedByName := u.completedByName,
       completedAt := if u.completedAt == ServerTimestamp then Stamp(commitIso) else Missing)
  }

  /** The document the backend creates for `w` at `commitIso` under `id`. */
  function CreatedDoc(id: string, w: NewItemWrite, commitIso: string): ItemDoc
  {
    ItemDoc(id, Some(w.name), w.addedById, Some(w.addedByName), None, Stamp(commitIso),
            Some(w.completed), None, None, Missing)
  }

  /** Toggling writes the opposite state, and once the write is committed
      the listed item carries a completer and a completion time exactly
      when it is completed. */
  lemma ToggleAttribution(d: ItemDoc, existing: bool, uid: Option<string>, userName: string, commitIso: string, nowIso: string)
    ensures var item := ItemFromDoc(ApplyCompletion(d, CompletionFor(!existing, uid, userName), commitIso), nowIso);
            && item.completed == !existing
            && (item.completedBy.Some? <==> item.completed)
            && (item.completedAt.Some? <==> item.completed)
            && (item.completed ==> item.completedBy == Some(userName) && item.completedAt == Some(commitIso))
  {
  }

  /** Concurrent toggles: the update committed last decides every written
      field, so the attribution always agrees with the final state. This is
      a property of the backend abstraction `ApplyCompletion`, which
      overwrites all four fields of the update; it holds of the page because
      every toggle writes those same four fields. */
  lemma LastToggleWins(d: ItemDoc, first: CompletionUpdate, second: CompletionUpdate, t1: string, t2: string)
    ensures ApplyCompletion(ApplyCompletion(d, first, t1), second, t2) == ApplyCompletion(d, second, t2)
  {
  }

  /** A confirmed added item is listed open, with the trimmed name and the
      adder's name, and without completion attribution. */
  lemma AddedItemListedOpen(id: string, typed: string, uid: Option<string>, userName: string, commitIso: string, nowIso: string)
    requires Trim(typed) != []
    ensures var item := ItemFromDoc(CreatedDoc(id, NewItemWrite(Trim(typed), uid, userName, false), commitIso), nowIso);
            && item.id == id && item.name == Trim(typed) && item.addedBy == userName
            && item.addedAt == commitIso && !item.completed
            && item.completedBy.None? && item.completedAt.None?
  {
  }
}
