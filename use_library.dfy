/** The library facade a page uses: an in-memory snapshot of the stored items and
    activity log, kept up to date after every mutation it routes to the store.
    The snapshot is a `LibraryView` object whose fields the operations update in
    place; the store is the `Storage.Store` it wraps. */
module UseLibrary {
  import opened Collections
  import opened Types
  import opened Storage

  /** `prev.map(item => item.id === updated.id ? updated : item)`: every item with
      the id of `updated` is replaced by it, the others stay where they are. */
  function ReplaceById(xs: seq<MediaItem>, updated: MediaItem): (r: seq<MediaItem>)
    ensures |r| == |xs|
    ensures forall j :: 0 <= j < |xs| && xs[j].id != updated.id ==> r[j] == xs[j]
    ensures forall j :: 0 <= j < |xs| && xs[j].id == updated.id ==> r[j] == updated
  {
    seq(|xs|, j requires 0 <= j < |xs| => if xs[j].id == updated.id then updated else xs[j])
  }

  /** With unique ids, replacing the patched item in the snapshot gives exactly the
      list the store writes for the same patch. */
  lemma ReplaceByIdIsUpdated(xs: seq<MediaItem>, id: string, patch: ItemPatch, now: Timestamp)
    requires UniqueIds(xs) && patch.id.None?
    requires FindIndex(xs, HasId(id)) >= 0
    ensures ReplaceById(xs, ApplyPatch(xs[FindIndex(xs, HasId(id))], patch, now)) == Updated(xs, id, patch, now)
  {
    var i := FindIndex(xs, HasId(id));
    var u := ApplyPatch(xs[i], patch, now);
    var r := ReplaceById(xs, u);
    var w := Updated(xs, id, patch, now);
    forall j | 0 <= j < |xs| ensures r[j] == w[j] {
      if j < i {
        assert IdOf(xs[j]) != IdOf(xs[i]);
      } else if j > i {
        assert IdOf(xs[i]) != IdOf(xs[j]);
      }
    }
  }

  /** Replacing by an id no item has leaves the snapshot as it is. */
  lemma ReplaceByIdAbsent(xs: seq<MediaItem>, updated: MediaItem)
    requires FindIndex(xs, HasId(updated.id)) < 0
    ensures ReplaceById(xs, updated) == xs
  {
    forall j | 0 <= j < |xs| ensures ReplaceById(xs, updated)[j] == xs[j] {
      assert !HasId(updated.id)(xs[j]);
    }
  }

  /** The item `addFromSearch` asks the store to create from a search hit: the hit's
      provider, id, title, image, year text and genres. */
  function FromSearch(t: MediaType, result: SearchResult, newId: string, now: Timestamp): (item: MediaItem)
    ensures Key(item) == (t, result.externalId) && item.provider == result.provider
    ensures item.id == newId && item.status == Wishlist && item.createdAt == now
  {
    NewItem(t, result.provider, result.externalId, Some(result.title), Some(result.image),
            YearText(result.year), Some(result.genres), newId, now)
  }

  /** What adding the hit `hit` does to the stored list `before`, giving `after`
      and the returned `item`: the list is `Added(before, hit)` and holds `item`,
      which has the hit's key; a work already stored comes back as it is and the
      list stays the same, a new one is appended and returned. */
  ghost predicate HitStored(before: seq<MediaItem>, after: seq<MediaItem>, hit: MediaItem, item: MediaItem) {
    var existing := Find(before, HasKey(hit.mediaType, hit.externalId));
    && after == Added(before, hit)
    && Key(item) == Key(hit) && item in after
    && (existing.Some? ==> item == existing.value && after == before)
    && (existing.None? ==> item == hit && after == before + [hit])
  }

  /** With the snapshot taken from the store, appending the item `addFromSearch`
      returns for a work already in the library leaves one copy more of that work
      in the snapshot than the store holds, and the snapshot's keys stop being unique. */
  lemma AppendedSnapshotDuplicates(stored: seq<MediaItem>, entry: MediaItem)
    requires Find(stored, HasKey(entry.mediaType, entry.externalId)).Some?
    ensures var k := HasKey(entry.mediaType, entry.externalId);
      var item := Find(stored, k).value;
      && Added(stored, entry) == stored
      && |Filter(stored + [item], k)| == |Filter(Added(stored, entry), k)| + 1
      && !UniqueKeys(stored + [item])
  {
    var k := HasKey(entry.mediaType, entry.externalId);
    var item := Find(stored, k).value;
    FilterConcat(stored, [item], k);
    var i :| 0 <= i < |stored| && stored[i] == item;
    var s := stored + [item];
    assert s[i] == s[|stored|];
    assert Key(s[i]) == Key(s[|stored|]);
  }

  /** The snapshot split by media type (`itemsByType`). */
  datatype ByType = ByType(movie: seq<MediaItem>, book: seq<MediaItem>, music: seq<MediaItem>)

  class LibraryView {
    /** The store every operation reads from and writes to. */
    const store: Store
    /** The snapshot of the stored items and of the activity log. */
    var items: seq<MediaItem>
    var activity: seq<ActivityEvent>

    /** A fresh view starts with empty lists, before its first refresh. */
    constructor (store: Store)
      ensures this.store == store && items == [] && activity == []
    {
      this.store := store;
      items := [];
      activity := [];
    }

    /** The snapshot shows exactly what the store holds. */
    ghost predicate InSync()
      reads this, store
    {
      items == store.GetAllItems() && activity == store.GetActivity()
    }

    /** `refresh`: re-reads both lists from the store. */
    method Refresh()
      modifies this
      ensures InSync()
    {
      items := store.GetAllItems();
      activity := store.GetActivity();
    }

    /** `syncItem`: with no item, keeps the snapshot; otherwise replaces the item
        with that id in the snapshot and re-reads the activity log. */
    method SyncItem(updated: Option<MediaItem>) returns (r: Option<MediaItem>)
      modifies this
      ensures r == updated
      ensures updated.None? ==> unchanged(this)
      ensures updated.Some? ==> items == ReplaceById(old(items), updated.value) && activity == store.GetActivity()
    {
      if updated.None? {
        return None;
      }
      items := ReplaceById(items, updated.value);
      activity := store.GetActivity();
      return updated;
    }

    /** The snapshot side of `addFromSearch`: the returned item is appended to the
        snapshot and the activity log is re-read. */
    method AppendItem(item: MediaItem)
      modifies this
      ensures items == old(items) + [item] && activity == store.GetActivity()
    {
      items, activity := items + [item], store.GetActivity();
    }

    /** The store call both forms of `addFromSearch` make: the hit is added unless
        its work is already stored, in which case the stored item comes back. */
    method StoreHit(t: MediaType, result: SearchResult, newId: string, now: Timestamp)
      returns (item: MediaItem)
      modifies store
      ensures HitStored(old(store.GetAllItems()), store.GetAllItems(), FromSearch(t, result, newId, now), item)
      ensures Find(old(store.GetAllItems()), HasKey(t, result.externalId)).Some? ==> unchanged(store)
      ensures old(UniqueKeys(store.GetAllItems())) ==> UniqueKeys(store.GetAllItems())
    {
      ghost var before := store.GetAllItems();
      item := store.AddItem(t, result.provider, result.externalId, Some(result.title), Some(result.image),
                            YearText(result.year), Some(result.genres), newId, now);
      AddedOutcome(before, FromSearch(t, result, newId, now));
    }

    /** `addFromSearch`, as written: stores the hit (or finds it already stored) and
        appends the returned item to the snapshot whether or not the store grew.
        The snapshot stays in sync only when the work was new. */
    method AddFromSearch(t: MediaType, result: SearchResult, newId: string, now: Timestamp)
      returns (item: MediaItem)
      modifies this, store
      ensures HitStored(old(store.GetAllItems()), store.GetAllItems(), FromSearch(t, result, newId, now), item)
      ensures Find(old(store.GetAllItems()), HasKey(t, result.externalId)).Some? ==> unchanged(store)
      ensures items == old(items) + [item] && activity == store.GetActivity()
      ensures old(InSync()) && Find(old(store.GetAllItems()), HasKey(t, result.externalId)).None? ==> InSync()
    {
      item := StoreHit(t, result, newId, now);
      AppendItem(item);
    }

    /** `addFromSearch`, corrected: the snapshot is reloaded from the store, so it
        is in step with it whether or not the work was already there. The store
        refuses a second copy of a key (src/lib/storage.ts:80-83), and every other
        mutation of the hook keeps the snapshot equal to the store (`refresh`, and
        the `prev.map` and `prev.filter` of src/hooks/useLibrary.ts:31 and :68). */
    method AddFromSearchSynced(t: MediaType, result: SearchResult, newId: string, now: Timestamp)
      returns (item: MediaItem)
      modifies this, store
      ensures HitStored(old(store.GetAllItems()), store.GetAllItems(), FromSearch(t, result, newId, now), item)
      ensures Find(old(store.GetAllItems()), HasKey(t, result.externalId)).Some? ==> unchanged(store)
      ensures InSync()
      ensures old(InSync()) ==> items == Added(old(items), FromSearch(t, result, newId, now))
      ensures old(InSync() && UniqueKeys(store.GetAllItems())) ==> UniqueKeys(items)
    {
      item := StoreHit(t, result, newId, now);
      Refresh();
    }

    /** `rateItem`: the store's `updateRating`, then `syncItem`. */
    method RateItem(id: string, rating: Option<real>, now: Timestamp) returns (r: Option<MediaItem>)
      modifies this, store
      ensures var i := old(FindIndex(store.GetAllItems(), HasId(id)));
        && (r.None? <==> i < 0)
        && (r.Some? ==> r.value == old(store.GetAllItems())[i].(yourRating := NormalizeRating(rating), updatedAt := now))
      ensures store.GetAllItems() == Updated(old(store.GetAllItems()), id, NoChanges.(yourRating := Some(NormalizeRating(rating))), now)
      ensures r.None? ==> unchanged(this, store)
      ensures r.Some? ==> items == ReplaceById(old(items), r.value) && activity == store.GetActivity()
      ensures old(InSync() && UniqueIds(store.GetAllItems())) ==> InSync() && UniqueIds(store.GetAllItems())
    {
      ghost var before := store.GetAllItems();
      var updated := store.UpdateRating(id, rating, now);
      if updated.Some? && before == items && UniqueIds(before) {
        ReplaceByIdIsUpdated(before, id, NoChanges.(yourRating := Some(NormalizeRating(rating))), now);
      }
      r := SyncItem(updated);
    }

    /** `reviewItem`: the store's `updateReview`, then `syncItem`. */
    method ReviewItem(id: string, review: string, spoiler: bool, now: Timestamp) returns (r: Option<MediaItem>)
      modifies this, store
      ensures var i := old(FindIndex(store.GetAllItems(), HasId(id)));
        && (r.None? <==> i < 0)
        && (r.Some? ==> r.value == old(store.GetAllItems())[i].(yourReview := review, spoiler := spoiler, updatedAt := now))
      ensures store.GetAllItems() == Updated(old(store.GetAllItems()), id, NoChanges.(yourReview := Some(review), spoiler := Some(spoiler)), now)
      ensures r.None? ==> unchanged(this, store)
      ensures r.Some? ==> items == ReplaceById(old(items), r.value) && activity == store.GetActivity()
      ensures old(InSync() && UniqueIds(store.GetAllItems())) ==> InSync() && UniqueIds(store.GetAllItems())
    {
      ghost var before := store.GetAllItems();
      var updated := store.UpdateReview(id, review, spoiler, now);
      if updated.Some? && before == items && UniqueIds(before) {
        ReplaceByIdIsUpdated(before, id, NoChanges.(yourReview := Some(review), spoiler := Some(spoiler)), now);
      }
      r := SyncItem(updated);
    }

    /** `setStatus`: the store's `updateStatus`, then `syncItem`. */
    method SetStatus(id: string, status: Status, now: Timestamp) returns (r: Option<MediaItem>)
      modifies this, store
      ensures var i := old(FindIndex(store.GetAllItems(), HasId(id)));
        && (r.None? <==> i < 0)
        && (r.Some? ==> r.value == StatusChanged(old(store.GetAllItems())[i], status, now))
      ensures store.GetAllItems() == Updated(old(store.GetAllItems()), id, StatusPatch(old(store.GetItemById(id)), status, now), now)
      ensures r.None? ==> unchanged(this, store)
      ensures r.Some? ==> items == ReplaceById(old(items), r.value) && activity == store.GetActivity()
      ensures old(InSync() && UniqueIds(store.GetAllItems())) ==> InSync() && UniqueIds(store.GetAllItems())
    {
      ghost var before := store.GetAllItems();
      ghost var patch := StatusPatch(store.GetItemById(id), status, now);
      var updated := store.UpdateStatus(id, status, now);
      if updated.Some? && before == items && UniqueIds(before) {
        ReplaceByIdIsUpdated(before, id, patch, now);
      }
      r := SyncItem(updated);
    }

    /** `setTags`: the store's `updateTags`, then `syncItem`. */
    method SetTags(id: string, tags: seq<string>, now: Timestamp) returns (r: Option<MediaItem>)
      modifies this, store
      ensures var i := old(FindIndex(store.GetAllItems(), HasId(id)));
        && (r.None? <==> i < 0)
        && (r.Some? ==> r.value == old(store.GetAllItems())[i].(tags := tags, updatedAt := now))
      ensures store.GetAllItems() == Updated(old(store.GetAllItems()), id, NoChanges.(tags := Some(tags)), now)
      ensures r.None? ==> unchanged(this, store)
      ensures r.Some? ==> items == ReplaceById(old(items), r.value) && activity == store.GetActivity()
      ensures old(InSync() && UniqueIds(store.GetAllItems())) ==> InSync() && UniqueIds(store.GetAllItems())
    {
      ghost var before := store.GetAllItems();
      var updated := store.UpdateTags(id, tags, now);
      if updated.Some? && before == items && UniqueIds(before) {
        ReplaceByIdIsUpdated(before, id, NoChanges.(tags := Some(tags)), now);
      }
      r := SyncItem(updated);
    }

    /** `removeItem`: deletes from the store and, when something was deleted, drops
        the item from the snapshot and re-reads the activity log. */
    method RemoveItem(id: string) returns (deleted: bool)
      modifies this, store
      ensures deleted <==> old(FindIndex(store.GetAllItems(), HasId(id))) >= 0
      ensures store.GetAllItems() == Filter(old(store.GetAllItems()), HasOtherId(id))
      ensures deleted ==> items == Filter(old(items), HasOtherId(id)) && activity == store.GetActivity()
      ensures !deleted ==> unchanged(this, store)
      ensures old(InSync()) ==> InSync()
    {
      ghost var before := store.GetAllItems();
      deleted := store.DeleteItem(id);
      if deleted {
        items := Filter(items, HasOtherId(id));
        activity := store.GetActivity();
      } else {
        DeleteFindsId(before, id);
        FilterKeepsAll(before, HasOtherId(id));
      }
    }

    /** `itemsByType`: the snapshot split by media type, each part in snapshot
        order; the three parts together hold every item once. */
    function ItemsByType(): (r: ByType)
      reads this
      ensures forall x :: x in r.movie <==> x in items && x.mediaType == Movie
      ensures forall x :: x in r.book <==> x in items && x.mediaType == Book
      ensures forall x :: x in r.music <==> x in items && x.mediaType == Music
      ensures forall x :: multiset(r.movie)[x] == if x.mediaType == Movie then multiset(items)[x] else 0
      ensures forall x :: multiset(r.book)[x] == if x.mediaType == Book then multiset(items)[x] else 0
      ensures forall x :: multiset(r.music)[x] == if x.mediaType == Music then multiset(items)[x] else 0
      ensures IsSubsequence(r.movie, items) && IsSubsequence(r.book, items) && IsSubsequence(r.music, items)
      ensures |r.movie| + |r.book| + |r.music| == |items|
    {
      TypeCountsSum(items);
      FilterMultiset(items, OfType(Movie));
      FilterMultiset(items, OfType(Book));
      FilterMultiset(items, OfType(Music));
      FilterSubsequence(items, OfType(Movie));
      FilterSubsequence(items, OfType(Book));
      FilterSubsequence(items, OfType(Music));
      ByType(Filter(items, OfType(Movie)), Filter(items, OfType(Book)), Filter(items, OfType(Music)))
    }
  }
}
