/** The persisted library (`src/lib/storage.ts`): two JSON lists in browser storage,
    the media items and the append-only activity log, behind one store object.

    The store is a class whose `items` and `activity` fields stand for the two stored
    lists; `itemsUnreadable` / `activityUnreadable` say that the stored text cannot be
    parsed, in which case every read sees an empty list and the next write replaces
    it. The clock and the id generator are parameters (`now`, `newId`) of the
    operations that use them. */
module Storage {
  import opened Collections
  import opened Strings
  import opened Numbers
  import opened Types

  const RatingMin: real := 0.0
  const RatingMax: real := 5.0

  // ---------------------------------------------------------------------------
  // Input normalisation
  // ---------------------------------------------------------------------------

  /** `Math.min(RATING_MAX, Math.max(RATING_MIN, v))`. */
  function Clamp(v: real): (c: real)
    ensures RatingMin <= c <= RatingMax
    ensures RatingMin <= v <= RatingMax ==> c == v
    ensures v < RatingMin ==> c == RatingMin
    ensures RatingMax < v ==> c == RatingMax
  {
    if v < RatingMin then RatingMin else if RatingMax < v then RatingMax else v
  }

  /** `x` is a whole multiple of one half. */
  predicate IsHalfStep(x: real) {
    (2.0 * x).Floor as real == 2.0 * x
  }

  /** A rating as stored: `null` stays `null`; a number is clamped to [0, 5] and
      rounded to the nearest half, halves of a half rounded up. */
  function NormalizeRating(value: Option<real>): (r: Option<real>)
    ensures r.None? <==> value.None?
    ensures r.Some? ==> RatingMin <= r.value <= RatingMax && IsHalfStep(r.value)
    ensures r.Some? ==> Clamp(value.value) - 0.25 < r.value <= Clamp(value.value) + 0.25
  {
    match value
    case None => None
    case Some(v) =>
      var n := Round(Clamp(v) * 2.0);
      assert (2.0 * (n as real / 2.0)).Floor == n;
      Some(n as real / 2.0)
  }

  /** Two half steps within the same half-open window of width one half are equal:
      with the contract of `NormalizeRating` this pins its result down completely. */
  lemma HalfStepUnique(a: real, b: real, c: real)
    requires IsHalfStep(a) && IsHalfStep(b)
    requires c - 0.25 < a <= c + 0.25 && c - 0.25 < b <= c + 0.25
    ensures a == b
  {
    var m, n := (2.0 * a).Floor, (2.0 * b).Floor;
    assert m as real == 2.0 * a && n as real == 2.0 * b;
    assert -1 < m - n < 1;
  }

  /** A rating that is already a half step in range is stored as given. */
  lemma NormalizeRatingKeepsHalfSteps(x: real)
    requires RatingMin <= x <= RatingMax && IsHalfStep(x)
    ensures NormalizeRating(Some(x)) == Some(x)
  {
    var r := NormalizeRating(Some(x));
    HalfStepUnique(r.value, x, x);
  }

  /** Normalising twice is normalising once. */
  lemma NormalizeRatingIdempotent(value: Option<real>)
    ensures NormalizeRating(NormalizeRating(value)) == NormalizeRating(value)
  {
    if value.Some? {
      NormalizeRatingKeepsHalfSteps(NormalizeRating(value).value);
    }
  }

  /** The behaviour the store's callers rely on: 4.3 becomes 4.5, 5.9 becomes 5,
      -1 becomes 0 and 3.75 rounds up to 4. */
  lemma NormalizeRatingExamples()
    ensures NormalizeRating(Some(4.3)) == Some(4.5)
    ensures NormalizeRating(Some(5.9)) == Some(5.0)
    ensures NormalizeRating(Some(-1.0)) == Some(0.0)
    ensures NormalizeRating(Some(3.75)) == Some(4.0)
  {
    assert (8.6 + 0.5).Floor == 9;
    assert (10.0 + 0.5).Floor == 10;
    assert (0.0 + 0.5).Floor == 0;
    assert (7.5 + 0.5).Floor == 8;
  }

  /** The year of a new item as the caller hands it over: a finite number, a number
      that is not finite, or text. */
  datatype YearInput = YearNumber(number: real) | YearNotFinite | YearText(text: string)

  /** A finite number is kept; anything else is read with `parseInt`, and 0 stands
      in when no integer can be read. */
  function SanitizeYear(year: YearInput): (r: real)
    ensures year.YearNumber? ==> r == year.number
    ensures year.YearNotFinite? ==> r == 0.0
    ensures year.YearText? ==> r == r.Floor as real
  {
    match year
    case YearNumber(n) => n
    case YearNotFinite => 0.0
    case YearText(t) => match ParseInt(t) case Some(v) => v as real case None => 0.0
  }

  /** Text that starts with the decimal form of a year gives that year
      (`"2010"`, `"2010-05-01"`). */
  lemma SanitizeYearReadsLeadingYear(y: int, rest: string)
    requires rest == [] || !IsDigit(rest[0])
    ensures SanitizeYear(YearText(IntToString(y) + rest)) == y as real
  {
    ParseIntOfIntToString(y, rest);
  }

  /** Text with no leading integer gives 0: the empty text, and text such as
      `"Unknown"` that opens with something other than whitespace, a sign or a digit. */
  lemma SanitizeYearUnknown(t: string)
    requires t != [] ==> !IsJsWhitespace(t[0]) && !IsDigit(t[0]) && t[0] != '-' && t[0] != '+'
    ensures SanitizeYear(YearText(t)) == 0.0
  {
    ParseIntNoNumber(t);
  }

  /** The genres of a new item: the non-empty strings, in order; anything that is
      not a list gives none. */
  function CleanGenres(genres: Option<seq<string>>): (r: seq<string>)
    ensures "" !in r
    ensures genres.None? ==> r == []
    ensures genres.Some? ==> forall g :: g in r <==> g in genres.value && g != ""
    ensures genres.Some? ==> |r| <= |genres.value|
    ensures genres.Some? ==> forall g :: multiset(r)[g] == if g != "" then multiset(genres.value)[g] else 0
    ensures genres.Some? ==> IsSubsequence(r, genres.value)
  {
    match genres
    case None => []
    case Some(gs) =>
      FilterMultiset(gs, g => g != "");
      FilterSubsequence(gs, g => g != "");
      Filter(gs, g => g != "")
  }

  /** The title of a new item: the trimmed text, or "Untitled" when that is empty or
      there is no text. It is never empty and never starts or ends with whitespace. */
  function CleanText(text: Option<string>): (r: string)
    ensures r != [] && !IsJsWhitespace(r[0]) && !IsJsWhitespace(r[|r| - 1])
    ensures text.Some? && !AllWhitespace(text.value) ==> r == Trim(text.value)
    ensures (text.None? || AllWhitespace(text.value)) ==> r == "Untitled"
  {
    if text.Some? && Trim(text.value) != [] then Trim(text.value) else "Untitled"
  }

  /** The image of a new item: the URL, or the empty string when there is none. */
  function CleanImage(url: Option<string>): (r: string)
    ensures url.Some? ==> r == url.value
    ensures url.None? ==> r == ""
  {
    url.GetOr("")
  }

  // ---------------------------------------------------------------------------
  // The item list as a value
  // ---------------------------------------------------------------------------

  /** The natural key of an item. */
  function Key(item: MediaItem): (MediaType, string) {
    (item.mediaType, item.externalId)
  }

  function IdOf(item: MediaItem): string {
    item.id
  }

  function HasId(id: string): MediaItem -> bool {
    (item: MediaItem) => item.id == id
  }

  function HasOtherId(id: string): MediaItem -> bool {
    (item: MediaItem) => item.id != id
  }

  function HasKey(t: MediaType, externalId: string): MediaItem -> bool {
    (item: MediaItem) => Key(item) == (t, externalId)
  }

  /** At most one item per `(type, externalId)`. */
  ghost predicate UniqueKeys(items: seq<MediaItem>) {
    UniqueBy(items, Key)
  }

  ghost predicate UniqueIds(items: seq<MediaItem>) {
    UniqueBy(items, IdOf)
  }

  /** The item `addItem` creates: on the wishlist, unrated, unreviewed, untagged,
      never consumed, created and updated at `now`, with cleaned snapshots. */
  function NewItem(t: MediaType, provider: string, externalId: string, title: Option<string>,
                   image: Option<string>, year: YearInput, genres: Option<seq<string>>,
                   id: string, now: Timestamp): (item: MediaItem)
    ensures Key(item) == (t, externalId) && item.id == id && item.provider == provider
    ensures item.status == Wishlist && item.yourRating == None && item.consumedAt == None
    ensures item.yourReview == "" && !item.spoiler && item.tags == [] && item.revisitCount == 0
    ensures item.createdAt == now && item.updatedAt == now
    ensures item.titleSnapshot == CleanText(title) && item.imageSnapshot == CleanImage(image)
    ensures item.yearSnapshot == SanitizeYear(year) && item.genreSnapshot == CleanGenres(genres)
  {
    MediaItem(id, t, provider, externalId, CleanText(title), CleanImage(image), SanitizeYear(year),
              CleanGenres(genres), None, "", false, [], Wishlist, None, 0, now, now)
  }

  /** The list after adding `entry`: unchanged when an item with its key exists,
      otherwise `entry` appended at the end. */
  function Added(items: seq<MediaItem>, entry: MediaItem): (r: seq<MediaItem>)
    ensures FindIndex(r, HasKey(entry.mediaType, entry.externalId)) >= 0
    ensures |items| <= |r| <= |items| + 1 && r[..|items|] == items
  {
    if Find(items, HasKey(entry.mediaType, entry.externalId)).Some? then items
    else
      assert HasKey(entry.mediaType, entry.externalId)((items + [entry])[|items|]);
      items + [entry]
  }

  /** What adding does in each case: an item with the key is found in the list,
      or the entry is appended. */
  lemma AddedOutcome(items: seq<MediaItem>, entry: MediaItem)
    ensures var found := Find(items, HasKey(entry.mediaType, entry.externalId));
      && (found.Some? ==> Added(items, entry) == items && found.value in items
                          && Key(found.value) == Key(entry))
      && (found.None? ==> Added(items, entry) == items + [entry] && entry in items + [entry])
  {
    var found := Find(items, HasKey(entry.mediaType, entry.externalId));
    if found.None? {
      assert (items + [entry])[|items|] == entry;
    }
  }

  /** Adding is idempotent on the key: a second add of the same work, whatever its
      id, title or timestamp, changes nothing. */
  lemma AddedIdempotent(items: seq<MediaItem>, first: MediaItem, second: MediaItem)
    requires Key(first) == Key(second)
    ensures Added(Added(items, first), second) == Added(items, first)
  {
    assert HasKey(first.mediaType, first.externalId) == HasKey(second.mediaType, second.externalId);
  }

  /** Adding keeps the key unique, and keeps the ids unique when the new id is new. */
  lemma AddedKeepsUnique(items: seq<MediaItem>, entry: MediaItem)
    ensures UniqueKeys(items) ==> UniqueKeys(Added(items, entry))
    ensures UniqueIds(items) && FindIndex(items, HasId(entry.id)) < 0 ==> UniqueIds(Added(items, entry))
  {
    if Find(items, HasKey(entry.mediaType, entry.externalId)).None? {
      if UniqueKeys(items) {
        assert forall i :: 0 <= i < |items| ==> !HasKey(entry.mediaType, entry.externalId)(items[i]);
        AppendUniqueBy(items, entry, Key);
      }
      if UniqueIds(items) && FindIndex(items, HasId(entry.id)) < 0 {
        assert forall i :: 0 <= i < |items| ==> !HasId(entry.id)(items[i]);
        AppendUniqueBy(items, entry, IdOf);
      }
    }
  }

  /** A partial update of an item (`Partial<MediaItem>`): each present field
      overrides; `consumedAt` and `yourRating` may be set to `null`. */
  datatype ItemPatch = ItemPatch(
    id: Option<string>,
    mediaType: Option<MediaType>,
    provider: Option<string>,
    externalId: Option<string>,
    titleSnapshot: Option<string>,
    imageSnapshot: Option<string>,
    yearSnapshot: Option<real>,
    genreSnapshot: Option<seq<string>>,
    yourRating: Option<Option<real>>,
    yourReview: Option<string>,
    spoiler: Option<bool>,
    tags: Option<seq<string>>,
    status: Option<Status>,
    consumedAt: Option<Option<Timestamp>>,
    revisitCount: Option<int>,
    createdAt: Option<Timestamp>)

  const NoChanges: ItemPatch :=
    ItemPatch(None, None, None, None, None, None, None, None, None, None, None, None, None, None, None, None)

  /** `{ ...item, ...patch, updatedAt: now }`. */
  function ApplyPatch(item: MediaItem, patch: ItemPatch, now: Timestamp): (r: MediaItem)
    ensures r.updatedAt == now
    ensures patch.id.None? ==> r.id == item.id
    ensures patch.mediaType.None? && patch.externalId.None? ==> Key(r) == Key(item)
  {
    MediaItem(
      patch.id.GetOr(item.id),
      patch.mediaType.GetOr(item.mediaType),
      patch.provider.GetOr(item.provider),
      patch.externalId.GetOr(item.externalId),
      patch.titleSnapshot.GetOr(item.titleSnapshot),
      patch.imageSnapshot.GetOr(item.imageSnapshot),
      patch.yearSnapshot.GetOr(item.yearSnapshot),
      patch.genreSnapshot.GetOr(item.genreSnapshot),
      patch.yourRating.GetOr(item.yourRating),
      patch.yourReview.GetOr(item.yourReview),
      patch.spoiler.GetOr(item.spoiler),
      patch.tags.GetOr(item.tags),
      patch.status.GetOr(item.status),
      patch.consumedAt.GetOr(item.consumedAt),
      patch.revisitCount.GetOr(item.revisitCount),
      patch.createdAt.GetOr(item.createdAt),
      now)
  }

  /** An empty patch only touches the modification time. */
  lemma ApplyNoChanges(item: MediaItem, now: Timestamp)
    ensures ApplyPatch(item, NoChanges, now) == item.(updatedAt := now)
  {
  }

  /** Applying the same patch again only moves the modification time. */
  lemma ApplyPatchTwice(item: MediaItem, patch: ItemPatch, t1: Timestamp, t2: Timestamp)
    ensures ApplyPatch(ApplyPatch(item, patch, t1), patch, t2) == ApplyPatch(item, patch, t2)
  {
  }

  /** The list after `updateItem(id, patch)`: the first item with that id patched in
      place, or the list unchanged when there is none. */
  function Updated(items: seq<MediaItem>, id: string, patch: ItemPatch, now: Timestamp): (r: seq<MediaItem>)
    ensures |r| == |items|
    ensures var i := FindIndex(items, HasId(id));
      forall j :: 0 <= j < |items| && j != i ==> r[j] == items[j]
  {
    var i := FindIndex(items, HasId(id));
    if i < 0 then items else items[i := ApplyPatch(items[i], patch, now)]
  }

  /** A patch that leaves the key and the id alone keeps both unique. */
  lemma UpdatedKeepsUnique(items: seq<MediaItem>, id: string, patch: ItemPatch, now: Timestamp)
    requires patch.id.None? && patch.mediaType.None? && patch.externalId.None?
    ensures UniqueKeys(items) ==> UniqueKeys(Updated(items, id, patch, now))
    ensures UniqueIds(items) ==> UniqueIds(Updated(items, id, patch, now))
  {
    var i := FindIndex(items, HasId(id));
    if i >= 0 {
      var x := ApplyPatch(items[i], patch, now);
      if UniqueKeys(items) { UpdateUniqueBy(items, i, x, Key); }
      if UniqueIds(items) { UpdateUniqueBy(items, i, x, IdOf); }
    }
  }

  /** Deleting keeps the keys and ids unique and leaves no item with that id. */
  lemma DeletedKeepsUnique(items: seq<MediaItem>, id: string)
    ensures UniqueKeys(items) ==> UniqueKeys(Filter(items, HasOtherId(id)))
    ensures UniqueIds(items) ==> UniqueIds(Filter(items, HasOtherId(id)))
    ensures FindIndex(Filter(items, HasOtherId(id)), HasId(id)) < 0
  {
    if UniqueKeys(items) { FilterUniqueBy(items, HasOtherId(id), Key); }
    if UniqueIds(items) { FilterUniqueBy(items, HasOtherId(id), IdOf); }
  }

  /** A delete drops something exactly when some item has that id. */
  lemma DeleteFindsId(items: seq<MediaItem>, id: string)
    ensures |Filter(items, HasOtherId(id))| < |items| <==> FindIndex(items, HasId(id)) >= 0
  {
    FilterKeepsAll(items, HasOtherId(id));
  }

  /** The consumption date `updateStatus` writes: completing keeps an existing date
      or starts one at `now`; any other status keeps whatever date there is. */
  function ConsumedAtFor(current: Option<MediaItem>, status: Status, now: Timestamp): (r: Option<Timestamp>)
    ensures current.Some? && current.value.consumedAt.Some? ==> r == current.value.consumedAt
    ensures (current.None? || current.value.consumedAt.None?) ==>
      (r.Some? <==> status == Completed) && (r.Some? ==> r.value == now)
  {
    if current.Some? && current.value.consumedAt.Some? then current.value.consumedAt
    else if status == Completed then Some(now)
    else None
  }

  /** The patch `updateStatus` applies. */
  function StatusPatch(current: Option<MediaItem>, status: Status, now: Timestamp): ItemPatch {
    NoChanges.(status := Some(status), consumedAt := Some(ConsumedAtFor(current, status, now)))
  }

  /** An item after a status change. */
  function StatusChanged(item: MediaItem, status: Status, now: Timestamp): MediaItem {
    ApplyPatch(item, StatusPatch(Some(item), status, now), now)
  }

  /** The consumption date is set by the first completion and never moved or
      cleared afterwards, whatever statuses follow. */
  lemma {:induction false} ConsumedAtIsFirstCompletion(item: MediaItem, steps: seq<(Status, Timestamp)>)
    requires item.consumedAt.None?
    decreases |steps|
    ensures var last := StatusRun(item, steps);
      last.consumedAt == FirstCompletion(steps)
  {
    if steps != [] {
      var next := StatusChanged(item, steps[0].0, steps[0].1);
      if steps[0].0 == Completed {
        ConsumedAtKept(next, steps[1..]);
      } else {
        ConsumedAtIsFirstCompletion(next, steps[1..]);
      }
    }
  }

  lemma {:induction false} ConsumedAtKept(item: MediaItem, steps: seq<(Status, Timestamp)>)
    requires item.consumedAt.Some?
    decreases |steps|
    ensures StatusRun(item, steps).consumedAt == item.consumedAt
  {
    if steps != [] {
      ConsumedAtKept(StatusChanged(item, steps[0].0, steps[0].1), steps[1..]);
    }
  }

  /** The item after a run of status changes, each with its own time. */
  function StatusRun(item: MediaItem, steps: seq<(Status, Timestamp)>): MediaItem
    decreases |steps|
  {
    if steps == [] then item else StatusRun(StatusChanged(item, steps[0].0, steps[0].1), steps[1..])
  }

  /** The time of the first step that completes, if any. */
  function FirstCompletion(steps: seq<(Status, Timestamp)>): Option<Timestamp> {
    if steps == [] then None
    else if steps[0].0 == Completed then Some(steps[0].1)
    else FirstCompletion(steps[1..])
  }

  // ---------------------------------------------------------------------------
  // The store
  // ---------------------------------------------------------------------------

  class Store {
    /** The stored item list and activity log. */
    var items: seq<MediaItem>
    var activity: seq<ActivityEvent>
    /** The stored text of the list (of the log) cannot be parsed. */
    var itemsUnreadable: bool
    var activityUnreadable: bool

    constructor (storedItems: seq<MediaItem>, storedActivity: seq<ActivityEvent>,
                 itemsCorrupt: bool, activityCorrupt: bool)
      ensures items == storedItems && activity == storedActivity
      ensures itemsUnreadable == itemsCorrupt && activityUnreadable == activityCorrupt
    {
      items := storedItems;
      activity := storedActivity;
      itemsUnreadable := itemsCorrupt;
      activityUnreadable := activityCorrupt;
    }

    /** `getAllItems`: the stored list, or the empty list when it cannot be read. */
    function GetAllItems(): (r: seq<MediaItem>)
      reads this
      ensures itemsUnreadable ==> r == []
      ensures !itemsUnreadable ==> r == items
    {
      if itemsUnreadable then [] else items
    }

    /** `getActivity`: the stored log, or the empty log when it cannot be read. */
    function GetActivity(): (r: seq<ActivityEvent>)
      reads this
      ensures activityUnreadable ==> r == []
      ensures !activityUnreadable ==> r == activity
    {
      if activityUnreadable then [] else activity
    }

    /** `getItemById`: the first item with that id, or none. */
    function GetItemById(id: string): (r: Option<MediaItem>)
      reads this
      ensures r.None? <==> forall j :: 0 <= j < |GetAllItems()| ==> GetAllItems()[j].id != id
      ensures r.Some? ==> r.value in GetAllItems() && r.value.id == id
      ensures r.Some? ==> r.value == GetAllItems()[FindIndex(GetAllItems(), HasId(id))]
    {
      Find(GetAllItems(), HasId(id))
    }

    /** `getItemsByType`: the items of one type, in stored order. */
    function GetItemsByType(t: MediaType): (r: seq<MediaItem>)
      reads this
      ensures forall x :: x in r <==> x in GetAllItems() && x.mediaType == t
      ensures |r| <= |GetAllItems()|
      ensures forall x :: multiset(r)[x] == if x.mediaType == t then multiset(GetAllItems())[x] else 0
      ensures IsSubsequence(r, GetAllItems())
    {
      FilterMultiset(GetAllItems(), OfType(t));
      FilterSubsequence(GetAllItems(), OfType(t));
      Filter(GetAllItems(), OfType(t))
    }

    /** `addActivity`: appends one event stamped `now` to the log. */
    method AddActivity(kind: EventKind, itemId: string, payload: Payload, now: Timestamp)
      modifies this
      ensures activity == old(GetActivity()) + [ActivityEvent(kind, itemId, now, payload)]
      ensures !activityUnreadable
      ensures items == old(items) && itemsUnreadable == old(itemsUnreadable)
    {
      activity := GetActivity() + [ActivityEvent(kind, itemId, now, payload)];
      activityUnreadable := false;
    }

    /** `addItem`: returns the existing item with the same key untouched, or stores a
        new one with id `newId` at the end of the list and logs an ADD event. */
    method AddItem(t: MediaType, provider: string, externalId: string, title: Option<string>,
                   image: Option<string>, year: YearInput, genres: Option<seq<string>>,
                   newId: string, now: Timestamp) returns (item: MediaItem)
      modifies this
      ensures var existing := Find(old(GetAllItems()), HasKey(t, externalId));
        existing.Some? ==> item == existing.value
      ensures Key(item) == (t, externalId) && item in GetAllItems()
      ensures GetAllItems() == Added(old(GetAllItems()), NewItem(t, provider, externalId, title, image, year, genres, newId, now))
      ensures Find(old(GetAllItems()), HasKey(t, externalId)).Some? ==> unchanged(this)
      ensures Find(old(GetAllItems()), HasKey(t, externalId)).None? ==>
        && item == NewItem(t, provider, externalId, title, image, year, genres, newId, now)
        && !itemsUnreadable
        && activity == old(GetActivity()) + [ActivityEvent(Add, newId, now, AddPayload(t, externalId))]
        && !activityUnreadable
      ensures old(UniqueKeys(GetAllItems())) ==> UniqueKeys(GetAllItems())
      ensures old(UniqueIds(GetAllItems())) && old(FindIndex(GetAllItems(), HasId(newId))) < 0 ==>
        UniqueIds(GetAllItems())
    {
      var current := GetAllItems();
      var entry := NewItem(t, provider, externalId, title, image, year, genres, newId, now);
      AddedKeepsUnique(current, entry);
      AddedOutcome(current, entry);
      var existing := Find(current, HasKey(t, externalId));
      if existing.Some? {
        return existing.value;
      }
      items := current + [entry];
      itemsUnreadable := false;
      AddActivity(Add, entry.id, AddPayload(t, externalId), now);
      return entry;
    }

    /** `updateItem`: patches the first item with that id in place and stamps it, or
        returns none and stores nothing when no item has that id. */
    method UpdateItem(id: string, patch: ItemPatch, now: Timestamp) returns (r: Option<MediaItem>)
      modifies this
      ensures var i := old(FindIndex(GetAllItems(), HasId(id)));
        && (r.None? <==> i < 0)
        && (r.Some? ==> r.value == ApplyPatch(old(GetAllItems())[i], patch, now))
      ensures GetAllItems() == Updated(old(GetAllItems()), id, patch, now)
      ensures r.None? ==> unchanged(this)
      ensures r.Some? ==> !itemsUnreadable
      ensures activity == old(activity) && activityUnreadable == old(activityUnreadable)
    {
      var current := GetAllItems();
      var i := FindIndex(current, HasId(id));
      if i < 0 {
        return None;
      }
      var updatedItem := ApplyPatch(current[i], patch, now);
      items := current[i := updatedItem];
      itemsUnreadable := false;
      return Some(updatedItem);
    }

    /** `updateRating`: stores the normalised rating and logs a RATE event with it. */
    method UpdateRating(id: string, rating: Option<real>, now: Timestamp) returns (r: Option<MediaItem>)
      modifies this
      ensures var i := old(FindIndex(GetAllItems(), HasId(id)));
        && (r.None? <==> i < 0)
        && (r.Some? ==> r.value == old(GetAllItems())[i].(yourRating := NormalizeRating(rating), updatedAt := now))
      ensures GetAllItems() == Updated(old(GetAllItems()), id, NoChanges.(yourRating := Some(NormalizeRating(rating))), now)
      ensures r.None? ==> unchanged(this)
      ensures r.Some? ==> !activityUnreadable && activity == old(GetActivity()) + [ActivityEvent(Rate, id, now, RatePayload(NormalizeRating(rating)))]
      ensures old(UniqueKeys(GetAllItems())) ==> UniqueKeys(GetAllItems())
      ensures old(UniqueIds(GetAllItems())) ==> UniqueIds(GetAllItems())
    {
      var normalized := NormalizeRating(rating);
      UpdatedKeepsUnique(GetAllItems(), id, NoChanges.(yourRating := Some(normalized)), now);
      r := UpdateItem(id, NoChanges.(yourRating := Some(normalized)), now);
      if r.Some? {
        AddActivity(Rate, id, RatePayload(normalized), now);
      }
    }

    /** `updateReview`: stores the review text and spoiler flag and logs a REVIEW event. */
    method UpdateReview(id: string, review: string, spoiler: bool, now: Timestamp) returns (r: Option<MediaItem>)
      modifies this
      ensures var i := old(FindIndex(GetAllItems(), HasId(id)));
        && (r.None? <==> i < 0)
        && (r.Some? ==> r.value == old(GetAllItems())[i].(yourReview := review, spoiler := spoiler, updatedAt := now))
      ensures GetAllItems() == Updated(old(GetAllItems()), id, NoChanges.(yourReview := Some(review), spoiler := Some(spoiler)), now)
      ensures r.None? ==> unchanged(this)
      ensures r.Some? ==> !activityUnreadable && activity == old(GetActivity()) + [ActivityEvent(Review, id, now, ReviewPayload(review, spoiler))]
      ensures old(UniqueKeys(GetAllItems())) ==> UniqueKeys(GetAllItems())
      ensures old(UniqueIds(GetAllItems())) ==> UniqueIds(GetAllItems())
    {
      var patch := NoChanges.(yourReview := Some(review), spoiler := Some(spoiler));
      UpdatedKeepsUnique(GetAllItems(), id, patch, now);
      r := UpdateItem(id, patch, now);
      if r.Some? {
        AddActivity(Review, id, ReviewPayload(review, spoiler), now);
      }
    }

    /** `updateStatus`: stores the status and the consumption date `ConsumedAtFor`
        gives, and logs a STATUS_CHANGE event. */
    method UpdateStatus(id: string, status: Status, now: Timestamp) returns (r: Option<MediaItem>)
      modifies this
      ensures var i := old(FindIndex(GetAllItems(), HasId(id)));
        && (r.None? <==> i < 0)
        && (r.Some? ==> r.value == StatusChanged(old(GetAllItems())[i], status, now))
      ensures GetAllItems() == Updated(old(GetAllItems()), id, StatusPatch(old(GetItemById(id)), status, now), now)
      ensures r.None? ==> unchanged(this)
      ensures r.Some? ==> !activityUnreadable && activity == old(GetActivity()) + [ActivityEvent(StatusChange, id, now, StatusPayload(status))]
      ensures old(UniqueKeys(GetAllItems())) ==> UniqueKeys(GetAllItems())
      ensures old(UniqueIds(GetAllItems())) ==> UniqueIds(GetAllItems())
    {
      var current := GetItemById(id);
      var patch := StatusPatch(current, status, now);
      UpdatedKeepsUnique(GetAllItems(), id, patch, now);
      r := UpdateItem(id, patch, now);
      if r.Some? {
        AddActivity(StatusChange, id, StatusPayload(status), now);
      }
    }

    /** `updateTags`: replaces the tags and logs a TAG event with them. */
    method UpdateTags(id: string, tags: seq<string>, now: Timestamp) returns (r: Option<MediaItem>)
      modifies this
      ensures var i := old(FindIndex(GetAllItems(), HasId(id)));
        && (r.None? <==> i < 0)
        && (r.Some? ==> r.value == old(GetAllItems())[i].(tags := tags, updatedAt := now))
      ensures GetAllItems() == Updated(old(GetAllItems()), id, NoChanges.(tags := Some(tags)), now)
      ensures r.None? ==> unchanged(this)
      ensures r.Some? ==> !activityUnreadable && activity == old(GetActivity()) + [ActivityEvent(Tag, id, now, TagsPayload(tags))]
      ensures old(UniqueKeys(GetAllItems())) ==> UniqueKeys(GetAllItems())
      ensures old(UniqueIds(GetAllItems())) ==> UniqueIds(GetAllItems())
    {
      UpdatedKeepsUnique(GetAllItems(), id, NoChanges.(tags := Some(tags)), now);
      r := UpdateItem(id, NoChanges.(tags := Some(tags)), now);
      if r.Some? {
        AddActivity(Tag, id, TagsPayload(tags), now);
      }
    }

    /** `deleteItem`: removes every item with that id and reports whether any was
        there; the activity log keeps its events about the item. */
    method DeleteItem(id: string) returns (deleted: bool)
      modifies this
      ensures deleted <==> old(FindIndex(GetAllItems(), HasId(id))) >= 0
      ensures deleted ==> GetAllItems() == Filter(old(GetAllItems()), HasOtherId(id)) && !itemsUnreadable
      ensures !deleted ==> unchanged(this)
      ensures FindIndex(GetAllItems(), HasId(id)) < 0
      ensures activity == old(activity) && activityUnreadable == old(activityUnreadable)
      ensures old(UniqueKeys(GetAllItems())) ==> UniqueKeys(GetAllItems())
      ensures old(UniqueIds(GetAllItems())) ==> UniqueIds(GetAllItems())
    {
      var current := GetAllItems();
      var filtered := Filter(current, HasOtherId(id));
      DeleteFindsId(current, id);
      DeletedKeepsUnique(current, id);
      if |filtered| == |current| {
        return false;
      }
      items := filtered;
      itemsUnreadable := false;
      return true;
    }

    /** `clearAll`: removes both stored lists, so both read back empty. */
    method ClearAll()
      modifies this
      ensures GetAllItems() == [] && GetActivity() == []
      ensures !itemsUnreadable && !activityUnreadable
    {
      items := [];
      activity := [];
      itemsUnreadable := false;
      activityUnreadable := false;
    }
  }
}
