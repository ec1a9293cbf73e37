/** The records of the library (`src/lib/types.ts`): media items, activity events and
    the search/detail results the catalog providers hand to the library. Timestamps,
    which the source keeps as ISO-8601 strings, are integers (milliseconds) here. */
module Types {
  import opened Collections

  datatype MediaType = Movie | Book | Music

  datatype Status = Wishlist | InProgress | Completed

  type Timestamp = int

  /** The string a status is stored and compared as. */
  function StatusName(s: Status): string {
    match s
    case Wishlist => "wishlist"
    case InProgress => "in-progress"
    case Completed => "completed"
  }

  /** One tracked work; `(mediaType, externalId)` is its natural key. */
  datatype MediaItem = MediaItem(
    id: string,
    mediaType: MediaType,
    provider: string,
    externalId: string,
    titleSnapshot: string,
    imageSnapshot: string,
    yearSnapshot: real,
    genreSnapshot: seq<string>,
    yourRating: Option<real>,
    yourReview: string,
    spoiler: bool,
    tags: seq<string>,
    status: Status,
    consumedAt: Option<Timestamp>,
    revisitCount: int,
    createdAt: Timestamp,
    updatedAt: Timestamp)

  datatype EventKind = Add | Rate | StatusChange | Review | Tag

  /** The payload object each kind of mutation records. */
  datatype Payload =
    | AddPayload(addedType: MediaType, addedExternalId: string)
    | RatePayload(rating: Option<real>)
    | ReviewPayload(review: string, spoiler: bool)
    | StatusPayload(status: Status)
    | TagsPayload(tags: seq<string>)
    | EmptyPayload

  /** An append-only log entry; `itemId` is a weak reference that outlives the item. */
  datatype ActivityEvent = ActivityEvent(kind: EventKind, itemId: string, timestamp: Timestamp, payload: Payload)

  /** What a catalog provider returns for one search hit. */
  datatype SearchResult = SearchResult(
    id: string,
    title: string,
    image: string,
    year: string,
    creator: string,
    genres: seq<string>,
    description: string,
    provider: string,
    externalId: string)

  /** A search hit with the extra fields a detail lookup can fill in. */
  datatype DetailsResult = DetailsResult(
    id: string,
    title: string,
    image: string,
    year: string,
    creator: string,
    genres: seq<string>,
    description: string,
    provider: string,
    externalId: string,
    runtime: Option<string>,
    rating: Option<string>)

  /** A record with one field per media type. */
  datatype PerType<T> = PerType(movie: T, book: T, music: T) {
    function Get(t: MediaType): T {
      match t
      case Movie => movie
      case Book => book
      case Music => music
    }

    function Set(t: MediaType, v: T): (r: PerType<T>)
      ensures r.Get(t) == v
      ensures forall u :: u != t ==> r.Get(u) == Get(u)
    {
      match t
      case Movie => this.(movie := v)
      case Book => this.(book := v)
      case Music => this.(music := v)
    }
  }

  function OfType(t: MediaType): MediaItem -> bool {
    (item: MediaItem) => item.mediaType == t
  }

  predicate IsRated(item: MediaItem) {
    item.yourRating.Some?
  }

  predicate IsCompleted(item: MediaItem) {
    item.status == Completed
  }

  /** Every item has exactly one of the three types, so the per-type lists partition
      a list of items. */
  lemma {:induction false} TypeCountsSum(items: seq<MediaItem>)
    ensures |Filter(items, OfType(Movie))| + |Filter(items, OfType(Book))| + |Filter(items, OfType(Music))| == |items|
  {
    if items != [] {
      TypeCountsSum(items[1..]);
    }
  }
}
