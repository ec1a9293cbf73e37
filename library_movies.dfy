/** The filter-and-sort pipeline of the movie library page: four filters combined
    with AND, five stable sort orders, the chips that show the active filters and
    the button that clears them. The page state is the six values the toolbar
    edits; `FilteredItems` copies the list, filters it and sorts the copy. */
module LibraryMovies {
  import opened Collections
  import opened Strings
  import opened Numbers
  import opened Sorting
  import opened Types
  import Utils

  /** The toolbar's choices (`SortOption`, `RatingMode`, and the status select). */
  datatype StatusFilter = AllStatuses | OnlyStatus(status: Status)
  datatype RatingMode = AnyRating | RatedOnly | MinimumRating
  datatype SortOption = RecentlyAdded | TitleOrder | RatingOrder | YearOrder | StatusOrder

  datatype FilterState = FilterState(
    query: string,
    status: StatusFilter,
    ratingMode: RatingMode,
    minRating: real,
    genre: string,
    sort: SortOption)

  /** The genre select's value for "no genre filter". */
  const AllGenres: string := "all"

  /** The page's initial state, which clearing the filters restores. */
  const Defaults: FilterState := FilterState("", AllStatuses, AnyRating, 3.0, AllGenres, RecentlyAdded)

  // ---------------------------------------------------------------------------
  // The filters
  // ---------------------------------------------------------------------------

  /** A blank query keeps everything; otherwise the lower-cased title must contain
      the lower-cased query, untrimmed. (Items have no creator, so the creator
      alternative never matches.) */
  predicate MatchesSearch(query: string, item: MediaItem) {
    Trim(query) == [] || Contains(ToLower(item.titleSnapshot), ToLower(query))
  }

  predicate MatchesStatus(status: StatusFilter, item: MediaItem) {
    status.AllStatuses? || item.status == status.status
  }

  predicate MatchesRating(mode: RatingMode, minRating: real, item: MediaItem) {
    match mode
    case AnyRating => true
    case RatedOnly => item.yourRating.Some?
    case MinimumRating => item.yourRating.Some? && item.yourRating.value >= minRating
  }

  /** The genre filter only applies when some item of the page has genre data. */
  predicate MatchesGenre(genre: string, hasGenreData: bool, item: MediaItem) {
    genre == AllGenres || !hasGenreData || genre in item.genreSnapshot
  }

  function SearchStage(query: string): MediaItem -> bool {
    (item: MediaItem) => MatchesSearch(query, item)
  }

  function StatusStage(status: StatusFilter): MediaItem -> bool {
    (item: MediaItem) => MatchesStatus(status, item)
  }

  function RatingStage(mode: RatingMode, minRating: real): MediaItem -> bool {
    (item: MediaItem) => MatchesRating(mode, minRating, item)
  }

  function GenreStage(genre: string, hasGenreData: bool): MediaItem -> bool {
    (item: MediaItem) => MatchesGenre(genre, hasGenreData, item)
  }

  /** An item is shown when it passes every filter. */
  function Matches(f: FilterState, hasGenreData: bool): MediaItem -> bool {
    (item: MediaItem) =>
      && SearchStage(f.query)(item)
      && StatusStage(f.status)(item)
      && RatingStage(f.ratingMode, f.minRating)(item)
      && GenreStage(f.genre, hasGenreData)(item)
  }

  /** `hasGenreData`: the page's items offer at least one genre. */
  predicate HasGenreData(items: seq<MediaItem>) {
    Utils.AvailableGenres(items) != []
  }

  // ---------------------------------------------------------------------------
  // The sort orders
  // ---------------------------------------------------------------------------

  /** `a.yourRating ?? -1`. */
  function RatingKey(item: MediaItem): real {
    match item.yourRating
    case Some(r) => r
    case None => -1.0
  }

  /** `statusOrder[s] ?? 3`; every status has an entry. */
  function StatusRank(s: Status): int {
    match s
    case Wishlist => 0
    case InProgress => 1
    case Completed => 2
  }

  /** `localeCompare`, modelled as code-point order. */
  function TitleCompare(a: string, b: string): real {
    if a == b then 0.0 else if LexLe(a, b) then -1.0 else 1.0
  }

  /** The comparator of each sort mode. `yearSnapshot || 0` is the year itself,
      since a stored year is always a finite number. */
  function Compare(sort: SortOption, a: MediaItem, b: MediaItem): (r: real)
    ensures sort == TitleOrder ==> (r <= 0.0 <==> LexLe(a.titleSnapshot, b.titleSnapshot))
    ensures sort == RatingOrder ==> (r <= 0.0 <==> RatingKey(a) >= RatingKey(b))
    ensures sort == YearOrder ==> (r <= 0.0 <==> a.yearSnapshot >= b.yearSnapshot)
    ensures sort == StatusOrder ==> (r <= 0.0 <==> StatusRank(a.status) <= StatusRank(b.status))
    ensures sort == RecentlyAdded ==> (r <= 0.0 <==> a.createdAt >= b.createdAt)
  {
    LexLeTotal(a.titleSnapshot, a.titleSnapshot);
    match sort
    case TitleOrder => TitleCompare(a.titleSnapshot, b.titleSnapshot)
    case RatingOrder => RatingKey(b) - RatingKey(a)
    case YearOrder => b.yearSnapshot - a.yearSnapshot
    case StatusOrder => (StatusRank(a.status) - StatusRank(b.status)) as real
    case RecentlyAdded => (b.createdAt - a.createdAt) as real
  }

  /** `a` may stay before `b` under the comparator. */
  function Order(sort: SortOption): (MediaItem, MediaItem) -> bool {
    (a: MediaItem, b: MediaItem) => Compare(sort, a, b) <= 0.0
  }

  /** Every sort mode is a consistent comparator. */
  lemma OrderIsTotalPreorder(sort: SortOption)
    ensures TotalPreorder(Order(sort))
  {
    if sort == TitleOrder {
      forall a: MediaItem, b: MediaItem ensures Order(sort)(a, b) || Order(sort)(b, a) {
        LexLeTotal(a.titleSnapshot, b.titleSnapshot);
      }
      forall a: MediaItem, b: MediaItem, c: MediaItem | Order(sort)(a, b) && Order(sort)(b, c)
        ensures Order(sort)(a, c)
      {
        LexLeTotal(a.titleSnapshot, a.titleSnapshot);
        if a.titleSnapshot != b.titleSnapshot && b.titleSnapshot != c.titleSnapshot {
          LexLeTransitive(a.titleSnapshot, b.titleSnapshot, c.titleSnapshot);
        }
      }
    }
  }

  // ---------------------------------------------------------------------------
  // filteredItems
  // ---------------------------------------------------------------------------

  /** What the page lists: the items passing every filter, stably sorted. */
  function Shown(items: seq<MediaItem>, f: FilterState, hasGenreData: bool): (r: seq<MediaItem>)
    ensures multiset(r) == multiset(Filter(items, Matches(f, hasGenreData)))
  {
    InsertionSort(Filter(items, Matches(f, hasGenreData)), Order(f.sort))
  }

  /** The four filters applied one after another are the single filter `Matches`. */
  lemma StagesCombine(items: seq<MediaItem>, f: FilterState, hasGenreData: bool)
    ensures var s, st, r, g := SearchStage(f.query), StatusStage(f.status),
                               RatingStage(f.ratingMode, f.minRating), GenreStage(f.genre, hasGenreData);
      Filter(Filter(Filter(Filter(items, s), st), r), g) == Filter(items, Matches(f, hasGenreData))
  {
    var s, st, r, g := SearchStage(f.query), StatusStage(f.status),
                       RatingStage(f.ratingMode, f.minRating), GenreStage(f.genre, hasGenreData);
    var s2 := (item: MediaItem) => s(item) && st(item);
    var s3 := (item: MediaItem) => s2(item) && r(item);
    FilterFilterBy(items, s, st, s2);
    FilterFilterBy(items, s2, r, s3);
    FilterFilterBy(items, s3, g, Matches(f, hasGenreData));
  }

  /** The search step: a non-blank query keeps the items whose lower-cased title
      contains the lower-cased query. */
  method SearchStep(result: seq<MediaItem>, query: string) returns (r: seq<MediaItem>)
    ensures r == Filter(result, SearchStage(query))
  {
    if Trim(query) != "" {
      var q := ToLower(query);
      r := Filter(result, (item: MediaItem) => Contains(ToLower(item.titleSnapshot), q));
      FilterSame(result, (item: MediaItem) => Contains(ToLower(item.titleSnapshot), q), SearchStage(query));
    } else {
      r := result;
      FilterKeepsAll(result, SearchStage(query));
    }
  }

  /** The status step: a chosen status keeps the items with that status. */
  method StatusStep(result: seq<MediaItem>, status: StatusFilter) returns (r: seq<MediaItem>)
    ensures r == Filter(result, StatusStage(status))
  {
    if status.OnlyStatus? {
      var wanted := status.status;
      r := Filter(result, (item: MediaItem) => item.status == wanted);
      FilterSame(result, (item: MediaItem) => item.status == wanted, StatusStage(status));
    } else {
      r := result;
      FilterKeepsAll(result, StatusStage(status));
    }
  }

  /** The rating step: rated items only, or rated at least `minRating`. */
  method RatingStep(result: seq<MediaItem>, mode: RatingMode, minRating: real) returns (r: seq<MediaItem>)
    ensures r == Filter(result, RatingStage(mode, minRating))
  {
    if mode == RatedOnly {
      r := Filter(result, (item: MediaItem) => item.yourRating.Some?);
      FilterSame(result, (item: MediaItem) => item.yourRating.Some?, RatingStage(mode, minRating));
    } else if mode == MinimumRating {
      r := Filter(result, (item: MediaItem) => item.yourRating.Some? && item.yourRating.value >= minRating);
      FilterSame(result, (item: MediaItem) => item.yourRating.Some? && item.yourRating.value >= minRating,
                 RatingStage(mode, minRating));
    } else {
      r := result;
      FilterKeepsAll(result, RatingStage(mode, minRating));
    }
  }

  /** The genre step: with genre data on the page, keeps the items listing the genre. */
  method GenreStep(result: seq<MediaItem>, genre: string, hasGenreData: bool) returns (r: seq<MediaItem>)
    ensures r == Filter(result, GenreStage(genre, hasGenreData))
  {
    if genre != AllGenres && hasGenreData {
      r := Filter(result, (item: MediaItem) => genre in item.genreSnapshot);
      FilterSame(result, (item: MediaItem) => genre in item.genreSnapshot, GenreStage(genre, hasGenreData));
    } else {
      r := result;
      FilterKeepsAll(result, GenreStage(genre, hasGenreData));
    }
  }

  /** `filteredItems`: copies the list, narrows it with each active filter in turn
      and sorts the copy in place. */
  method FilteredItems(items: seq<MediaItem>, f: FilterState) returns (r: seq<MediaItem>)
    ensures r == Shown(items, f, HasGenreData(items))
  {
    var available := Utils.GetAvailableGenres(items);
    var hasGenreData := |available| > 0;
    var result := FilterStages(items, f, hasGenreData);
    r := SortedCopy(result, Order(f.sort));
  }

  /** The four filters of `filteredItems`, one after another. */
  method FilterStages(items: seq<MediaItem>, f: FilterState, hasGenreData: bool) returns (result: seq<MediaItem>)
    ensures result == Filter(items, Matches(f, hasGenreData))
  {
    result := SearchStep(items, f.query);
    result := StatusStep(result, f.status);
    result := RatingStep(result, f.ratingMode, f.minRating);
    result := GenreStep(result, f.genre, hasGenreData);
    StagesCombine(items, f, hasGenreData);
  }

  /** The list shows exactly the items that pass every filter, each as often as in
      the input, in the order of the sort mode, with ties in input order. */
  lemma ShownExact(items: seq<MediaItem>, f: FilterState, hasGenreData: bool)
    ensures var r := Shown(items, f, hasGenreData);
      && (forall x :: x in r <==> x in items && Matches(f, hasGenreData)(x))
      && multiset(r) == multiset(Filter(items, Matches(f, hasGenreData)))
      && multiset(r) <= multiset(items)
      && SortedBy(r, Order(f.sort))
  {
    var kept := Filter(items, Matches(f, hasGenreData));
    var r := Shown(items, f, hasGenreData);
    OrderIsTotalPreorder(f.sort);
    InsertionSortSorted(kept, Order(f.sort));
    FilterMultiset(items, Matches(f, hasGenreData));
    assert forall x :: x in r <==> x in multiset(r);
    assert forall x :: x in kept <==> x in multiset(kept);
  }

  /** Items that compare equal under the sort mode are listed in input order. */
  lemma ShownStable(items: seq<MediaItem>, f: FilterState, hasGenreData: bool, k: MediaItem)
    ensures var tie := y => Tied(Order(f.sort), y, k);
      Filter(Shown(items, f, hasGenreData), tie) == Filter(Filter(items, Matches(f, hasGenreData)), tie)
  {
    OrderIsTotalPreorder(f.sort);
    InsertionSortStable(Filter(items, Matches(f, hasGenreData)), k, Order(f.sort));
  }

  /** What each sort mode means for the listed items: ratings, years and creation
      times do not increase, titles and status ranks do not decrease; with
      ratings that are not negative, every rated item comes before every unrated one. */
  lemma ShownOrder(items: seq<MediaItem>, f: FilterState, hasGenreData: bool)
    ensures var r := Shown(items, f, hasGenreData);
      && (f.sort == RatingOrder ==> forall i, j :: 0 <= i < j < |r| ==> RatingKey(r[i]) >= RatingKey(r[j]))
      && (f.sort == RatingOrder && (forall x :: x in items && x.yourRating.Some? ==> x.yourRating.value >= 0.0) ==>
            forall i, j :: 0 <= i < j < |r| && r[i].yourRating.None? ==> r[j].yourRating.None?)
      && (f.sort == YearOrder ==> forall i, j :: 0 <= i < j < |r| ==> r[i].yearSnapshot >= r[j].yearSnapshot)
      && (f.sort == StatusOrder ==> forall i, j :: 0 <= i < j < |r| ==> StatusRank(r[i].status) <= StatusRank(r[j].status))
      && (f.sort == RecentlyAdded ==> forall i, j :: 0 <= i < j < |r| ==> r[i].createdAt >= r[j].createdAt)
      && (f.sort == TitleOrder ==> forall i, j :: 0 <= i < j < |r| ==> LexLe(r[i].titleSnapshot, r[j].titleSnapshot))
  {
    var r := Shown(items, f, hasGenreData);
    ShownExact(items, f, hasGenreData);
    SortedMeaning(r, f.sort);
    if f.sort == RatingOrder && (forall x :: x in items && x.yourRating.Some? ==> x.yourRating.value >= 0.0) {
      RatedFirst(r);
    }
  }

  lemma SortedMeaning(r: seq<MediaItem>, sort: SortOption)
    requires SortedBy(r, Order(sort))
    ensures sort == RatingOrder ==> forall i, j :: 0 <= i < j < |r| ==> RatingKey(r[i]) >= RatingKey(r[j])
    ensures sort == YearOrder ==> forall i, j :: 0 <= i < j < |r| ==> r[i].yearSnapshot >= r[j].yearSnapshot
    ensures sort == StatusOrder ==> forall i, j :: 0 <= i < j < |r| ==> StatusRank(r[i].status) <= StatusRank(r[j].status)
    ensures sort == RecentlyAdded ==> forall i, j :: 0 <= i < j < |r| ==> r[i].createdAt >= r[j].createdAt
    ensures sort == TitleOrder ==> forall i, j :: 0 <= i < j < |r| ==> LexLe(r[i].titleSnapshot, r[j].titleSnapshot)
  {
    forall i, j | 0 <= i < j < |r| ensures Compare(sort, r[i], r[j]) <= 0.0 {
      assert Order(sort)(r[i], r[j]);
    }
    if sort == TitleOrder {
      forall i, j | 0 <= i < j < |r| ensures LexLe(r[i].titleSnapshot, r[j].titleSnapshot) {
        assert Compare(sort, r[i], r[j]) <= 0.0;
        LexLeTotal(r[i].titleSnapshot, r[i].titleSnapshot);
      }
    }
  }

  lemma RatedFirst(r: seq<MediaItem>)
    requires SortedBy(r, Order(RatingOrder))
    requires forall x :: x in r && x.yourRating.Some? ==> x.yourRating.value >= 0.0
    ensures forall i, j :: 0 <= i < j < |r| && r[i].yourRating.None? ==> r[j].yourRating.None?
  {
    forall i, j | 0 <= i < j < |r| && r[i].yourRating.None? ensures r[j].yourRating.None? {
      assert Order(RatingOrder)(r[i], r[j]);
      assert r[j] in r;
    }
  }

  // ---------------------------------------------------------------------------
  // activeFilterChips
  // ---------------------------------------------------------------------------

  datatype ChipCategory = SearchChip | StatusChip | RatingChip | GenreChip
  datatype FilterChip = FilterChip(text: string, key: string, category: ChipCategory)

  /** The status select's labels. */
  function StatusLabel(s: Status): string {
    match s
    case Wishlist => "Planned"
    case InProgress => "In Progress"
    case Completed => "Completed"
  }

  /** A count of tenths as text with one decimal: the digits of the whole part, a
      point, and the digit of the tenths. */
  function Fixed1(tenths: nat): (r: string)
    ensures |r| >= 3 && r[|r| - 2] == '.' && AllDigits(r[..|r| - 2]) && IsDigit(r[|r| - 1])
    ensures DigitsValue(r[..|r| - 2]) * 10 + (r[|r| - 1] as int - '0' as int) == tenths
  {
    var whole := NatToString(tenths / 10);
    var r := whole + "." + [DigitChar(tenths % 10)];
    assert r[..|r| - 2] == whole;
    NatToStringValue(tenths / 10);
    r
  }

  /** `x.toFixed(1)`: the nearest multiple of a tenth (of two, the larger in
      magnitude), with one decimal, and a sign for a negative `x`. */
  function ToFixed1(x: real): (r: string)
    ensures |r| >= 3
    ensures x < 0.0 <==> r[0] == '-'
  {
    if x < 0.0 then "-" + Fixed1(Round(-x * 10.0)) else Fixed1(Round(x * 10.0))
  }

  /** The text `toFixed(1)` gives for a non-negative number reads back as a value
      within half a tenth of it. */
  lemma ToFixed1Nearest(x: real)
    requires x >= 0.0
    ensures var r := ToFixed1(x);
      var t := DigitsValue(r[..|r| - 2]) * 10 + (r[|r| - 1] as int - '0' as int);
      t as real / 10.0 - 0.05 <= x < t as real / 10.0 + 0.05
  {
  }

  lemma ToFixed1Examples()
    ensures ToFixed1(3.0) == "3.0"
    ensures ToFixed1(4.25) == "4.3"
    ensures ToFixed1(12.5) == "12.5"
  {
    assert Round(30.0) == 30;
    assert Round(42.5) == 43;
    assert Round(125.0) == 125;
    assert NatToString(3) == "3";
    assert NatToString(4) == "4";
    assert NatToString(12) == "12" by {
      assert NatToString(1) == "1";
    }
  }

  /** There is a chip with this category. */
  predicate HasChip(chips: seq<FilterChip>, c: ChipCategory) {
    exists i :: 0 <= i < |chips| && chips[i].category == c
  }

  /** The position of a category in the chip row. */
  function CategoryRank(c: ChipCategory): int {
    match c
    case SearchChip => 0
    case StatusChip => 1
    case RatingChip => 2
    case GenreChip => 3
  }

  /** Each category has its own keys. */
  predicate KeyOfCategory(chip: FilterChip) {
    match chip.category
    case SearchChip => chip.key == "search"
    case StatusChip => chip.key == "status"
    case RatingChip => chip.key == "rating-rated" || chip.key == "rating-min"
    case GenreChip => chip.key == "genre"
  }

  /** The chips are in category order, with at most one chip per category. */
  predicate InCategoryOrder(chips: seq<FilterChip>) {
    forall i, j :: 0 <= i < j < |chips| ==> CategoryRank(chips[i].category) < CategoryRank(chips[j].category)
  }

  /** At most one chip, of category `c`, with one of that category's keys. */
  predicate Piece(p: seq<FilterChip>, c: ChipCategory) {
    |p| <= 1 && forall i :: 0 <= i < |p| ==> p[i].category == c && KeyOfCategory(p[i])
  }

  /** A chip when `show` holds, nothing otherwise. */
  function ChipIf(show: bool, chip: FilterChip): (r: seq<FilterChip>)
    ensures HasChip(r, chip.category) <==> show
    ensures KeyOfCategory(chip) ==> Piece(r, chip.category)
  {
    if show then assert [chip][0].category == chip.category; [chip] else []
  }

  /** The text of the rating chip. */
  function RatingText(mode: RatingMode, minRating: real): string {
    if mode == RatedOnly then "Rated Only" else "Min Rating: " + ToFixed1(minRating)
  }

  /** The rating chip for the rating mode. */
  function RatingChips(mode: RatingMode, minRating: real): (r: seq<FilterChip>)
    ensures HasChip(r, RatingChip) <==> mode != AnyRating
    ensures Piece(r, RatingChip)
    ensures forall x :: x in r ==> x.text == RatingText(mode, minRating)
  {
    match mode
    case AnyRating => []
    case RatedOnly => ChipIf(true, FilterChip("Rated Only", "rating-rated", RatingChip))
    case MinimumRating => ChipIf(true, FilterChip("Min Rating: " + ToFixed1(minRating), "rating-min", RatingChip))
  }

  function SearchChips(query: string): (r: seq<FilterChip>)
    ensures HasChip(r, SearchChip) <==> Trim(query) != []
    ensures Piece(r, SearchChip)
    ensures forall x :: x in r ==> x.text == "Search: \"" + query + "\""
  {
    ChipIf(Trim(query) != [], FilterChip("Search: \"" + query + "\"", "search", SearchChip))
  }

  function StatusChips(status: StatusFilter): (r: seq<FilterChip>)
    ensures HasChip(r, StatusChip) <==> status != AllStatuses
    ensures Piece(r, StatusChip)
    ensures forall x :: x in r ==> status.OnlyStatus? && x.text == "Status: " + StatusLabel(status.status)
  {
    match status
    case AllStatuses => []
    case OnlyStatus(s) => ChipIf(true, FilterChip("Status: " + StatusLabel(s), "status", StatusChip))
  }

  function GenreChips(genre: string): (r: seq<FilterChip>)
    ensures HasChip(r, GenreChip) <==> genre != AllGenres
    ensures Piece(r, GenreChip)
    ensures forall x :: x in r ==> x.text == "Genre: " + genre
  {
    ChipIf(genre != AllGenres, FilterChip("Genre: " + genre, "genre", GenreChip))
  }

  /** `activeFilterChips`: one chip per filter that is not at its default, in the
      order search, status, rating, genre. */
  function ActiveFilterChips(f: FilterState): (chips: seq<FilterChip>)
    ensures |chips| <= 4
    ensures chips == [] <==>
      Trim(f.query) == [] && f.status == AllStatuses && f.ratingMode == AnyRating && f.genre == AllGenres
  {
    SearchChips(f.query) + StatusChips(f.status) + RatingChips(f.ratingMode, f.minRating) + GenreChips(f.genre)
  }

  /** A row made of a search, a status, a rating and a genre piece: in category
      order, no key twice, each category's chip taken from its piece. */
  lemma RowFacts(a: seq<FilterChip>, b: seq<FilterChip>, c: seq<FilterChip>, d: seq<FilterChip>)
    requires Piece(a, SearchChip) && Piece(b, StatusChip) && Piece(c, RatingChip) && Piece(d, GenreChip)
    ensures var row := a + b + c + d;
      && InCategoryOrder(row)
      && (forall i, j :: 0 <= i < j < |row| ==> row[i].category != row[j].category && row[i].key != row[j].key)
      && (forall x :: x in row ==>
            && (x in a <==> x.category == SearchChip) && (x in b <==> x.category == StatusChip)
            && (x in c <==> x.category == RatingChip) && (x in d <==> x.category == GenreChip))
      && (forall k :: HasChip(row, k) <==> HasChip(a, k) || HasChip(b, k) || HasChip(c, k) || HasChip(d, k))
  {
    var row := a + b + c + d;
    InCategoryOrderConcat(a, b, 1);
    InCategoryOrderConcat(a + b, c, 2);
    InCategoryOrderConcat(a + b + c, d, 3);
    HasChipConcat(a, b);
    HasChipConcat(a + b, c);
    HasChipConcat(a + b + c, d);
    forall i | 0 <= i < |row| ensures KeyOfCategory(row[i]) {
      assert row[i] in a || row[i] in b || row[i] in c || row[i] in d;
    }
  }

  lemma HasChipConcat(a: seq<FilterChip>, b: seq<FilterChip>)
    ensures forall c :: HasChip(a + b, c) <==> HasChip(a, c) || HasChip(b, c)
  {
    forall c ensures HasChip(a + b, c) <==> HasChip(a, c) || HasChip(b, c) {
      if HasChip(a + b, c) {
        var i :| 0 <= i < |a + b| && (a + b)[i].category == c;
        if i >= |a| { assert b[i - |a|] == (a + b)[i]; }
      }
      if HasChip(b, c) {
        var i :| 0 <= i < |b| && b[i].category == c;
        assert (a + b)[|a| + i] == b[i];
      }
      if HasChip(a, c) {
        var i :| 0 <= i < |a| && a[i].category == c;
        assert (a + b)[i] == a[i];
      }
    }
  }

  /** Two rows in category order, the first's categories all before the second's. */
  lemma InCategoryOrderConcat(a: seq<FilterChip>, b: seq<FilterChip>, bound: int)
    requires InCategoryOrder(a) && InCategoryOrder(b)
    requires forall i :: 0 <= i < |a| ==> CategoryRank(a[i].category) < bound
    requires forall j :: 0 <= j < |b| ==> CategoryRank(b[j].category) >= bound
    ensures InCategoryOrder(a + b)
  {
    forall i, j | 0 <= i < j < |a + b| ensures CategoryRank((a + b)[i].category) < CategoryRank((a + b)[j].category) {
      if j < |a| {
        assert (a + b)[i] == a[i] && (a + b)[j] == a[j];
      } else if i < |a| {
        assert (a + b)[i] == a[i] && (a + b)[j] == b[j - |a|];
      } else {
        assert (a + b)[i] == b[i - |a|] && (a + b)[j] == b[j - |a|];
      }
    }
  }

  /** There is a chip for a filter exactly when that filter is not at its default;
      the chips follow the category order, so no category and no key appears twice;
      the rating chip names the mode, and the minimum with one decimal. */
  lemma ChipsExact(f: FilterState)
    ensures var chips := ActiveFilterChips(f);
      && (HasChip(chips, SearchChip) <==> Trim(f.query) != [])
      && (HasChip(chips, StatusChip) <==> f.status != AllStatuses)
      && (HasChip(chips, RatingChip) <==> f.ratingMode != AnyRating)
      && (HasChip(chips, GenreChip) <==> f.genre != AllGenres)
      && InCategoryOrder(chips)
      && (forall i, j :: 0 <= i < j < |chips| ==> chips[i].category != chips[j].category && chips[i].key != chips[j].key)
      && (forall x :: x in chips && x.category == RatingChip ==> x.text == RatingText(f.ratingMode, f.minRating))
      && (forall x :: x in chips && x.category == SearchChip ==> x.text == "Search: \"" + f.query + "\"")
      && (forall x :: x in chips && x.category == StatusChip ==>
            f.status.OnlyStatus? && x.text == "Status: " + StatusLabel(f.status.status))
      && (forall x :: x in chips && x.category == GenreChip ==> x.text == "Genre: " + f.genre)
  {
    var a, b, c, d := SearchChips(f.query), StatusChips(f.status), RatingChips(f.ratingMode, f.minRating), GenreChips(f.genre);
    RowFacts(a, b, c, d);
    assert !HasChip(a, StatusChip) && !HasChip(a, RatingChip) && !HasChip(a, GenreChip);
    assert !HasChip(b, SearchChip) && !HasChip(b, RatingChip) && !HasChip(b, GenreChip);
    assert !HasChip(c, SearchChip) && !HasChip(c, StatusChip) && !HasChip(c, GenreChip);
    assert !HasChip(d, SearchChip) && !HasChip(d, StatusChip) && !HasChip(d, RatingChip);
  }

  /** With no chip on show, no filter narrows the list: every item is listed. */
  lemma NoChipsShowsAll(items: seq<MediaItem>, f: FilterState, hasGenreData: bool)
    requires ActiveFilterChips(f) == []
    ensures Filter(items, Matches(f, hasGenreData)) == items
    ensures Shown(items, f, hasGenreData) == InsertionSort(items, Order(f.sort))
  {
    ChipsExact(f);
    assert !HasChip(ActiveFilterChips(f), SearchChip);
    assert !HasChip(ActiveFilterChips(f), StatusChip);
    assert !HasChip(ActiveFilterChips(f), RatingChip);
    assert !HasChip(ActiveFilterChips(f), GenreChip);
    forall x ensures Matches(f, hasGenreData)(x) {
      assert MatchesSearch(f.query, x) && MatchesStatus(f.status, x);
      assert MatchesRating(f.ratingMode, f.minRating, x) && MatchesGenre(f.genre, hasGenreData, x);
      assert SearchStage(f.query)(x) && StatusStage(f.status)(x);
      assert RatingStage(f.ratingMode, f.minRating)(x) && GenreStage(f.genre, hasGenreData)(x);
    }
    FilterKeepsAll(items, Matches(f, hasGenreData));
  }

  /** A filter that narrows the list always shows its chip. (The genre chip may
      show while its filter is off, when no item has genre data.) */
  lemma NarrowingShowsChip(items: seq<MediaItem>, f: FilterState, hasGenreData: bool)
    requires Filter(items, Matches(f, hasGenreData)) != items
    ensures ActiveFilterChips(f) != []
  {
    if ActiveFilterChips(f) == [] {
      NoChipsShowsAll(items, f, hasGenreData);
    }
  }

  // ---------------------------------------------------------------------------
  // handleClearAll
  // ---------------------------------------------------------------------------

  /** The six state values of the page. */
  class MoviesPage {
    var query: string
    var status: StatusFilter
    var ratingMode: RatingMode
    var minRating: real
    var genre: string
    var sort: SortOption

    constructor ()
      ensures Filters() == Defaults
    {
      query, status, ratingMode, minRating, genre, sort := "", AllStatuses, AnyRating, 3.0, AllGenres, RecentlyAdded;
    }

    function Filters(): FilterState
      reads this
    {
      FilterState(query, status, ratingMode, minRating, genre, sort)
    }

    /** `handleClearAll`: every value back to its initial one. */
    method ClearAll()
      modifies this
      ensures Filters() == Defaults
    {
      query := "";
      status := AllStatuses;
      ratingMode := AnyRating;
      minRating := 3.0;
      genre := AllGenres;
      sort := RecentlyAdded;
    }
  }

  /** After clearing, no chip shows and every item is listed, newest first. */
  lemma ClearedShowsEverything(items: seq<MediaItem>, hasGenreData: bool)
    ensures ActiveFilterChips(Defaults) == []
    ensures Shown(items, Defaults, hasGenreData) == InsertionSort(items, Order(RecentlyAdded))
  {
    DefaultsShowNoChip();
    NoChipsShowsAll(items, Defaults, hasGenreData);
  }

  /** The defaults raise no chip: an empty query trims to nothing and the other
      three controls sit at their "all" values. */
  lemma DefaultsShowNoChip()
    ensures ActiveFilterChips(Defaults) == []
  {
    TrimStartStop("");
    TrimEndStop("");
    assert Trim(Defaults.query) == [];
    assert SearchChips(Defaults.query) == [];
  }
}
