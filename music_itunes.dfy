/** The iTunes music provider (`src/providers/musicItunes.ts`) without its HTTP
    calls: each request's outcome is a parameter (`None` for a request that
    failed or a response without results), and what the provider does with it is
    modelled in full: the mapping of tracks to search results, the choice of the
    track a detail lookup shows, the runtime text, the artwork upgrade and the
    first-occurrence de-duplication of featured albums. */
module MusicItunes {
  import opened Collections
  import opened Strings
  import opened Numbers
  import opened Types
  import Utils

  /** One entry of an iTunes response; every field may be absent. Numbers are
      integers here (track, collection ids and durations in milliseconds). */
  datatype ApiMusic = ApiMusic(
    trackId: Option<int>,
    trackName: Option<string>,
    artistName: Option<string>,
    collectionName: Option<string>,
    artworkUrl100: Option<string>,
    collectionId: Option<int>,
    releaseDate: Option<string>,
    primaryGenreName: Option<string>,
    trackTimeMillis: Option<int>)

  const Provider := "itunes"
  const Untitled := "Untitled"
  const UnknownArtist := "Unknown"

  /** The album searches behind the featured list, one request each. */
  const FeaturedTerms: seq<string> := ["taylor swift", "drake", "coldplay", "daft punk", "billie eilish"]

  /** A number is truthy when present and not zero. */
  predicate Truthy(n: Option<int>) {
    n.Some? && n.value != 0
  }

  /** A string is truthy when present and not empty. */
  predicate Present(s: Option<string>) {
    s.Some? && s.value != ""
  }

  /** `a || b` on an optional string: `a` when it is truthy, else `b`. */
  function OrElse(a: Option<string>, b: string): (r: string)
    ensures Present(a) ==> r == a.value
    ensures !Present(a) ==> r == b
  {
    if Present(a) then a.value else b
  }

  // ---------------------------------------------------------------------------
  // formatRuntime
  // ---------------------------------------------------------------------------

  /** JavaScript's `%`: the remainder takes the sign of the dividend. */
  function JsRem(a: int, b: int): (r: int)
    requires b > 0
    ensures a >= 0 ==> 0 <= r < b && r == a % b
  {
    if a >= 0 then a % b else -((-a) % b)
  }

  /** `formatRuntime`: nothing for an absent or zero duration, otherwise whole
      minutes, a colon and the seconds padded to two digits. `Math.floor` of a
      division by a positive constant is Dafny's `/`. */
  function FormatRuntime(ms: Option<int>): (r: Option<string>)
    ensures r.None? <==> !Truthy(ms)
  {
    if !Truthy(ms) then None
    else
      var totalSeconds := ms.value / 1000;
      var minutes := totalSeconds / 60;
      var seconds := JsRem(totalSeconds, 60);
      Some(IntToString(minutes) + ":" + PadStart2(IntToString(seconds)))
  }

  /** Reading the text back: the digits before the colon are the minutes, the
      two digits after it the seconds, and together they give the whole seconds
      of a positive duration. */
  lemma FormatRuntimeReadsBack(ms: int)
    requires ms > 0
    ensures FormatRuntime(Some(ms)).Some?
    ensures var t := FormatRuntime(Some(ms)).value;
      var mm := BeforeFirst(t, ':');
      && |mm| + 3 == |t| && t[|mm|] == ':'
      && AllDigits(mm) && AllDigits(t[|mm| + 1..])
      && DigitsValue(t[|mm| + 1..]) < 60
      && DigitsValue(mm) * 60 + DigitsValue(t[|mm| + 1..]) == ms / 1000
  {
    var total := ms / 1000;
    var m := total / 60;
    var s := total % 60;
    var mText := NatToString(m);
    var sText := PadStart2(NatToString(s));
    var t := FormatRuntime(Some(ms)).value;
    assert t == mText + ":" + sText;
    assert ':' !in mText by {
      forall k | 0 <= k < |mText| ensures mText[k] != ':' {
        assert IsDigit(mText[k]);
      }
    }
    BeforeFirstOfSplit(mText, sText);
    assert t[|mText| + 1..] == sText;
    NatToStringValue(m);
    PaddedSeconds(s);
  }

  lemma {:induction false} BeforeFirstOfSplit(a: string, b: string)
    requires ':' !in a
    ensures BeforeFirst(a + ":" + b, ':') == a
  {
    if a != [] {
      assert (a + ":" + b)[1..] == a[1..] + ":" + b;
      assert a[0] in a;
      BeforeFirstOfSplit(a[1..], b);
    }
  }

  /** The padded seconds are two digits whose value is the seconds. */
  lemma PaddedSeconds(s: nat)
    requires s < 60
    ensures var p := PadStart2(NatToString(s));
      |p| == 2 && AllDigits(p) && DigitsValue(p) == s
  {
    var d := NatToString(s);
    if s < 10 {
      var p := PadStart2(d);
      assert p == ['0', DigitChar(s)];
      assert p[..1] == "0";
      assert DigitsValue(p[..1]) == 0 by { assert p[..1][..0] == []; }
    } else {
      assert NatToString(s / 10) == [DigitChar(s / 10)];
      NatToStringValue(s);
    }
  }

  // ---------------------------------------------------------------------------
  // upgradeImageUrl
  // ---------------------------------------------------------------------------

  const SmallArtwork := "100x100"
  const LargeArtwork := "600x600"

  /** `upgradeImageUrl`: the empty string for a missing URL, otherwise the first
      `100x100` becomes `600x600`. */
  function UpgradeImageUrl(url: Option<string>): (r: string)
    ensures !Present(url) ==> r == ""
  {
    if !Present(url) then "" else ReplaceFirst(url.value, SmallArtwork, LargeArtwork)
  }

  /** The upgrade keeps the length, writes `600x600` where the first `100x100`
      stood and leaves every other character alone; a URL without `100x100`
      is kept as it is. */
  lemma UpgradeImageUrlExact(url: string)
    requires url != ""
    ensures var r := UpgradeImageUrl(Some(url));
      && |r| == |url|
      && (!Contains(url, SmallArtwork) ==> r == url)
      && (Contains(url, SmallArtwork) ==>
            var i := IndexOf(url, SmallArtwork);
            && OccursAt(r, LargeArtwork, i)
            && (forall j :: 0 <= j < i ==> !OccursAt(url, SmallArtwork, j))
            && (forall j :: 0 <= j < |url| && !(i <= j < i + 7) ==> r[j] == url[j]))
  {
    var r := UpgradeImageUrl(Some(url));
    if Contains(url, SmallArtwork) {
      var i := IndexOf(url, SmallArtwork);
      assert r == url[..i] + LargeArtwork + url[i + 7..];
      assert r[i..i + 7] == LargeArtwork;
    }
  }

  // ---------------------------------------------------------------------------
  // searchMusic
  // ---------------------------------------------------------------------------

  /** `formatYear` of a present release date, `Unknown` otherwise. */
  function ReleaseYear(date: Option<string>): string {
    if Present(date) then Utils.FormatYear(Utils.YearString(date.value)) else "Unknown"
  }

  function GenreList(genre: Option<string>): seq<string> {
    if Present(genre) then [genre.value] else []
  }

  /** `Creator — Album` when the album is known, the creator alone otherwise. */
  function Description(creator: string, album: Option<string>): string {
    if Present(album) then creator + " — " + album.value else creator
  }

  /** A track from the search (the filter has already kept only tracks with an id). */
  function TrackResult(item: ApiMusic): (r: SearchResult)
    requires Truthy(item.trackId)
  {
    var id := IntToString(item.trackId.value);
    var creator := OrElse(item.artistName, UnknownArtist);
    SearchResult(id, OrElse(item.trackName, OrElse(item.collectionName, Untitled)),
      Utils.GetImageUrl(item.artworkUrl100), ReleaseYear(item.releaseDate), creator,
      GenreList(item.primaryGenreName), Description(creator, item.collectionName), Provider, id)
  }

  function HasTrackId(): ApiMusic -> bool {
    (item: ApiMusic) => Truthy(item.trackId)
  }

  /** The mapped tracks, in response order. */
  function TrackResults(results: seq<ApiMusic>): (r: seq<SearchResult>)
    ensures |r| == |Filter(results, HasTrackId())|
  {
    var kept := Filter(results, HasTrackId());
    seq(|kept|, i requires 0 <= i < |kept| => TrackResult(kept[i]))
  }

  /** `searchMusic`: a blank query gives no results and makes no request;
      otherwise the tracks of the response, or none when the request failed. */
  function SearchMusic(query: string, response: Option<seq<ApiMusic>>): (r: seq<SearchResult>)
    ensures Trim(query) == [] || response.None? ==> r == []
  {
    if Trim(query) == [] then []
    else if response.None? then []
    else TrackResults(response.value)
  }

  /** Each result is the track at the same place among the entries with an id:
      its id and external id are both the decimal text of the track id, which
      reads back as that id; the title falls back from track to album to
      `Untitled`, the creator to `Unknown`; the provider is `itunes`. */
  lemma SearchMusicExact(query: string, results: seq<ApiMusic>, i: int)
    requires Trim(query) != []
    requires 0 <= i < |SearchMusic(query, Some(results))|
    ensures var kept := Filter(results, HasTrackId());
      var r := SearchMusic(query, Some(results))[i];
      && |SearchMusic(query, Some(results))| == |kept|
      && kept[i] in results && Truthy(kept[i].trackId)
      && r.id == r.externalId
      && ParseInt(r.id) == Some(kept[i].trackId.value)
      && r.title != ""
      && (Present(kept[i].trackName) ==> r.title == kept[i].trackName.value)
      && (!Present(kept[i].trackName) && Present(kept[i].collectionName) ==> r.title == kept[i].collectionName.value)
      && (!Present(kept[i].trackName) && !Present(kept[i].collectionName) ==> r.title == Untitled)
      && (Present(kept[i].artistName) ==> r.creator == kept[i].artistName.value)
      && (!Present(kept[i].artistName) ==> r.creator == UnknownArtist)
      && r.provider == Provider
  {
    var kept := Filter(results, HasTrackId());
    FilterMultiset(results, HasTrackId());
    assert kept[i] in multiset(kept);
    ParseIntOfIntToString(kept[i].trackId.value, []);
    assert IntToString(kept[i].trackId.value) + [] == IntToString(kept[i].trackId.value);
  }

  /** Every track with an id appears, and only those. */
  lemma SearchMusicKeepsTracks(query: string, results: seq<ApiMusic>, item: ApiMusic)
    requires Trim(query) != []
    ensures item in Filter(results, HasTrackId()) <==> item in results && Truthy(item.trackId)
  {
    FilterMultiset(results, HasTrackId());
    assert item in Filter(results, HasTrackId()) <==> item in multiset(Filter(results, HasTrackId()));
  }

  // ---------------------------------------------------------------------------
  // getMusicDetails
  // ---------------------------------------------------------------------------

  function MatchesTrack(trackId: string): ApiMusic -> bool {
    (item: ApiMusic) => item.trackId.Some? && IntToString(item.trackId.value) == trackId
  }

  /** The entry the lookup looks at: the first whose track id is `trackId`, else
      the first entry; none in an empty response. */
  function SelectTrack(results: seq<ApiMusic>, trackId: string): (r: Option<ApiMusic>)
    ensures r.None? <==> results == []
    ensures r.Some? ==> r.value in results
    ensures Find(results, MatchesTrack(trackId)).Some? ==> r == Find(results, MatchesTrack(trackId))
    ensures results != [] && Find(results, MatchesTrack(trackId)).None? ==> r == Some(results[0])
  {
    if results == [] then None
    else
      var found := Find(results, MatchesTrack(trackId));
      if found.Some? then found else Some(results[0])
  }

  function TrackDetails(item: ApiMusic): (r: DetailsResult)
    requires Truthy(item.trackId)
  {
    var s := TrackResult(item);
    DetailsResult(s.id, s.title, s.image, s.year, s.creator, s.genres, s.description,
      s.provider, s.externalId, FormatRuntime(item.trackTimeMillis), None)
  }

  /** `getMusicDetails`: nothing for a blank id, a failed request, an empty
      response or a selected entry without a track id. */
  function GetMusicDetails(trackId: string, response: Option<seq<ApiMusic>>): (r: Option<DetailsResult>)
    ensures Trim(trackId) == [] || response.None? || response == Some([]) ==> r.None?
    ensures r.Some? ==> r.value.provider == Provider && r.value.id == r.value.externalId
  {
    if Trim(trackId) == [] || response.None? then None
    else
      var item := SelectTrack(response.value, trackId);
      if item.None? || !Truthy(item.value.trackId) then None
      else Some(TrackDetails(item.value))
  }

  /** When details come back they describe the selected entry: an entry whose
      id is the one asked for if the response has one (then the result's id is
      exactly that id), the first entry otherwise; the runtime is that
      entry's. Details are missing exactly in the four failure cases. */
  lemma GetMusicDetailsExact(trackId: string, results: seq<ApiMusic>)
    ensures var r := GetMusicDetails(trackId, Some(results));
      var sel := SelectTrack(results, trackId);
      && (r.None? <==> Trim(trackId) == [] || results == [] || !Truthy(sel.value.trackId))
      && (r.Some? ==>
            && sel.value in results
            && r.value.id == r.value.externalId == IntToString(sel.value.trackId.value)
            && r.value.runtime == FormatRuntime(sel.value.trackTimeMillis)
            && ((exists j :: 0 <= j < |results| && MatchesTrack(trackId)(results[j])) ==> r.value.id == trackId)
            && ((forall j :: 0 <= j < |results| ==> !MatchesTrack(trackId)(results[j])) ==> sel.value == results[0]))
  {
  }

  // ---------------------------------------------------------------------------
  // getFeaturedMusic
  // ---------------------------------------------------------------------------

  /** The results of the fulfilled requests, one after the other. */
  function Fulfilled(responses: seq<Option<seq<ApiMusic>>>): seq<ApiMusic> {
    if responses == [] then []
    else Fulfilled(responses[..|responses| - 1]) + responses[|responses| - 1].GetOr([])
  }

  /** The `forEach` that pushes every fulfilled response's results. */
  method CollectResults(responses: seq<Option<seq<ApiMusic>>>) returns (all: seq<ApiMusic>)
    ensures all == Fulfilled(responses)
  {
    all := [];
    for i := 0 to |responses|
      invariant all == Fulfilled(responses[..i])
    {
      assert responses[..i + 1][..i] == responses[..i];
      if responses[i].Some? {
        all := all + responses[i].value;
      }
    }
    assert responses[..|responses|] == responses;
  }

  /** The collection ids (truthy ones) of a list of albums. */
  function AlbumIds(s: seq<ApiMusic>): set<int> {
    if s == [] then {}
    else
      var last := s[|s| - 1];
      AlbumIds(s[..|s| - 1]) + (if Truthy(last.collectionId) then {last.collectionId.value} else {})
  }

  /** The filter's test: a truthy collection id not yet seen. */
  predicate Keep(item: ApiMusic, before: seq<ApiMusic>) {
    Truthy(item.collectionId) && item.collectionId.value !in AlbumIds(before)
  }

  /** The albums the filter keeps. */
  function UniqueAlbums(all: seq<ApiMusic>): seq<ApiMusic> {
    if all == [] then []
    else
      var before := all[..|all| - 1];
      UniqueAlbums(before) + (if Keep(all[|all| - 1], before) then [all[|all| - 1]] else [])
  }

  /** The `filter` with its `seen` set. */
  method DedupeAlbums(all: seq<ApiMusic>) returns (unique: seq<ApiMusic>)
    ensures unique == UniqueAlbums(all)
  {
    var seen: set<int> := {};
    unique := [];
    for i := 0 to |all|
      invariant seen == AlbumIds(all[..i])
      invariant unique == UniqueAlbums(all[..i])
    {
      var item := all[i];
      assert all[..i + 1][..i] == all[..i];
      assert all[..i + 1][i] == item;
      if item.collectionId.Some? && item.collectionId.value != 0 && item.collectionId.value !in seen {
        seen := seen + {item.collectionId.value};
        unique := unique + [item];
      }
    }
    assert all[..|all|] == all;
  }

  /** Membership in `AlbumIds`: the truthy collection id of some element. */
  lemma {:induction false} AlbumIdsMember(s: seq<ApiMusic>, id: int)
    ensures id in AlbumIds(s) <==> exists j :: 0 <= j < |s| && Truthy(s[j].collectionId) && s[j].collectionId.value == id
  {
    if s != [] {
      var before := s[..|s| - 1];
      AlbumIdsMember(before, id);
      if id in AlbumIds(before) {
        var j :| 0 <= j < |before| && Truthy(before[j].collectionId) && before[j].collectionId.value == id;
        assert s[j] == before[j];
      } else if exists j :: 0 <= j < |s| && Truthy(s[j].collectionId) && s[j].collectionId.value == id {
        var j :| 0 <= j < |s| && Truthy(s[j].collectionId) && s[j].collectionId.value == id;
      }
    }
  }

  function HasCollectionId(id: int): ApiMusic -> bool {
    (item: ApiMusic) => item.collectionId == Some(id)
  }

  /** Where the first entry with collection id `id` stands (-1 when none). */
  function FirstWithId(all: seq<ApiMusic>, id: int): int {
    FindIndex(all, HasCollectionId(id))
  }

  predicate AllHaveIds(r: seq<ApiMusic>) {
    forall i :: 0 <= i < |r| ==> Truthy(r[i].collectionId)
  }

  predicate DistinctIds(r: seq<ApiMusic>) {
    forall i, j :: 0 <= i < j < |r| ==> r[i].collectionId != r[j].collectionId
  }

  /** Each album of `r` is the first entry of `all` with its collection id. */
  predicate FirstEntries(r: seq<ApiMusic>, all: seq<ApiMusic>)
    requires AllHaveIds(r)
  {
    forall i :: 0 <= i < |r| ==>
      0 <= FirstWithId(all, r[i].collectionId.value) && r[i] == all[FirstWithId(all, r[i].collectionId.value)]
  }

  /** The albums of `r` come in the order of their first entries in `all`. */
  predicate InFirstOrder(r: seq<ApiMusic>, all: seq<ApiMusic>)
    requires AllHaveIds(r)
  {
    forall i, j :: 0 <= i < j < |r| ==>
      FirstWithId(all, r[i].collectionId.value) < FirstWithId(all, r[j].collectionId.value)
  }

  /** The de-duplicated albums: each has a truthy collection id, no two share
      one, every collection id of the input is kept, each kept album is the
      first entry with its id, and they come in the order of those first
      entries. */
  predicate DedupedFrom(r: seq<ApiMusic>, all: seq<ApiMusic>) {
    && AllHaveIds(r)
    && DistinctIds(r)
    && AlbumIds(r) == AlbumIds(all)
    && FirstEntries(r, all)
    && InFirstOrder(r, all)
  }

  lemma {:induction false} UniqueAlbumsExact(all: seq<ApiMusic>)
    ensures DedupedFrom(UniqueAlbums(all), all)
  {
    if all != [] {
      var before := all[..|all| - 1];
      var x := all[|all| - 1];
      UniqueAlbumsExact(before);
      assert all == before + [x];
      if Keep(x, before) {
        assert UniqueAlbums(all) == UniqueAlbums(before) + [x];
        KeptStep(UniqueAlbums(before), before, x);
      } else {
        assert UniqueAlbums(all) == UniqueAlbums(before);
        SkippedStep(UniqueAlbums(before), before, x);
      }
    }
  }

  /** Appending an entry keeps the first position of every id already present. */
  lemma FirstWithIdAppend(before: seq<ApiMusic>, x: ApiMusic, id: int)
    requires 0 <= FirstWithId(before, id)
    ensures FirstWithId(before + [x], id) == FirstWithId(before, id)
  {
    var k := FirstWithId(before, id);
    var s := before + [x];
    assert s[k] == before[k];
    forall j | 0 <= j < k ensures !HasCollectionId(id)(s[j]) {
      assert s[j] == before[j];
    }
  }

  /** An id in `AlbumIds` has a first entry. */
  lemma FirstWithIdPresent(s: seq<ApiMusic>, id: int)
    requires id in AlbumIds(s)
    ensures 0 <= FirstWithId(s, id)
  {
    AlbumIdsMember(s, id);
    var j :| 0 <= j < |s| && Truthy(s[j].collectionId) && s[j].collectionId.value == id;
    assert HasCollectionId(id)(s[j]);
  }

  /** A new id first appears at the appended entry. */
  lemma FirstWithIdNew(before: seq<ApiMusic>, x: ApiMusic)
    requires Keep(x, before)
    ensures FirstWithId(before + [x], x.collectionId.value) == |before|
  {
    var id := x.collectionId.value;
    var all := before + [x];
    AlbumIdsMember(before, id);
    forall j | 0 <= j < |before| ensures !HasCollectionId(id)(all[j]) {
      assert all[j] == before[j];
    }
    assert HasCollectionId(id)(all[|before|]);
  }

  lemma AlbumIdsAppend(s: seq<ApiMusic>, x: ApiMusic)
    ensures AlbumIds(s + [x]) == AlbumIds(s) + (if Truthy(x.collectionId) then {x.collectionId.value} else {})
  {
    assert (s + [x])[..|s|] == s;
  }

  /** Every album of a de-duplicated list has an id that is already taken. */
  lemma OldIdsTaken(r: seq<ApiMusic>, before: seq<ApiMusic>, i: int)
    requires AllHaveIds(r) && AlbumIds(r) == AlbumIds(before) && 0 <= i < |r|
    ensures r[i].collectionId.value in AlbumIds(before)
    ensures 0 <= FirstWithId(before, r[i].collectionId.value)
  {
    AlbumIdsMember(r, r[i].collectionId.value);
    FirstWithIdPresent(before, r[i].collectionId.value);
  }

  lemma KeptStep(r: seq<ApiMusic>, before: seq<ApiMusic>, x: ApiMusic)
    requires DedupedFrom(r, before) && Keep(x, before)
    ensures DedupedFrom(r + [x], before + [x])
  {
    AlbumIdsAppend(r, x);
    AlbumIdsAppend(before, x);
    KeptDistinct(r, before, x);
    KeptFirst(r, before, x);
  }

  lemma KeptDistinct(r: seq<ApiMusic>, before: seq<ApiMusic>, x: ApiMusic)
    requires AllHaveIds(r) && DistinctIds(r) && AlbumIds(r) == AlbumIds(before) && Keep(x, before)
    ensures AllHaveIds(r + [x]) && DistinctIds(r + [x])
  {
    var r' := r + [x];
    forall i | 0 <= i < |r| ensures r'[i].collectionId != x.collectionId {
      OldIdsTaken(r, before, i);
    }
  }

  lemma KeptFirst(r: seq<ApiMusic>, before: seq<ApiMusic>, x: ApiMusic)
    requires AllHaveIds(r) && AlbumIds(r) == AlbumIds(before) && Keep(x, before)
    requires FirstEntries(r, before) && InFirstOrder(r, before)
    ensures AllHaveIds(r + [x])
    ensures FirstEntries(r + [x], before + [x]) && InFirstOrder(r + [x], before + [x])
  {
    FirstWithIdNew(before, x);
    OldFirstKept(r, before, x);
    KeptFirstEntries(r, before, x);
    KeptFirstOrder(r, before, x);
  }

  /** Positions of the ids already kept do not move. */
  predicate OldFirstsKept(r: seq<ApiMusic>, before: seq<ApiMusic>, x: ApiMusic)
    requires AllHaveIds(r)
  {
    forall i :: 0 <= i < |r| ==>
      0 <= FirstWithId(before + [x], r[i].collectionId.value) == FirstWithId(before, r[i].collectionId.value) < |before|
  }

  lemma OldFirstKept(r: seq<ApiMusic>, before: seq<ApiMusic>, x: ApiMusic)
    requires AllHaveIds(r) && AlbumIds(r) == AlbumIds(before)
    ensures OldFirstsKept(r, before, x)
  {
    forall i | 0 <= i < |r| ensures
      0 <= FirstWithId(before + [x], r[i].collectionId.value) == FirstWithId(before, r[i].collectionId.value) < |before|
    {
      OldIdsTaken(r, before, i);
      FirstWithIdAppend(before, x, r[i].collectionId.value);
    }
  }

  lemma KeptFirstEntries(r: seq<ApiMusic>, before: seq<ApiMusic>, x: ApiMusic)
    requires AllHaveIds(r) && Keep(x, before) && FirstEntries(r, before) && OldFirstsKept(r, before, x)
    requires FirstWithId(before + [x], x.collectionId.value) == |before|
    ensures AllHaveIds(r + [x]) && FirstEntries(r + [x], before + [x])
  {
    var r' := r + [x];
    var all := before + [x];
    assert all[|before|] == x;
    forall i | 0 <= i < |r| ensures r'[i] == all[FirstWithId(all, r'[i].collectionId.value)] {
      assert r'[i] == r[i];
      assert all[FirstWithId(before, r[i].collectionId.value)] == before[FirstWithId(before, r[i].collectionId.value)];
    }
  }

  lemma KeptFirstOrder(r: seq<ApiMusic>, before: seq<ApiMusic>, x: ApiMusic)
    requires AllHaveIds(r) && Keep(x, before) && InFirstOrder(r, before) && OldFirstsKept(r, before, x)
    requires FirstWithId(before + [x], x.collectionId.value) == |before|
    ensures AllHaveIds(r + [x]) && InFirstOrder(r + [x], before + [x])
  {
    var r' := r + [x];
    forall i, j | 0 <= i < j < |r'| ensures
      FirstWithId(before + [x], r'[i].collectionId.value) < FirstWithId(before + [x], r'[j].collectionId.value)
    {
      assert r'[i] == r[i];
      if j < |r| {
        assert r'[j] == r[j];
      }
    }
  }

  lemma SkippedStep(r: seq<ApiMusic>, before: seq<ApiMusic>, x: ApiMusic)
    requires DedupedFrom(r, before) && !Keep(x, before)
    ensures DedupedFrom(r, before + [x])
  {
    var all := before + [x];
    AlbumIdsAppend(before, x);
    forall i | 0 <= i < |r| ensures
      && FirstWithId(all, r[i].collectionId.value) == FirstWithId(before, r[i].collectionId.value)
      && r[i] == all[FirstWithId(all, r[i].collectionId.value)]
    {
      FirstWithIdAppend(before, x, r[i].collectionId.value);
    }
  }

  /** A featured album as a search result. */
  function AlbumResult(item: ApiMusic): (r: SearchResult)
    requires Truthy(item.collectionId)
  {
    var id := IntToString(item.collectionId.value);
    SearchResult(id, OrElse(item.collectionName, Untitled),
      UpgradeImageUrl(item.artworkUrl100),
      if item.releaseDate.Some? then SliceTo(item.releaseDate.value, 4) else "",
      OrElse(item.artistName, UnknownArtist), GenreList(item.primaryGenreName), "", Provider, id)
  }

  /** The featured list for the given outcomes of the album searches. */
  function FeaturedMusic(responses: seq<Option<seq<ApiMusic>>>): (r: seq<SearchResult>)
    ensures |r| == |UniqueAlbums(Fulfilled(responses))|
    ensures forall i :: 0 <= i < |r| ==> r[i].provider == Provider && r[i].description == ""
  {
    var unique := UniqueAlbums(Fulfilled(responses));
    UniqueAlbumsExact(Fulfilled(responses));
    seq(|unique|, i requires 0 <= i < |unique| => AlbumResult(unique[i]))
  }

  /** `getFeaturedMusic`: collect, de-duplicate, map. */
  method GetFeaturedMusic(responses: seq<Option<seq<ApiMusic>>>) returns (r: seq<SearchResult>)
    ensures r == FeaturedMusic(responses)
  {
    var all := CollectResults(responses);
    var unique := DedupeAlbums(all);
    UniqueAlbumsExact(all);
    r := [];
    for i := 0 to |unique|
      invariant |r| == i
      invariant forall k :: 0 <= k < i ==> r[k] == AlbumResult(unique[k])
    {
      r := r + [AlbumResult(unique[i])];
    }
  }

  /** Each featured result's id is its external id and the decimal text of the
      collection id of its album, the first album with that id; no collection id
      of a fulfilled response is lost. */
  lemma FeaturedMusicExact(responses: seq<Option<seq<ApiMusic>>>, i: int)
    requires 0 <= i < |FeaturedMusic(responses)|
    ensures var r := FeaturedMusic(responses);
      var unique := UniqueAlbums(Fulfilled(responses));
      && DedupedFrom(unique, Fulfilled(responses))
      && r[i].id == r[i].externalId
      && ParseInt(r[i].id) == Some(unique[i].collectionId.value)
  {
    var unique := UniqueAlbums(Fulfilled(responses));
    UniqueAlbumsExact(Fulfilled(responses));
    var a := unique[i].collectionId.value;
    ParseIntOfIntToString(a, []);
    assert IntToString(a) + [] == IntToString(a);
  }

  /** No two featured results share an id. */
  lemma FeaturedIdsDistinct(responses: seq<Option<seq<ApiMusic>>>, i: int, j: int)
    requires 0 <= i < j < |FeaturedMusic(responses)|
    ensures FeaturedMusic(responses)[i].id != FeaturedMusic(responses)[j].id
  {
    var r := FeaturedMusic(responses);
    FeaturedMusicExact(responses, i);
    FeaturedMusicExact(responses, j);
    var unique := UniqueAlbums(Fulfilled(responses));
    UniqueAlbumsExact(Fulfilled(responses));
    assert unique[i].collectionId.value != unique[j].collectionId.value;
  }
}
