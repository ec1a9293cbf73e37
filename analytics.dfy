/** The insight aggregations (`src/analytics/index.ts`): folds over a snapshot of
    the items or of the activity log. Each loop is a method proved equal to a
    specification function; the properties the insight page relies on are lemmas
    about those functions. JavaScript records become maps (or a per-type record);
    the order in which a record enumerates its keys is not modelled, except for the
    tag record, whose insertion order decides how `getTopTags` breaks ties. */
module Analytics {
  import opened Collections
  import opened Numbers
  import opened Sorting
  import opened Types
  import Storage

  // ---------------------------------------------------------------------------
  // getRatingsDistribution
  // ---------------------------------------------------------------------------

  /** The rating of one item, if it has one. */
  function RatingOf(item: MediaItem): (r: seq<real>)
    ensures |r| == if IsRated(item) then 1 else 0
  {
    match item.yourRating case Some(v) => [v] case None => []
  }

  /** The ratings of the rated items, in item order. */
  function RatingsOf(items: seq<MediaItem>): (r: seq<real>)
    ensures |r| == |Filter(items, IsRated)|
  {
    if items == [] then [] else RatingOf(items[0]) + RatingsOf(items[1..])
  }

  lemma {:induction false} RatingsOfConcat(a: seq<MediaItem>, b: seq<MediaItem>)
    ensures RatingsOf(a + b) == RatingsOf(a) + RatingsOf(b)
  {
    if a == [] {
      assert a + b == b;
    } else {
      var ab := a + b;
      assert ab[0] == a[0];
      assert ab[1..] == a[1..] + b;
      RatingsOfConcat(a[1..], b);
    }
  }

  /** One more item of the prefix adds its rating, if it has one. */
  lemma RatingsOfPrefix(items: seq<MediaItem>, i: nat)
    requires i < |items|
    ensures RatingsOf(items[..i + 1]) == RatingsOf(items[..i]) + RatingOf(items[i])
  {
    assert items[..i + 1] == items[..i] + [items[i]];
    RatingsOfConcat(items[..i], [items[i]]);
    assert [items[i]][1..] == [];
  }

  /** The keys the distribution starts with: 0, 0.5, ..., 5. */
  predicate HistogramKey(k: real) {
    0.0 <= k <= Storage.RatingMax && Storage.IsHalfStep(k)
  }

  /** The first loop of `getRatingsDistribution`: a zero for each half step
      `0, 0.5, ..., 5`. */
  method EmptyDistribution() returns (d: map<real, nat>)
    ensures forall k :: k in d <==> HistogramKey(k)
    ensures forall k :: k in d ==> d[k] == 0
  {
    d := map[];
    for j := 0 to 11
      invariant forall k :: k in d <==> 0.0 <= k && 2.0 * k < j as real && Storage.IsHalfStep(k)
      invariant forall k :: k in d ==> d[k] == 0
    {
      assert Storage.IsHalfStep(j as real / 2.0) by {
        assert 2.0 * (j as real / 2.0) == j as real;
      }
      d := d[j as real / 2.0 := 0];
    }
  }

  /** `getRatingsDistribution`: every half step from 0 to 5 is a key, so is every
      rating that occurs, and each key maps to the number of items rated with it. */
  method RatingsDistribution(items: seq<MediaItem>) returns (d: map<real, nat>)
    ensures forall k :: k in d <==> HistogramKey(k) || k in RatingsOf(items)
    ensures forall k :: k in d ==> d[k] == multiset(RatingsOf(items))[k]
  {
    d := EmptyDistribution();
    assert Tally(d, []);
    for i := 0 to |items|
      invariant Histogram(d, RatingsOf(items[..i]))
    {
      RatingsOfPrefix(items, i);
      d := CountRating(d, RatingsOf(items[..i]), items[i]);
    }
    assert items[..|items|] == items;
  }

  /** The body of the counting loop: one more item's rating, if any, is counted. */
  method CountRating(d0: map<real, nat>, ghost seen: seq<real>, item: MediaItem) returns (d: map<real, nat>)
    requires Histogram(d0, seen)
    ensures Histogram(d, seen + RatingOf(item))
  {
    match item.yourRating {
      case Some(r) =>
        HistogramBump(d0, seen, r);
        d := Bump(d0, r);
      case None =>
        assert seen + RatingOf(item) == seen;
        d := d0;
    }
  }

  /** `d` is the distribution of the ratings `seen`. */
  ghost predicate Histogram(d: map<real, nat>, seen: seq<real>) {
    && Tally(d, seen)
    && (forall k :: k in d ==> HistogramKey(k) || k in seen)
    && (forall k :: HistogramKey(k) ==> k in d)
  }

  lemma HistogramBump(d: map<real, nat>, seen: seq<real>, r: real)
    requires Histogram(d, seen)
    ensures Histogram(Bump(d, r), seen + [r])
  {
    TallyBump(d, seen, r);
  }

  /** `d` is what `getRatingsDistribution` returns for `items`: the two
      postconditions of `RatingsDistribution`. */
  ghost predicate IsDistribution(d: map<real, nat>, items: seq<MediaItem>) {
    && (forall k :: k in d <==> HistogramKey(k) || k in RatingsOf(items))
    && (forall k :: k in d ==> d[k] == multiset(RatingsOf(items))[k])
  }

  /** The sum of the values of `d` at the listed keys. */
  function MapSum(d: map<real, nat>, keys: seq<real>): nat
    requires forall k :: k in keys ==> k in d
  {
    if keys == [] then 0
    else
      var k := keys[0];
      assert k in keys;
      assert k in d;
      d[k] + MapSum(d, keys[1..])
  }

  lemma {:induction false} MapSumCounts(d: map<real, nat>, keys: seq<real>, s: seq<real>)
    requires forall k :: k in keys ==> k in d && d[k] == multiset(s)[k]
    ensures MapSum(d, keys) == SumCounts(keys, s)
  {
    if keys != [] {
      var k := keys[0];
      assert k in keys;
      assert k in d && d[k] == multiset(s)[k];
      MapSumCounts(d, keys[1..], s);
    }
  }

  /** In the map `getRatingsDistribution` returns, the values at the ratings that
      occur add up to the number of rated items, and every other key (a half step
      nobody used) maps to 0: unrated items count nowhere. */
  lemma RatingsDistributionSums(items: seq<MediaItem>, d: map<real, nat>)
    requires IsDistribution(d, items)
    ensures forall k :: k in Distinct(RatingsOf(items)) ==> k in d
    ensures MapSum(d, Distinct(RatingsOf(items))) == |Filter(items, IsRated)|
    ensures forall k :: k in d && k !in RatingsOf(items) ==> d[k] == 0
  {
    var rs := RatingsOf(items);
    MapSumCounts(d, Distinct(rs), rs);
    DistinctCountsSum(rs);
  }

  /** A library item made for the fixtures below. */
  function Sample(id: string, t: MediaType, rating: Option<real>, status: Status, tags: seq<string>): MediaItem {
    MediaItem(id, t, "omdb", "tt" + id, "Test", "", 2025.0, [], rating, "", false, tags, status, None, 0, 0, 0)
  }

  /** Two items rated 5 and one rated 3.5 (src/analytics/index.test.ts): the map
      `getRatingsDistribution` returns holds 2 at 5, 1 at 3.5 and 0 at 0. */
  lemma RatingsDistributionFixture(items: seq<MediaItem>, d: map<real, nat>)
    requires |items| == 3
    requires items[0].yourRating == Some(5.0) && items[1].yourRating == Some(5.0)
    requires items[2].yourRating == Some(3.5)
    requires IsDistribution(d, items)
    ensures 5.0 in d && 3.5 in d && 0.0 in d
    ensures d[5.0] == 2 && d[3.5] == 1 && d[0.0] == 0
  {
    var t1 := items[1..];
    var t2 := t1[1..];
    assert t2[1..] == [];
    RatingsOfCons(t2);
    RatingsOfCons(t1);
    RatingsOfCons(items);
    FixtureCounts(RatingsOf(items));
    assert HistogramKey(5.0) && HistogramKey(3.5) && HistogramKey(0.0) by {
      assert 2.0 * 5.0 == 10.0 && 2.0 * 3.5 == 7.0 && 2.0 * 0.0 == 0.0;
    }
  }

  lemma RatingsOfCons(items: seq<MediaItem>)
    requires items != []
    ensures RatingsOf(items) == RatingOf(items[0]) + RatingsOf(items[1..])
  {
  }

  lemma FixtureCounts(r: seq<real>)
    requires r == [5.0] + ([5.0] + ([3.5] + []))
    ensures multiset(r)[5.0] == 2 && multiset(r)[3.5] == 1 && multiset(r)[0.0] == 0
  {
    assert r == [5.0, 5.0, 3.5];
  }

  // ---------------------------------------------------------------------------
  // getAverageRatingByType
  // ---------------------------------------------------------------------------

  function Sum(s: seq<real>): real {
    if s == [] then 0.0 else Sum(s[..|s| - 1]) + s[|s| - 1]
  }

  /** The mean of `s`, or 0 for the empty sequence. */
  function Average(s: seq<real>): real {
    if |s| == 0 then 0.0 else Sum(s) / |s| as real
  }

  /** The ratings of the rated items of type `t`. */
  function TypeRatings(items: seq<MediaItem>, t: MediaType): seq<real> {
    RatingsOf(Filter(items, OfType(t)))
  }

  /** One more item adds its rating, if any, to the ratings of its own type only. */
  lemma TypeRatingsStep(items: seq<MediaItem>, item: MediaItem, t: MediaType)
    ensures TypeRatings(items + [item], t) ==
      TypeRatings(items, t) + (if item.mediaType == t && item.yourRating.Some? then [item.yourRating.value] else [])
  {
    FilterConcat(items, [item], OfType(t));
    RatingsOfConcat(Filter(items, OfType(t)), Filter([item], OfType(t)));
  }

  lemma SumAppend(s: seq<real>, x: real)
    ensures Sum(s + [x]) == Sum(s) + x
  {
    assert (s + [x])[..|s|] == s;
  }

  /** `sum` and `count` are the sum and the number of the ratings of the rated
      items of `items` of type `t`. */
  ghost predicate AccumulatedFor(sum: real, count: nat, items: seq<MediaItem>, t: MediaType) {
    sum == Sum(TypeRatings(items, t)) && count == |TypeRatings(items, t)|
  }

  /** `sums` and `counts` hold, per type, the sum and the number of the ratings of
      the rated items of `items` of that type. */
  ghost predicate Accumulated(sums: PerType<real>, counts: PerType<nat>, items: seq<MediaItem>) {
    forall t :: AccumulatedFor(sums.Get(t), counts.Get(t), items, t)
  }

  lemma AccumulatedForStep(sum: real, count: nat, items: seq<MediaItem>, item: MediaItem, t: MediaType)
    requires AccumulatedFor(sum, count, items, t)
    ensures item.mediaType == t && item.yourRating.Some? ==>
      AccumulatedFor(sum + item.yourRating.value, count + 1, items + [item], t)
    ensures !(item.mediaType == t && item.yourRating.Some?) ==> AccumulatedFor(sum, count, items + [item], t)
  {
    TypeRatingsStep(items, item, t);
    if item.mediaType == t && item.yourRating.Some? {
      SumAppend(TypeRatings(items, t), item.yourRating.value);
    } else {
      assert TypeRatings(items, t) + [] == TypeRatings(items, t);
    }
  }

  lemma AccumulatedStep(sums: PerType<real>, counts: PerType<nat>, items: seq<MediaItem>, item: MediaItem)
    requires Accumulated(sums, counts, items)
    ensures item.yourRating.None? ==> Accumulated(sums, counts, items + [item])
    ensures item.yourRating.Some? ==>
      var t := item.mediaType;
      Accumulated(sums.Set(t, sums.Get(t) + item.yourRating.value), counts.Set(t, counts.Get(t) + 1), items + [item])
  {
    forall t {
      AccumulatedForStep(sums.Get(t), counts.Get(t), items, item, t);
    }
  }

  /** `getAverageRatingByType`: for each type the mean of the ratings of its rated
      items, 0 when it has none. */
  method AverageRatingByType(items: seq<MediaItem>) returns (avg: PerType<real>)
    ensures forall t :: avg.Get(t) == Average(TypeRatings(items, t))
  {
    var sums := PerType(0.0, 0.0, 0.0);
    var counts: PerType<nat> := PerType(0, 0, 0);
    for i := 0 to |items|
      invariant Accumulated(sums, counts, items[..i])
    {
      var item := items[i];
      assert items[..i + 1] == items[..i] + [item];
      AccumulatedStep(sums, counts, items[..i], item);
      if item.yourRating.Some? {
        sums := sums.Set(item.mediaType, sums.Get(item.mediaType) + item.yourRating.value);
        counts := counts.Set(item.mediaType, counts.Get(item.mediaType) + 1);
      }
    }
    assert items[..|items|] == items;
    avg := PerType(
      if counts.movie > 0 then sums.movie / counts.movie as real else 0.0,
      if counts.book > 0 then sums.book / counts.book as real else 0.0,
      if counts.music > 0 then sums.music / counts.music as real else 0.0);
    assert forall t :: avg.Get(t) == (if counts.Get(t) > 0 then sums.Get(t) / counts.Get(t) as real else 0.0);
  }

  /** `lo <= x / n <= hi` follows from `lo * n <= x <= hi * n` for positive `n`. */
  lemma QuotientBounds(x: real, n: real, lo: real, hi: real)
    requires n > 0.0 && lo * n <= x <= hi * n
    ensures lo <= x / n <= hi
  {
    var q := x / n;
    assert q * n == x;
    assert (q - lo) * n >= 0.0;
    assert (hi - q) * n >= 0.0;
  }

  lemma {:induction false} SumBounds(s: seq<real>, lo: real, hi: real)
    requires forall i :: 0 <= i < |s| ==> lo <= s[i] <= hi
    ensures lo * |s| as real <= Sum(s) <= hi * |s| as real
  {
    if s != [] {
      SumBounds(s[..|s| - 1], lo, hi);
      assert s[|s| - 1] == s[|s| - 1];
      assert lo * |s| as real == lo * (|s| - 1) as real + lo;
      assert hi * |s| as real == hi * (|s| - 1) as real + hi;
    }
  }

  /** An average of ratings in range is itself in range. */
  lemma AverageInRange(s: seq<real>)
    requires forall i :: 0 <= i < |s| ==> Storage.RatingMin <= s[i] <= Storage.RatingMax
    ensures Storage.RatingMin <= Average(s) <= Storage.RatingMax
  {
    if s != [] {
      SumBounds(s, Storage.RatingMin, Storage.RatingMax);
      QuotientBounds(Sum(s), |s| as real, Storage.RatingMin, Storage.RatingMax);
    }
  }

  /** Movies rated 5 and 3 average 4; a type with no rated item averages 0. */
  lemma AverageRatingFixture()
    ensures var items := [Sample("1", Movie, Some(5.0), Completed, []), Sample("2", Movie, Some(3.0), Completed, [])];
      && Average(TypeRatings(items, Movie)) == 4.0
      && Average(TypeRatings(items, Book)) == 0.0
  {
    var items := [Sample("1", Movie, Some(5.0), Completed, []), Sample("2", Movie, Some(3.0), Completed, [])];
    assert items[1..][1..] == [];
    assert Filter(items, OfType(Movie)) == items;
    assert RatingsOf(items) == [5.0, 3.0];
    assert [5.0, 3.0][..1] == [5.0];
    assert Sum([5.0, 3.0]) == Sum([5.0]) + 3.0;
    assert Sum([5.0]) == Sum([]) + 5.0;
    assert Filter(items, OfType(Book)) == [];
  }

  // ---------------------------------------------------------------------------
  // getTopTags
  // ---------------------------------------------------------------------------

  datatype TagCount = TagCount(tag: string, count: nat)

  /** Every tag of every item, item by item. */
  function AllTags(items: seq<MediaItem>): seq<string> {
    if items == [] then [] else AllTags(items[..|items| - 1]) + items[|items| - 1].tags
  }

  /** The entries of the tag-count record in insertion order: each distinct tag,
      in order of first occurrence, with its number of occurrences. */
  function TagEntries(items: seq<MediaItem>): (r: seq<TagCount>)
    ensures |r| == |Distinct(AllTags(items))|
    ensures forall i :: 0 <= i < |r| ==> r[i].tag == Distinct(AllTags(items))[i]
    ensures forall i :: 0 <= i < |r| ==> r[i].count == multiset(AllTags(items))[r[i].tag]
  {
    var d := Distinct(AllTags(items));
    seq(|d|, i requires 0 <= i < |d| => TagCount(d[i], multiset(AllTags(items))[d[i]]))
  }

  /** The comparator `(a, b) => b.count - a.count`: `a` may come first when it is at
      least as frequent. */
  predicate MoreFrequent(a: TagCount, b: TagCount) {
    a.count >= b.count
  }

  /** What `getTopTags(items, limit)` returns. */
  function TopTagsSpec(items: seq<MediaItem>, limit: int): seq<TagCount> {
    SliceTo(InsertionSort(TagEntries(items), MoreFrequent), limit)
  }

  /** The tag record after counting the tags `seen`: `order` is its key order, in
      which each tag appears when it is first counted. */
  ghost predicate TagTally(order: seq<string>, counts: map<string, nat>, seen: seq<string>) {
    order == Distinct(seen) && ExactTally(counts, seen)
  }

  lemma TagTallyStep(order: seq<string>, counts: map<string, nat>, seen: seq<string>, tag: string)
    requires TagTally(order, counts, seen)
    ensures TagTally(if tag in counts then order else order + [tag], Bump(counts, tag), seen + [tag])
  {
    ExactTallyBump(counts, seen, tag);
    DistinctAppend(seen, tag);
  }

  /** The counting loops of `getTopTags`: the tag record, with its key order. */
  method CountTags(items: seq<MediaItem>) returns (order: seq<string>, counts: map<string, nat>)
    ensures TagTally(order, counts, AllTags(items))
  {
    order := [];
    counts := map[];
    for i := 0 to |items|
      invariant TagTally(order, counts, AllTags(items[..i]))
    {
      order, counts := CountItemTags(order, counts, AllTags(items[..i]), items[i].tags);
      assert items[..i + 1][..i] == items[..i];
    }
    assert items[..|items|] == items;
  }

  /** The inner loop: counting the tags of one item on top of the tags `seen`. */
  method CountItemTags(order0: seq<string>, counts0: map<string, nat>, ghost seen: seq<string>, tags: seq<string>)
    returns (order: seq<string>, counts: map<string, nat>)
    requires TagTally(order0, counts0, seen)
    ensures TagTally(order, counts, seen + tags)
  {
    order, counts := order0, counts0;
    ghost var counted := seen;
    assert seen + tags[..0] == seen;
    for j := 0 to |tags|
      invariant counted == seen + tags[..j]
      invariant TagTally(order, counts, counted)
    {
      var tag := tags[j];
      TagTallyStep(order, counts, counted, tag);
      ConcatPrefixStep(seen, tags, j);
      if tag !in counts {
        order := order + [tag];
      }
      counts := Bump(counts, tag);
      counted := counted + [tag];
    }
    assert tags[..|tags|] == tags;
  }

  /** `getTopTags`: counts the tags, then sorts the entries by count (stably) and
      keeps the first `limit`. */
  method TopTags(items: seq<MediaItem>, limit: int) returns (r: seq<TagCount>)
    ensures r == TopTagsSpec(items, limit)
  {
    var order, counts := CountTags(items);
    assert forall t :: t in order ==> t in AllTags(items) && t in counts;
    var entries := new TagCount[|order|];
    for k := 0 to |order|
      invariant forall m :: 0 <= m < k ==> entries[m] == TagEntries(items)[m]
    {
      entries[k] := TagCount(order[k], counts[order[k]]);
    }
    assert entries[..] == TagEntries(items);
    SortInPlace(entries, MoreFrequent);
    r := SliceTo(entries[..], limit);
  }

  lemma MoreFrequentIsTotalPreorder()
    ensures TotalPreorder(MoreFrequent)
  {
  }

  /** What the top-tags list promises: at most `limit` entries and at most one per
      distinct tag, each tag's real total, most frequent first, no tag twice. */
  lemma TopTagsProperties(items: seq<MediaItem>, limit: int)
    ensures 0 <= limit ==> |TopTagsSpec(items, limit)| <= limit
    ensures |TopTagsSpec(items, limit)| <= |Distinct(AllTags(items))|
    ensures var r := TopTagsSpec(items, limit);
      forall i, j :: 0 <= i < j < |r| ==> r[i].count >= r[j].count
    ensures var r := TopTagsSpec(items, limit);
      forall i :: 0 <= i < |r| ==> r[i].tag in AllTags(items) && r[i].count == multiset(AllTags(items))[r[i].tag]
    ensures var r := TopTagsSpec(items, limit);
      forall i, j :: 0 <= i < j < |r| ==> r[i].tag != r[j].tag
    ensures 0 <= limit ==> |TopTagsSpec(items, limit)| == (if limit < |Distinct(AllTags(items))| then limit else |Distinct(AllTags(items))|)
    ensures var r := TopTagsSpec(items, limit);
      forall e, i :: e in TagEntries(items) && e !in r && 0 <= i < |r| ==> e.count <= r[i].count
  {
    var sorted := InsertionSort(TagEntries(items), MoreFrequent);
    var r := TopTagsSpec(items, limit);
    assert r == sorted[..|r|];
    TopTagsDropped(items, sorted, |r|);
    SortedTagsOrdered(items, sorted);
    SortedTagsCounts(items, sorted);
    SortedTagsDistinct(items, sorted);
    forall i, j | 0 <= i < j < |r| ensures r[i].count >= r[j].count && r[i].tag != r[j].tag {
      assert r[i] == sorted[i] && r[j] == sorted[j];
    }
    forall i | 0 <= i < |r|
      ensures r[i].tag in AllTags(items) && r[i].count == multiset(AllTags(items))[r[i].tag]
    {
      assert r[i] == sorted[i];
    }
  }

  /** An entry left out of a prefix of the sorted entries is no more frequent than
      any entry kept. */
  lemma TopTagsDropped(items: seq<MediaItem>, sorted: seq<TagCount>, n: nat)
    requires sorted == InsertionSort(TagEntries(items), MoreFrequent)
    requires n <= |sorted|
    ensures forall e, i :: e in TagEntries(items) && e !in sorted[..n] && 0 <= i < n ==> e.count <= sorted[i].count
  {
    SortedTagsOrdered(items, sorted);
    forall e, i | e in TagEntries(items) && e !in sorted[..n] && 0 <= i < n ensures e.count <= sorted[i].count {
      assert e in multiset(TagEntries(items));
      assert e in multiset(sorted);
      var k :| 0 <= k < |sorted| && sorted[k] == e;
    }
  }

  /** The `limit` of `getTopTags` and `getMostRecentActivity` when the caller
      passes none. */
  const DefaultLimit := 10

  /** Two items tagged `[a, b]` and `[a, c]` (src/analytics/index.test.ts): three
      tags come back, and the first is `a`, counted twice. */
  lemma TopTagsFixture(items: seq<MediaItem>, a: string, b: string, c: string)
    requires |items| == 2 && items[0].tags == [a, b] && items[1].tags == [a, c]
    requires a != b && a != c && b != c
    ensures |TopTagsSpec(items, DefaultLimit)| == 3
    ensures TopTagsSpec(items, DefaultLimit)[0] == TagCount(a, 2)
  {
    var all := AllTags(items);
    FixtureTags(items, a, b, c);
    FixtureDistinct(a, b, c);
    FixtureTagCounts(a, b, c);
    var entries := TagEntries(items);
    assert entries[0] == TagCount(a, 2);
    var sorted := InsertionSort(entries, MoreFrequent);
    FirstIsMostFrequent(items, entries[0]);
    FirstIsExact(items);
    assert TopTagsSpec(items, DefaultLimit) == sorted by {
      assert SliceEnd(|sorted|, DefaultLimit) == |sorted|;
    }
  }

  /** No entry is more frequent than the first one after sorting. */
  lemma FirstIsMostFrequent(items: seq<MediaItem>, e: TagCount)
    requires e in TagEntries(items)
    ensures |InsertionSort(TagEntries(items), MoreFrequent)| > 0
    ensures InsertionSort(TagEntries(items), MoreFrequent)[0].count >= e.count
  {
    var sorted := InsertionSort(TagEntries(items), MoreFrequent);
    assert e in multiset(sorted);
    var j :| 0 <= j < |sorted| && sorted[j] == e;
    SortedTagsOrdered(items, sorted);
    if j > 0 {
      assert sorted[0].count >= sorted[j].count;
    }
  }

  /** The first entry after sorting carries the real total of its tag. */
  lemma FirstIsExact(items: seq<MediaItem>)
    requires |InsertionSort(TagEntries(items), MoreFrequent)| > 0
    ensures var first := InsertionSort(TagEntries(items), MoreFrequent)[0];
      first.tag in AllTags(items) && first.count == multiset(AllTags(items))[first.tag]
  {
    SortedTagsCounts(items, InsertionSort(TagEntries(items), MoreFrequent));
  }

  lemma FixtureTagCounts<T>(a: T, b: T, c: T)
    requires a != b && a != c && b != c
    ensures multiset([a, b, a, c])[a] == 2
    ensures forall x :: x in [a, b, a, c] && multiset([a, b, a, c])[x] >= 2 ==> x == a
  {
    assert multiset([a, b, a, c])[b] == 1 && multiset([a, b, a, c])[c] == 1;
  }

  lemma FixtureTags(items: seq<MediaItem>, a: string, b: string, c: string)
    requires |items| == 2 && items[0].tags == [a, b] && items[1].tags == [a, c]
    ensures AllTags(items) == [a, b, a, c]
  {
    assert items[..1][..0] == [];
    assert AllTags(items[..1]) == [a, b];
  }

  lemma FixtureDistinct<T(!new)>(a: T, b: T, c: T)
    requires a != b && a != c && b != c
    ensures Distinct([a, b, a, c]) == [a, b, c]
  {
    var s0: seq<T> := [];
    var s1 := s0 + [a];
    var s2 := s1 + [b];
    var s3 := s2 + [a];
    var s4 := s3 + [c];
    DistinctNew(s0, [], a);
    DistinctNew(s1, [] + [a], b);
    assert s2[0] == a;
    DistinctSeen(s2, [] + [a] + [b], a);
    assert s3 == [a, b, a];
    DistinctNew(s3, [] + [a] + [b], c);
    assert s4 == [a, b, a, c];
    assert [] + [a] + [b] + [c] == [a, b, c];
  }

  lemma DistinctNew<T(!new)>(s: seq<T>, d: seq<T>, x: T)
    requires Distinct(s) == d && x !in s
    ensures Distinct(s + [x]) == d + [x]
  {
    DistinctAppend(s, x);
  }

  lemma DistinctSeen<T(!new)>(s: seq<T>, d: seq<T>, x: T)
    requires Distinct(s) == d && x in s
    ensures Distinct(s + [x]) == d
  {
    DistinctAppend(s, x);
  }

  lemma SortedTagsOrdered(items: seq<MediaItem>, sorted: seq<TagCount>)
    requires sorted == InsertionSort(TagEntries(items), MoreFrequent)
    ensures forall i, j :: 0 <= i < j < |sorted| ==> sorted[i].count >= sorted[j].count
  {
    MoreFrequentIsTotalPreorder();
    InsertionSortSorted(TagEntries(items), MoreFrequent);
  }

  lemma SortedTagsCounts(items: seq<MediaItem>, sorted: seq<TagCount>)
    requires sorted == InsertionSort(TagEntries(items), MoreFrequent)
    ensures forall i :: 0 <= i < |sorted| ==>
      sorted[i].tag in AllTags(items) && sorted[i].count == multiset(AllTags(items))[sorted[i].tag]
  {
    var entries := TagEntries(items);
    forall i | 0 <= i < |sorted|
      ensures sorted[i].tag in AllTags(items) && sorted[i].count == multiset(AllTags(items))[sorted[i].tag]
    {
      assert sorted[i] in multiset(sorted);
      assert sorted[i] in multiset(entries);
      var k :| 0 <= k < |entries| && entries[k] == sorted[i];
      assert Distinct(AllTags(items))[k] in Distinct(AllTags(items));
    }
  }

  lemma SortedTagsDistinct(items: seq<MediaItem>, sorted: seq<TagCount>)
    requires sorted == InsertionSort(TagEntries(items), MoreFrequent)
    ensures forall i, j :: 0 <= i < j < |sorted| ==> sorted[i].tag != sorted[j].tag
  {
    var entries := TagEntries(items);
    assert NoDuplicates(entries) by {
      forall a, b | 0 <= a < b < |entries| ensures entries[a] != entries[b] {
        assert entries[a].tag == Distinct(AllTags(items))[a];
        assert entries[b].tag == Distinct(AllTags(items))[b];
      }
    }
    NoDuplicatesPermutation(entries, sorted);
    SortedTagsCounts(items, sorted);
    forall i, j | 0 <= i < j < |sorted| ensures sorted[i].tag != sorted[j].tag {
      assert sorted[i] != sorted[j];
      assert sorted[i].count == multiset(AllTags(items))[sorted[i].tag];
      assert sorted[j].count == multiset(AllTags(items))[sorted[j].tag];
    }
  }

  /** Tags with equal counts keep the order of their first occurrence. */
  lemma TopTagsTiesKeepOrder(items: seq<MediaItem>, k: TagCount)
    ensures Filter(InsertionSort(TagEntries(items), MoreFrequent), y => Tied(MoreFrequent, y, k))
         == Filter(TagEntries(items), y => Tied(MoreFrequent, y, k))
  {
    MoreFrequentIsTotalPreorder();
    InsertionSortStable(TagEntries(items), k, MoreFrequent);
  }

  // ---------------------------------------------------------------------------
  // getActivityByMonth
  // ---------------------------------------------------------------------------

  /** The month key of every event, in log order. */
  function MonthsOf(events: seq<ActivityEvent>, monthOf: Timestamp -> string): (r: seq<string>)
    ensures |r| == |events|
    ensures forall i :: 0 <= i < |r| ==> r[i] == monthOf(events[i].timestamp)
  {
    if events == [] then [] else MonthsOf(events[..|events| - 1], monthOf) + [monthOf(events[|events| - 1].timestamp)]
  }

  /** `getActivityByMonth`: each month that occurs maps to its number of events. */
  method ActivityByMonth(events: seq<ActivityEvent>, monthOf: Timestamp -> string) returns (counts: map<string, nat>)
    ensures forall m :: m in counts <==> m in MonthsOf(events, monthOf)
    ensures forall m :: m in counts ==> counts[m] == multiset(MonthsOf(events, monthOf))[m]
  {
    counts := map[];
    for i := 0 to |events|
      invariant ExactTally(counts, MonthsOf(events[..i], monthOf))
    {
      assert events[..i + 1][..i] == events[..i];
      var month := monthOf(events[i].timestamp);
      ExactTallyBump(counts, MonthsOf(events[..i], monthOf), month);
      counts := Bump(counts, month);
    }
    assert events[..|events|] == events;
  }

  function InMonth(monthOf: Timestamp -> string, m: string): ActivityEvent -> bool {
    (e: ActivityEvent) => monthOf(e.timestamp) == m
  }

  /** The count of a month is the number of events whose timestamp falls in it. */
  lemma {:induction false} MonthCountIsEventCount(events: seq<ActivityEvent>, monthOf: Timestamp -> string, m: string)
    ensures multiset(MonthsOf(events, monthOf))[m] == |Filter(events, InMonth(monthOf, m))|
  {
    if events != [] {
      var p, e := events[..|events| - 1], events[|events| - 1];
      assert events == p + [e];
      MonthCountIsEventCount(p, monthOf, m);
      FilterConcat(p, [e], InMonth(monthOf, m));
    }
  }

  /** The monthly counts add up to the number of events. */
  lemma ActivityByMonthSums(events: seq<ActivityEvent>, monthOf: Timestamp -> string)
    ensures SumCounts(Distinct(MonthsOf(events, monthOf)), MonthsOf(events, monthOf)) == |events|
  {
    DistinctCountsSum(MonthsOf(events, monthOf));
  }

  /** Two events in one month and one in another (`"2025-01"` and `"2025-02"` in
      src/analytics/index.test.ts) give 2 and 1. */
  lemma ActivityByMonthFixture(a: ActivityEvent, b: ActivityEvent, c: ActivityEvent, monthOf: Timestamp -> string,
                               first: string, second: string)
    requires first != second
    requires monthOf(a.timestamp) == first && monthOf(b.timestamp) == first
    requires monthOf(c.timestamp) == second
    ensures multiset(MonthsOf([a, b, c], monthOf))[first] == 2
    ensures multiset(MonthsOf([a, b, c], monthOf))[second] == 1
  {
    var months := MonthsOf([a, b, c], monthOf);
    assert months == [first, first, second];
    TwoAndOne(months, first, second);
  }

  lemma TwoAndOne<T>(s: seq<T>, x: T, y: T)
    requires x != y && s == [x, x, y]
    ensures multiset(s)[x] == 2 && multiset(s)[y] == 1
  {
    assert multiset(s) == multiset{x, x, y};
  }

  // ---------------------------------------------------------------------------
  // getCompletionRate
  // ---------------------------------------------------------------------------

  /** `getCompletionRate`: the percentage of completed items, rounded to the
      nearest integer, and 0 for an empty list. */
  function CompletionRate(items: seq<MediaItem>): (r: int)
    ensures items == [] ==> r == 0
    ensures 0 <= r <= 100
    ensures items != [] ==>
      r as real - 0.5 <= |Filter(items, IsCompleted)| as real / |items| as real * 100.0 < r as real + 0.5
  {
    if |items| == 0 then 0
    else
      var done := |Filter(items, IsCompleted)| as real;
      var n := |items| as real;
      QuotientBounds(done, n, 0.0, 1.0);
      RoundPercent(done / n * 100.0);
      Round(done / n * 100.0)
  }

  lemma DivSelf(x: real)
    requires x > 0.0
    ensures x / x == 1.0
  {
  }

  lemma RoundOf(x: real, m: int)
    requires x == m as real
    ensures Round(x) == m
  {
  }

  lemma RoundPercent(x: real)
    requires 0.0 <= x <= 100.0
    ensures 0 <= Round(x) <= 100
  {
  }

  /** All items completed gives 100 and none gives 0. */
  lemma CompletionRateExtremes(items: seq<MediaItem>)
    requires items != []
    ensures (forall i :: 0 <= i < |items| ==> IsCompleted(items[i])) ==> CompletionRate(items) == 100
    ensures (forall i :: 0 <= i < |items| ==> !IsCompleted(items[i])) ==> CompletionRate(items) == 0
  {
    if forall i :: 0 <= i < |items| ==> IsCompleted(items[i]) {
      FilterKeepsAll(items, IsCompleted);
      CompletionRateOf(items, |items|);
    }
    if forall i :: 0 <= i < |items| ==> !IsCompleted(items[i]) {
      FilterNone(items, IsCompleted);
      CompletionRateOf(items, 0);
    }
  }

  /** With `k` of the items completed, the rate is `Math.round(k / n * 100)`. */
  lemma CompletionRateOf(items: seq<MediaItem>, k: nat)
    requires items != [] && |Filter(items, IsCompleted)| == k
    ensures CompletionRate(items) == Round(k as real / |items| as real * 100.0)
    ensures k == |items| ==> CompletionRate(items) == 100
    ensures k == 0 ==> CompletionRate(items) == 0
  {
    var n := |items| as real;
    assert CompletionRate(items) == Round(k as real / n * 100.0);
    if k == |items| {
      DivSelf(n);
      RoundOf(k as real / n * 100.0, 100);
    }
    if k == 0 {
      RoundOf(k as real / n * 100.0, 0);
    }
  }

  /** Three completed items out of ten give 30. */
  lemma CompletionRateFixture(items: seq<MediaItem>)
    requires |items| == 10
    requires forall i :: 0 <= i < 3 ==> items[i].status == Completed
    requires forall i :: 3 <= i < 10 ==> items[i].status == InProgress
    ensures CompletionRate(items) == 30
  {
    assert items == items[..3] + items[3..];
    FilterConcat(items[..3], items[3..], IsCompleted);
    FilterKeepsAll(items[..3], IsCompleted);
    FilterNone(items[3..], IsCompleted);
    assert (3.0 / 10.0 * 100.0 + 0.5).Floor == 30;
  }

  // ---------------------------------------------------------------------------
  // getStatsByType
  // ---------------------------------------------------------------------------

  datatype TypeStats = TypeStats(count: nat, completed: nat, rated: nat)

  /** The stats of one type in the fold's terms. */
  function StatsOf(items: seq<MediaItem>, t: MediaType): TypeStats {
    var ofType := Filter(items, OfType(t));
    TypeStats(|ofType|, |Filter(ofType, IsCompleted)|, |Filter(ofType, IsRated)|)
  }

  /** `getStatsByType`: for each type, how many items it has, how many of them are
      completed and how many are rated. */
  method StatsByType(items: seq<MediaItem>) returns (stats: PerType<TypeStats>)
    ensures forall t :: stats.Get(t) == StatsOf(items, t)
  {
    stats := PerType(TypeStats(0, 0, 0), TypeStats(0, 0, 0), TypeStats(0, 0, 0));
    StatsByTypeStart(stats, items);
    for i := 0 to |items|
      invariant forall t :: stats.Get(t) == StatsOf(items[..i], t)
    {
      var item := items[i];
      var s := stats.Get(item.mediaType);
      var next := stats.Set(item.mediaType, TypeStats(
        s.count + 1,
        s.completed + (if IsCompleted(item) then 1 else 0),
        s.rated + (if IsRated(item) then 1 else 0)));
      StatsByTypeStep(stats, next, items, i);
      stats := next;
    }
    assert items[..|items|] == items;
  }

  lemma StatsByTypeStart(stats: PerType<TypeStats>, items: seq<MediaItem>)
    requires stats == PerType(TypeStats(0, 0, 0), TypeStats(0, 0, 0), TypeStats(0, 0, 0))
    ensures forall t :: stats.Get(t) == StatsOf(items[..0], t)
  {
    assert items[..0] == [];
  }

  lemma StatsByTypeStep(stats: PerType<TypeStats>, next: PerType<TypeStats>, items: seq<MediaItem>, i: nat)
    requires i < |items|
    requires forall t :: stats.Get(t) == StatsOf(items[..i], t)
    requires var item := items[i]; var s := stats.Get(item.mediaType);
      next == stats.Set(item.mediaType, TypeStats(
        s.count + 1,
        s.completed + (if IsCompleted(item) then 1 else 0),
        s.rated + (if IsRated(item) then 1 else 0)))
    ensures forall t :: next.Get(t) == StatsOf(items[..i + 1], t)
  {
    assert items[..i + 1] == items[..i] + [items[i]];
    forall t ensures next.Get(t) == StatsOf(items[..i] + [items[i]], t) {
      StatsStep(items[..i], items[i], t);
    }
  }

  /** One more item counts for its own type only. */
  lemma StatsStep(items: seq<MediaItem>, item: MediaItem, t: MediaType)
    ensures StatsOf(items + [item], t) ==
      if t == item.mediaType then
        TypeStats(StatsOf(items, t).count + 1,
                  StatsOf(items, t).completed + (if IsCompleted(item) then 1 else 0),
                  StatsOf(items, t).rated + (if IsRated(item) then 1 else 0))
      else StatsOf(items, t)
  {
    FilterConcat(items, [item], OfType(t));
    FilterConcat(Filter(items, OfType(t)), Filter([item], OfType(t)), IsCompleted);
    FilterConcat(Filter(items, OfType(t)), Filter([item], OfType(t)), IsRated);
  }

  /** Per type, completed and rated items are among its items, and the per-type
      counts add up to the number of items. */
  lemma StatsByTypeProperties(items: seq<MediaItem>)
    ensures forall t :: StatsOf(items, t).completed <= StatsOf(items, t).count
    ensures forall t :: StatsOf(items, t).rated <= StatsOf(items, t).count
    ensures StatsOf(items, Movie).count + StatsOf(items, Book).count + StatsOf(items, Music).count == |items|
  {
    TypeCountsSum(items);
  }

  // ---------------------------------------------------------------------------
  // getMostRecentActivity
  // ---------------------------------------------------------------------------

  /** The comparator `(a, b) => time(b) - time(a)`: newer events first. */
  predicate NewerFirst(a: ActivityEvent, b: ActivityEvent) {
    a.timestamp >= b.timestamp
  }

  /** `getMostRecentActivity`: sorts the caller's array itself, newest first, and
      returns the first `limit` events. */
  method MostRecentActivity(log: array<ActivityEvent>, limit: int) returns (r: seq<ActivityEvent>)
    modifies log
    ensures log[..] == InsertionSort(old(log[..]), NewerFirst)
    ensures r == SliceTo(log[..], limit)
  {
    SortInPlace(log, NewerFirst);
    r := SliceTo(log[..], limit);
  }

  /** The most recent events: `min(limit, n)` of them for a non-negative limit,
      newest first, all taken from the log and none more often than it holds them. */
  lemma MostRecentActivityProperties(events: seq<ActivityEvent>, limit: int)
    ensures var r := SliceTo(InsertionSort(events, NewerFirst), limit);
      && (0 <= limit ==> |r| == if limit < |events| then limit else |events|)
      && (forall i, j :: 0 <= i < j < |r| ==> r[i].timestamp >= r[j].timestamp)
      && multiset(r) <= multiset(events)
  {
    var sorted := InsertionSort(events, NewerFirst);
    var r := SliceTo(sorted, limit);
    NewestFirstOrder(events);
    PrefixWithin(sorted, |r|);
  }

  /** Sorting with `NewerFirst` leaves the timestamps in non-increasing order. */
  lemma NewestFirstOrder(events: seq<ActivityEvent>)
    ensures var sorted := InsertionSort(events, NewerFirst);
      forall i, j :: 0 <= i < j < |sorted| ==> sorted[i].timestamp >= sorted[j].timestamp
  {
    assert TotalPreorder(NewerFirst);
    InsertionSortSorted(events, NewerFirst);
  }
}
