/** The display helpers of `src/lib/utils.ts`: class-name joining, the year label,
    the image fallback, and the sorted list of genres a library view offers. */
module Utils {
  import opened Collections
  import opened Strings
  import opened Numbers
  import opened Sorting
  import opened Types

  // ---------------------------------------------------------------------------
  // cn
  // ---------------------------------------------------------------------------

  /** The class names `filter(Boolean)` keeps: `None` stands for `undefined`,
      `null` and `false`, and the empty string is dropped as well. */
  function Present(classes: seq<Option<string>>): (r: seq<string>)
    ensures forall s :: s in r <==> s != [] && Some(s) in classes
    ensures forall i :: 0 <= i < |r| ==> r[i] != []
    ensures |r| <= |classes|
  {
    if classes == [] then []
    else
      var rest := Present(classes[1..]);
      assert forall c :: c in classes <==> c == classes[0] || c in classes[1..];
      match classes[0]
      case Some(s) => if s != [] then [s] + rest else rest
      case None => rest
  }

  /** `cn(...classes)`: the present class names, in order, separated by one space. */
  function Cn(classes: seq<Option<string>>): (r: string)
    ensures r == [] <==> Present(classes) == []
  {
    var p := Present(classes);
    assert p != [] ==> p[0] != [];
    Join(p, " ")
  }

  /** One more argument to `cn`: a falsy one changes nothing, a class name is
      appended after a single space (or alone, when nothing came before). */
  lemma {:induction false} CnAppend(classes: seq<Option<string>>, c: Option<string>)
    ensures c.None? || c == Some("") ==> Cn(classes + [c]) == Cn(classes)
    ensures c.Some? && c.value != "" ==>
      Cn(classes + [c]) == if Present(classes) == [] then c.value else Cn(classes) + " " + c.value
  {
    PresentAppend(classes, c);
    assert Present(classes) + [] == Present(classes);
    if c.Some? && c.value != "" {
      JoinAppend(Present(classes), c.value, " ");
    }
  }

  lemma {:induction false} PresentAppend(classes: seq<Option<string>>, c: Option<string>)
    ensures Present(classes + [c]) == Present(classes) + (if c.Some? && c.value != "" then [c.value] else [])
  {
    if classes == [] {
      assert Present([c]) == Present([c][1..]) + [] || c.Some?;
    } else {
      assert (classes + [c])[1..] == classes[1..] + [c];
      PresentAppend(classes[1..], c);
    }
  }

  // ---------------------------------------------------------------------------
  // formatYear
  // ---------------------------------------------------------------------------

  /** A year as `formatYear` accepts it: text, or an integral number. */
  datatype YearValue = YearString(text: string) | YearInteger(number: int)

  function YearTextOf(year: YearValue): string {
    match year
    case YearString(s) => s
    case YearInteger(n) => IntToString(n)
  }

  /** `formatYear`: the text before the first `-`, or `Unknown` when that is empty. */
  function FormatYear(year: YearValue): (r: string)
    ensures var s := YearTextOf(year);
      (s == [] || s[0] == '-') ==> r == "Unknown"
    ensures var s := YearTextOf(year);
      s != [] && s[0] != '-' ==> r != [] && '-' !in r && |r| <= |s| && r == s[..|r|] && (|r| == |s| || s[|r|] == '-')
  {
    var y := BeforeFirst(YearTextOf(year), '-');
    if y == [] then "Unknown" else y
  }

  /** A date-like year keeps its first field; a non-negative number keeps its
      digits; a negative number has nothing before its sign. */
  lemma FormatYearExamples(first: string, rest: string, n: nat)
    requires first != [] && '-' !in first
    ensures FormatYear(YearString(first + "-" + rest)) == first
    ensures FormatYear(YearString(first)) == first
    ensures FormatYear(YearInteger(n)) == NatToString(n)
    ensures FormatYear(YearInteger(-(n as int) - 1)) == "Unknown"
  {
    BeforeFirstUpTo(first, rest);
    BeforeFirstUpTo(first, []);
    var s := NatToString(n);
    assert '-' !in s by {
      forall i | 0 <= i < |s| ensures s[i] != '-' { assert IsDigit(s[i]); }
    }
    assert FormatYear(YearInteger(n)) == BeforeFirst(s, '-') by {
      BeforeFirstAll(s);
    }
    BeforeFirstAll(s);
  }

  lemma {:induction false} BeforeFirstUpTo(first: string, rest: string)
    requires '-' !in first
    ensures BeforeFirst(first + "-" + rest, '-') == first
    ensures BeforeFirst(first, '-') == first
  {
    if first != [] {
      assert (first + "-" + rest)[1..] == first[1..] + "-" + rest;
      BeforeFirstUpTo(first[1..], rest);
    }
  }

  lemma BeforeFirstAll(s: string)
    requires '-' !in s
    ensures BeforeFirst(s, '-') == s
  {
    BeforeFirstUpTo(s, []);
  }

  // ---------------------------------------------------------------------------
  // getImageUrl
  // ---------------------------------------------------------------------------

  const Placeholder: string := "https://via.placeholder.com/300x450?text=No+Image"

  /** `getImageUrl`: the placeholder for a missing, empty or `N/A` address, the
      address itself otherwise. */
  function GetImageUrl(url: Option<string>): (r: string)
    ensures url.None? || url == Some("") || url == Some("N/A") ==> r == Placeholder
    ensures url.Some? && url.value != "" && url.value != "N/A" ==> r == url.value
    ensures r != "" && r != "N/A"
  {
    if url.None? || url.value == "" || url.value == "N/A" then Placeholder else url.value
  }

  /** Resolving a resolved address changes nothing. */
  lemma GetImageUrlIdempotent(url: Option<string>)
    ensures GetImageUrl(Some(GetImageUrl(url))) == GetImageUrl(url)
  {
  }

  // ---------------------------------------------------------------------------
  // getAvailableGenres
  // ---------------------------------------------------------------------------

  /** The trimmed genres of one item, skipping the empty and blank ones. */
  function TrimmedGenres(genres: seq<string>): seq<string> {
    if genres == [] then []
    else TrimmedGenres(genres[..|genres| - 1]) + TrimmedGenre(genres[|genres| - 1])
  }

  /** `[g.trim()]` when `g && g.trim()` holds, nothing otherwise. */
  function TrimmedGenre(g: string): (r: seq<string>)
    ensures r == [] <==> AllWhitespace(g)
    ensures forall s :: s in r ==> s == Trim(g) && s != []
  {
    if g != "" && Trim(g) != "" then [Trim(g)] else []
  }

  /** The trimmed genres of all items, in item order, repeats included. */
  function ItemGenres(items: seq<MediaItem>): seq<string> {
    if items == [] then []
    else ItemGenres(items[..|items| - 1]) + TrimmedGenres(items[|items| - 1].genreSnapshot)
  }

  /** A genre is collected from one item exactly when it is the trim of one of the
      item's non-blank genres. */
  lemma {:induction false} TrimmedGenresExact(genres: seq<string>)
    ensures forall s :: s in TrimmedGenres(genres) <==> exists g :: g in genres && !AllWhitespace(g) && s == Trim(g)
  {
    if genres != [] {
      var init, g := genres[..|genres| - 1], genres[|genres| - 1];
      assert genres == init + [g];
      TrimmedGenresExact(init);
    }
  }

  /** A genre is collected from the items exactly when one item yields it. */
  lemma ItemGenresExact(items: seq<MediaItem>, s: string)
    ensures s in ItemGenres(items) <==> exists i :: 0 <= i < |items| && s in TrimmedGenres(items[i].genreSnapshot)
  {
    if s in ItemGenres(items) {
      ItemGenresFrom(items, s);
    }
    forall i | 0 <= i < |items| && s in TrimmedGenres(items[i].genreSnapshot) ensures s in ItemGenres(items) {
      ItemGenresOf(items, i, s);
    }
  }

  lemma {:induction false} ItemGenresFrom(items: seq<MediaItem>, s: string)
    requires s in ItemGenres(items)
    ensures exists i :: 0 <= i < |items| && s in TrimmedGenres(items[i].genreSnapshot)
  {
    var init := items[..|items| - 1];
    if s in ItemGenres(init) {
      ItemGenresFrom(init, s);
      var i :| 0 <= i < |init| && s in TrimmedGenres(init[i].genreSnapshot);
      assert items[i] == init[i];
    } else {
      assert s in TrimmedGenres(items[|items| - 1].genreSnapshot);
    }
  }

  lemma {:induction false} ItemGenresOf(items: seq<MediaItem>, i: nat, s: string)
    requires i < |items| && s in TrimmedGenres(items[i].genreSnapshot)
    ensures s in ItemGenres(items)
  {
    var init := items[..|items| - 1];
    if i < |init| {
      assert items[i] == init[i];
      ItemGenresOf(init, i, s);
    }
  }

  /** One step of the inner loop of `getAvailableGenres`. */
  lemma AddGenreStep(seen: seq<string>, genres: seq<string>, j: nat)
    requires j < |genres|
    ensures seen + TrimmedGenres(genres[..j + 1]) == (seen + TrimmedGenres(genres[..j])) + TrimmedGenre(genres[j])
  {
    var p := genres[..j + 1];
    assert p[..|p| - 1] == genres[..j] && p[|p| - 1] == genres[j];
    var a, b := TrimmedGenres(genres[..j]), TrimmedGenre(genres[j]);
    assert TrimmedGenres(p) == a + b;
    assert seen + (a + b) == (seen + a) + b;
  }

  /** What `getAvailableGenres` returns: each trimmed, non-blank genre of the items
      once, in the default (code-point) order of `sort`. */
  function AvailableGenres(items: seq<MediaItem>): seq<string> {
    InsertionSort(Distinct(ItemGenres(items)), LexLe)
  }

  /** `getAvailableGenres`: collects the genres into an insertion-ordered set, then
      sorts them. */
  method GetAvailableGenres(items: seq<MediaItem>) returns (r: seq<string>)
    ensures r == AvailableGenres(items)
  {
    var genreSet: seq<string> := [];
    for i := 0 to |items|
      invariant genreSet == Distinct(ItemGenres(items[..i]))
    {
      assert items[..i + 1][..i] == items[..i];
      genreSet := AddGenres(genreSet, ItemGenres(items[..i]), items[i].genreSnapshot);
    }
    assert items[..|items|] == items;
    r := SortedCopy(genreSet, LexLe);
  }

  /** The inner loop: adds one item's genres to the set of those `seen` so far. */
  method AddGenres(set0: seq<string>, ghost seen: seq<string>, genres: seq<string>) returns (genreSet: seq<string>)
    requires set0 == Distinct(seen)
    ensures genreSet == Distinct(seen + TrimmedGenres(genres))
  {
    genreSet := set0;
    assert seen + TrimmedGenres(genres[..0]) == seen;
    for j := 0 to |genres|
      invariant genreSet == Distinct(seen + TrimmedGenres(genres[..j]))
    {
      AddGenreStep(seen, genres, j);
      genreSet := AddGenre(genreSet, seen + TrimmedGenres(genres[..j]), genres[j]);
    }
    assert genres[..|genres|] == genres;
  }

  /** The body of the inner loop: `if (g && g.trim()) genreSet.add(g.trim())`. */
  method AddGenre(gs: seq<string>, ghost before: seq<string>, g: string) returns (r: seq<string>)
    requires gs == Distinct(before)
    ensures r == Distinct(before + TrimmedGenre(g))
  {
    GenreStep(before, g, gs);
    r := gs;
    if g != "" && Trim(g) != "" {
      var t := Trim(g);
      if t !in gs {
        r := gs + [t];
      }
    }
  }

  /** One genre added to the first-occurrence set: a new trimmed genre goes at the
      end, a known or blank one changes nothing. */
  lemma GenreStep(before: seq<string>, g: string, gs: seq<string>)
    requires gs == Distinct(before)
    ensures g != "" && Trim(g) != "" ==>
      Distinct(before + TrimmedGenre(g)) == if Trim(g) in gs then gs else gs + [Trim(g)]
    ensures !(g != "" && Trim(g) != "") ==> Distinct(before + TrimmedGenre(g)) == gs
  {
    if g != "" && Trim(g) != "" {
      DistinctAppend(before, Trim(g));
    } else {
      assert before + TrimmedGenre(g) == before;
    }
  }

  /** The genres come out strictly ascending: sorted, with no repeats. */
  lemma AvailableGenresAscending(items: seq<MediaItem>)
    ensures var r := AvailableGenres(items);
      forall i, j :: 0 <= i < j < |r| ==> LexLe(r[i], r[j]) && r[i] != r[j]
  {
    var d := Distinct(ItemGenres(items));
    var r := AvailableGenres(items);
    LexLeIsTotalPreorder();
    InsertionSortSorted(d, LexLe);
    NoDuplicatesMultiset(d);
    NoDuplicatesMultiset(r);
  }

  /** Every genre offered is trimmed and non-empty. */
  lemma AvailableGenresTrimmed(items: seq<MediaItem>)
    ensures forall s :: s in AvailableGenres(items) ==> s != [] && !IsJsWhitespace(s[0]) && !IsJsWhitespace(s[|s| - 1])
  {
    forall s | s in AvailableGenres(items)
      ensures s != [] && !IsJsWhitespace(s[0]) && !IsJsWhitespace(s[|s| - 1])
    {
      AvailableGenresMember(items, s);
    }
  }

  /** Every genre offered comes from some item; every non-blank genre of every item
      is offered, trimmed. */
  lemma AvailableGenresExact(items: seq<MediaItem>)
    ensures forall s :: s in AvailableGenres(items) <==>
      exists i, g :: 0 <= i < |items| && g in items[i].genreSnapshot && !AllWhitespace(g) && s == Trim(g)
  {
    forall s ensures s in AvailableGenres(items) <==>
      exists i, g :: 0 <= i < |items| && g in items[i].genreSnapshot && !AllWhitespace(g) && s == Trim(g)
    {
      AvailableGenresMember(items, s);
    }
  }

  lemma AvailableGenresMember(items: seq<MediaItem>, s: string)
    ensures s in AvailableGenres(items) <==>
      exists i, g :: 0 <= i < |items| && g in items[i].genreSnapshot && !AllWhitespace(g) && s == Trim(g)
  {
    var d := Distinct(ItemGenres(items));
    var r := AvailableGenres(items);
    assert s in r <==> s in multiset(r);
    assert s in d <==> s in multiset(d);
    ItemGenresExact(items, s);
    forall i | 0 <= i < |items| {
      TrimmedGenresExact(items[i].genreSnapshot);
    }
  }

  lemma LexLeIsTotalPreorder()
    ensures TotalPreorder(LexLe)
  {
    forall x, y ensures LexLe(x, y) || LexLe(y, x) { LexLeTotal(x, y); }
    forall x, y, z | LexLe(x, y) && LexLe(y, z) ensures LexLe(x, z) { LexLeTransitive(x, y, z); }
  }
}
