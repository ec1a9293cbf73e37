# iLikes library core, modelled in Dafny

iLikes is a personal media library for movies, books and music. This project
models the part of it that holds and reasons about the library:

- **The store** (`Storage.Store`). It holds the saved items and the activity log.
  It also has the normalisers that clean what is saved: rating clamping and
  rounding, year sanitising, and title, image and genre cleaning.
- **The library hook** (`UseLibrary.LibraryView`). It keeps a snapshot of the
  store for the screens and updates that snapshot after every change.
- **The analytics** (`Analytics`): the ratings histogram, average rating per
  media type, top tags, activity per month, completion rate, per-type
  statistics and the most recent events.
- **The movie library page** (`LibraryMovies`): its filter and sort pipeline,
  the active filter chips and "clear all".
- **The shared utilities** (`Utils`): class-name joining, year formatting,
  image fallback, and the sorted list of available genres.
- **The HTML-to-text cleaner** (`HtmlText`).
- **The iTunes provider's response handling** (`MusicItunes`): the runtime
  text, artwork upgrade, track mapping, detail selection and featured-album
  de-duplication.

Code that changes state in place is modelled the same way:

- The store is a class whose methods update its fields.
- The hook is a class holding the snapshot it replaces.
- Each loop that fills a map, set or list is a method with a loop. Each such
  method is proved equal to a function, and the properties are proved about
  that function.
- The sort that JavaScript performs in place is an array method. It is proved
  to produce the stable insertion sort of its input.

Helper modules:

- `Collections`: `filter`, `find`, first-occurrence dedupe, tallies, `slice`.
- `Strings`: JavaScript `trim`, lower-casing of ASCII letters only, `includes`,
  `join`, `replace` of the first match, code-point order.
- `Numbers`: decimal text, `parseInt`, `padStart`, `Math.round`.
- `Sorting`: stable sort as a function and as an in-place method.
- `Types`: the records of `src/lib/types.ts`.

Things the program gets from its environment are parameters:

- the clock is an integer `now`
- fresh ids are given by the caller
- the month of a timestamp is a function argument
- each HTTP response is given as an optional list of entries

Ratings, years and averages are real numbers.

## Model

| member | source | states |
|---|---|---|
| Storage.Clamp | src/lib/storage.ts:33 | the value is clamped into [0, 5] and kept when already inside |
| Storage.NormalizeRating | src/lib/storage.ts:31-35 | no rating stays no rating; otherwise a half step in [0, 5] within a quarter of the clamped value |
| Storage.NormalizeRatingIdempotent | src/lib/storage.ts:31-35 | normalising twice is normalising once |
| Storage.NormalizeRatingKeepsHalfSteps | src/lib/storage.ts:31-35 | a half step inside the range is left unchanged |
| Storage.NormalizeRatingExamples | src/lib/storage.ts:31-35 | 4.3 becomes 4.5, 5.9 becomes 5, -1 becomes 0, 3.75 becomes 4 |
| Storage.SanitizeYear | src/lib/storage.ts:25-29 | a finite number is kept; text is parsed to a whole number, or 0 when parsing fails |
| Storage.SanitizeYearReadsLeadingYear | src/lib/storage.ts:27-28 | the decimal text of a year followed by a non-digit ("2010-05-01") sanitises to that year |
| Numbers.ParseIntNoNumber | src/lib/storage.ts:27 | text that is empty or starts with anything but whitespace, a sign or a digit parses to no number |
| Storage.SanitizeYearUnknown | src/lib/storage.ts:27-28 | such text, "Unknown" or "" for instance, sanitises to 0 |
| Storage.CleanGenres | src/lib/storage.ts:37-39 | exactly the non-empty genres are kept, each as often as it occurs and in input order; a missing list gives [] |
| Storage.CleanText | src/lib/storage.ts:41-43 | the trimmed title, or "Untitled" for a missing or blank one; never blank |
| Storage.CleanImage | src/lib/storage.ts:45-47 | the URL, or "" when missing |
| Storage.NewItem | src/lib/storage.ts:86-104 | a new item has the given key and id, is wishlisted, unrated, untagged and unreviewed, and has cleaned snapshots and both timestamps equal to now |
| Storage.Added | src/lib/storage.ts:79-105 | the item list after an add: the old list, with one more item unless the key was present; afterwards the key is present |
| Storage.AddedOutcome | src/lib/storage.ts:79-105 | with the key present the list is unchanged and the found item has the key; otherwise the entry is appended |
| Storage.AddedIdempotent | src/lib/storage.ts:80-83 | adding a second item with the same type and external id changes nothing |
| Storage.AddedKeepsUnique | src/lib/storage.ts:80-105 | an add keeps keys unique, and keeps ids unique when the new id is fresh |
| Storage.ApplyPatch | src/lib/storage.ts:116-120 | the spread update sets `updatedAt` to now and keeps the id and key unless the patch sets them |
| Storage.ApplyNoChanges | src/lib/storage.ts:116-120 | an empty patch only refreshes `updatedAt` |
| Storage.ApplyPatchTwice | src/lib/storage.ts:116-120 | applying the same patch twice equals applying it once at the later time |
| Storage.Updated | src/lib/storage.ts:111-124 | the list after an update has the same length, and every position except the first one with the id is unchanged |
| Storage.UpdatedKeepsUnique | src/lib/storage.ts:111-124 | a patch that leaves id and key alone keeps ids and keys unique |
| Storage.DeletedKeepsUnique | src/lib/storage.ts:161-167 | deleting keeps uniqueness and leaves no item with the id |
| Storage.DeleteFindsId | src/lib/storage.ts:163-164 | the list gets shorter exactly when the id was present |
| Storage.ConsumedAtFor | src/lib/storage.ts:145 | an existing completion time is kept; otherwise it is set to now exactly when the new status is completed |
| Storage.ConsumedAtIsFirstCompletion | src/lib/storage.ts:143-151 | over a run of status changes, the completion time is the time of the first change to completed |
| Storage.ConsumedAtKept | src/lib/storage.ts:143-151 | once set, the completion time never changes again |
| Storage.Store.GetAllItems | src/lib/storage.ts:50-58 | the stored items, or [] when they cannot be read |
| Storage.Store.GetActivity | src/lib/storage.ts:169-177 | the stored events, or [] when they cannot be read |
| Storage.Store.GetItemById | src/lib/storage.ts:60-63 | nothing when no item has the id; otherwise the first item with it |
| Storage.Store.GetItemsByType | src/lib/storage.ts:65-68 | exactly the items of the type, each as often as it is stored and in stored order |
| Storage.Store.AddActivity | src/lib/storage.ts:179-189 | the log becomes the readable log plus one event with the clock reading; items are untouched |
| Storage.Store.AddItem | src/lib/storage.ts:70-109 | an existing item with the key is returned and nothing changes; otherwise the new item is appended and an ADD event is logged; uniqueness is kept |
| Storage.Store.UpdateItem | src/lib/storage.ts:111-124 | a missing id gives none and changes nothing; otherwise the patched item is returned and replaces the original in place |
| Storage.Store.UpdateRating | src/lib/storage.ts:126-133 | the normalised rating is stored and, only when the item exists, the log becomes the readable log plus one RATE event |
| Storage.Store.UpdateReview | src/lib/storage.ts:135-141 | review and spoiler flag are stored and, only when the item exists, the log becomes the readable log plus one REVIEW event |
| Storage.Store.UpdateStatus | src/lib/storage.ts:143-151 | the status and completion time are stored and, only when the item exists, the log becomes the readable log plus one STATUS_CHANGE event |
| Storage.Store.UpdateTags | src/lib/storage.ts:153-159 | the tags are stored and, only when the item exists, the log becomes the readable log plus one TAG event |
| Storage.Store.DeleteItem | src/lib/storage.ts:161-167 | true exactly when the id was present, in which case the item is gone; nothing is logged |
| Storage.Store.ClearAll | src/lib/storage.ts:191-194 | both lists read as empty afterwards |
| UseLibrary.ReplaceById | src/hooks/useLibrary.ts:31 | items with the updated id are replaced and all others are kept, position by position |
| UseLibrary.ReplaceByIdIsUpdated | src/hooks/useLibrary.ts:29-34 | with unique ids, replacing the snapshot entry by the store's result gives the store's new list |
| UseLibrary.ReplaceByIdAbsent | src/hooks/useLibrary.ts:31 | replacing an id that is not there changes nothing |
| UseLibrary.FromSearch | src/hooks/useLibrary.ts:38-46 | the item made from a search result has the result's key and provider, is wishlisted and carries the new id |
| UseLibrary.AppendedSnapshotDuplicates | src/hooks/useLibrary.ts:47 | adding an item that is already saved leaves the store unchanged, but the appended snapshot holds that item twice |
| UseLibrary.LibraryView.Refresh | src/hooks/useLibrary.ts:14-17 | the snapshot equals the store |
| UseLibrary.LibraryView.SyncItem | src/hooks/useLibrary.ts:29-34 | none changes nothing; an item replaces its id in the snapshot and the activity is reloaded |
| UseLibrary.LibraryView.StoreHit | src/hooks/useLibrary.ts:38-46 | the store call: an already stored work comes back and nothing changes; a new one is appended and returned; unique keys stay unique |
| UseLibrary.LibraryView.AppendItem | src/hooks/useLibrary.ts:47-48 | the snapshot gets the item appended and the activity is reloaded |
| UseLibrary.LibraryView.AddFromSearch | src/hooks/useLibrary.ts:36-52 | as written: the store adds as `addItem` does, and the snapshot gets the returned item appended; it stays in step with the store only when the key was new |
| UseLibrary.LibraryView.AddFromSearchSynced | src/hooks/useLibrary.ts:36-52 | corrected: the snapshot is reloaded from the store, so it equals the store's list after the add and keeps keys unique |
| UseLibrary.LibraryView.RateItem | src/hooks/useLibrary.ts:54 | the store rates the item and the snapshot replaces it; a snapshot in step with the store stays in step |
| UseLibrary.LibraryView.ReviewItem | src/hooks/useLibrary.ts:56-59 | the same for a review and spoiler flag |
| UseLibrary.LibraryView.SetStatus | src/hooks/useLibrary.ts:61 | the same for a status change |
| UseLibrary.LibraryView.SetTags | src/hooks/useLibrary.ts:63 | the same for tags |
| UseLibrary.LibraryView.RemoveItem | src/hooks/useLibrary.ts:65-72 | on success both store and snapshot drop the id; on failure nothing changes; being in step is kept |
| UseLibrary.LibraryView.ItemsByType | src/hooks/useLibrary.ts:74-78 | each group holds exactly the snapshot's items of its type, each as often as in the snapshot and in snapshot order; together the groups have its length |
| Analytics.RatingsOf | src/analytics/index.ts:11-15 | one rating per rated item |
| Analytics.RatingsOfConcat | src/analytics/index.ts:11-15 | the ratings of two lists joined are the joined ratings |
| Analytics.EmptyDistribution | src/analytics/index.ts:7-9 | keys 0, 0.5, …, 5, all zero |
| Analytics.RatingsDistribution | src/analytics/index.ts:4-18 | keys are the eleven half steps plus any rating present; each count is how often that rating occurs |
| Analytics.RatingsDistributionSums | src/analytics/index.ts:4-18 | in the returned map the values at the ratings present add up to the number of rated items, and every other key maps to 0 |
| Analytics.RatingsDistributionFixture | src/analytics/index.ts:4-18 | for two 5s and one 3.5 the returned map holds 2 at 5, 1 at 3.5 and 0 at 0 |
| Analytics.MapSumCounts | src/analytics/index.ts:11-15 | summing the map over its keys is summing the occurrence counts |
| Analytics.AverageRatingByType | src/analytics/index.ts:20-40 | each type's value is the mean of its ratings, 0 when it has none |
| Analytics.AverageInRange | src/analytics/index.ts:36 | an average of ratings in [0, 5] is in [0, 5] |
| Analytics.AverageRatingFixture | src/analytics/index.ts:20-40 | movies rated 5 and 3 average 4; books with no ratings give 0 |
| Analytics.TagEntries | src/analytics/index.ts:45-52 | one entry per distinct tag in first-seen order, with its number of occurrences |
| Analytics.TopTags | src/analytics/index.ts:42-55 | the stable sort of the tag entries by descending count, cut to the limit |
| Analytics.TopTagsProperties | src/analytics/index.ts:42-55 | exactly min(limit, number of distinct tags) entries for a non-negative limit; counts non-increasing, each count exact, no tag twice; no tag left out is more frequent than one kept |
| Analytics.TopTagsDropped | src/analytics/index.ts:53-54 | an entry outside a prefix of the sorted entries is no more frequent than any entry inside it |
| Analytics.TopTagsFixture | src/analytics/index.ts:42-55 | with the default limit 10, items tagged [a, b] and [a, c] give three entries, the first a with count 2 |
| Analytics.TopTagsTiesKeepOrder | src/analytics/index.ts:53 | tags with equal counts keep their first-seen order |
| Analytics.ActivityByMonth | src/analytics/index.ts:57-68 | keys are the months of the events; each count is the number of events in that month |
| Analytics.MonthCountIsEventCount | src/analytics/index.ts:62-65 | a month's count equals the number of events that fall in it |
| Analytics.ActivityByMonthSums | src/analytics/index.ts:57-68 | the counts add up to the number of events |
| Analytics.ActivityByMonthFixture | src/analytics/index.ts:57-68 | two January events and one February event count 2 and 1 |
| Analytics.CompletionRate | src/analytics/index.ts:70-74 | 0 for no items; otherwise the completed share in percent, rounded to nearest and between 0 and 100 |
| Analytics.CompletionRateExtremes | src/analytics/index.ts:70-74 | all completed gives 100, none completed gives 0 |
| Analytics.CompletionRateFixture | src/analytics/index.ts:70-74 | 3 completed out of 10 gives 30 |
| Analytics.StatsByType | src/analytics/index.ts:76-94 | per type: the number of items, completed items and rated items |
| Analytics.StatsByTypeProperties | src/analytics/index.ts:76-94 | completed and rated never exceed count; the counts add up to the number of items |
| Analytics.MostRecentActivity | src/analytics/index.ts:96-98 | the caller's array is sorted newest first, stably and in place, and the first `limit` events are returned |
| Analytics.NewestFirstOrder | src/analytics/index.ts:97 | the comparator leaves timestamps in non-increasing order |
| Analytics.MostRecentActivityProperties | src/analytics/index.ts:96-98 | the result has min(limit, length) events, newest first, all taken from the log |
| LibraryMovies.Compare | src/pages/LibraryMovies.tsx:86-103 | per mode, `a` may precede `b` exactly when: its title is not after b's; its rating (-1 when unrated) is at least b's; its year is at least b's; its status rank is at most b's; it was created no earlier |
| LibraryMovies.OrderIsTotalPreorder | src/pages/LibraryMovies.tsx:86-103 | every sort mode's comparator is a total preorder |
| LibraryMovies.StagesCombine | src/pages/LibraryMovies.tsx:59-84 | the four successive filters keep exactly the items that pass all four tests |
| LibraryMovies.SearchStep | src/pages/LibraryMovies.tsx:60-67 | a blank query keeps everything; otherwise items whose lower-cased title contains the lower-cased query |
| LibraryMovies.StatusStep | src/pages/LibraryMovies.tsx:70-72 | items of the chosen status, or all |
| LibraryMovies.RatingStep | src/pages/LibraryMovies.tsx:75-79 | rated items, or rated items at or above the minimum, or all |
| LibraryMovies.GenreStep | src/pages/LibraryMovies.tsx:82-84 | items carrying the genre, but only when a genre is chosen and the list has genre data |
| LibraryMovies.FilterStages | src/pages/LibraryMovies.tsx:59-84 | the four successive filters keep exactly the items that match the filter state |
| LibraryMovies.FilteredItems | src/pages/LibraryMovies.tsx:56-106 | the page's list is the stable sort of the matching items |
| LibraryMovies.Shown | src/pages/LibraryMovies.tsx:56-106 | the shown list is a permutation of the matching items |
| LibraryMovies.ShownExact | src/pages/LibraryMovies.tsx:56-106 | an item is shown iff it is in the library and passes every filter; the list is a permutation of the matches, drawn from the library and sorted |
| LibraryMovies.ShownStable | src/pages/LibraryMovies.tsx:86-103 | items the comparator ties keep their library order |
| LibraryMovies.ShownOrder | src/pages/LibraryMovies.tsx:86-103 | for each sort mode the meaning of the order: rating, year and date descending, status ascending, title ascending; with ratings ≥ 0, all rated items come before all unrated ones |
| LibraryMovies.Fixed1 | src/pages/LibraryMovies.tsx:46 | the digits of the whole part, a point and one digit, reading back as the given tenths |
| LibraryMovies.ToFixed1 | src/pages/LibraryMovies.tsx:46 | at least three characters, with a minus sign exactly for negative numbers |
| LibraryMovies.ToFixed1Nearest | src/pages/LibraryMovies.tsx:46 | the text reads back within 0.05 of the number |
| LibraryMovies.ToFixed1Examples | src/pages/LibraryMovies.tsx:46 | 3 gives "3.0", 4.25 gives "4.3", 12.5 gives "12.5" |
| LibraryMovies.RatingChips | src/pages/LibraryMovies.tsx:42-48 | a rating chip appears exactly when the mode is not "any", with "Rated Only" or the minimum text |
| LibraryMovies.SearchChips | src/pages/LibraryMovies.tsx:35-37 | a search chip appears exactly for a non-blank query |
| LibraryMovies.StatusChips | src/pages/LibraryMovies.tsx:38-41 | a status chip appears exactly when a status is chosen |
| LibraryMovies.GenreChips | src/pages/LibraryMovies.tsx:49-51 | a genre chip appears exactly when a genre is chosen |
| LibraryMovies.ActiveFilterChips | src/pages/LibraryMovies.tsx:33-53 | at most four chips, and none exactly when query, status, rating mode and genre are all at their defaults |
| LibraryMovies.ChipsExact | src/pages/LibraryMovies.tsx:33-53 | each kind of chip is present iff its filter is away from the default; chips come in the order search, status, rating, genre; no category or key repeats; the chips read `Search: "<query>"` with the untrimmed query, `Status: ` and the status label, the rating text, and `Genre: ` and the genre |
| LibraryMovies.NoChipsShowsAll | src/pages/LibraryMovies.tsx:33-106 | with no chips no item is filtered out, and the page shows the whole library sorted |
| LibraryMovies.NarrowingShowsChip | src/pages/LibraryMovies.tsx:33-106 | whenever the filters hide an item, some chip is shown |
| LibraryMovies.MoviesPage.ClearAll | src/pages/LibraryMovies.tsx:108-115 | every filter returns to its default: empty query, all statuses, any rating, minimum 3.0, all genres, recently added |
| LibraryMovies.DefaultsShowNoChip | src/pages/LibraryMovies.tsx:21-53 | the default filter state raises no chip |
| LibraryMovies.ClearedShowsEverything | src/pages/LibraryMovies.tsx:21-26 | in the default state no chip is shown and the whole library is listed newest first |
| Utils.Present | src/lib/utils.ts:2 | exactly the given non-empty class names, in order |
| Utils.Cn | src/lib/utils.ts:1-3 | the joined text is empty exactly when no class name is present |
| Utils.CnAppend | src/lib/utils.ts:1-3 | an absent or empty class adds nothing; a non-empty one is appended after a single space |
| Utils.PresentAppend | src/lib/utils.ts:2 | the filter is taken one class at a time |
| Utils.FormatYear | src/lib/utils.ts:5-8 | the text before the first '-', or "Unknown" when that is empty |
| Utils.FormatYearExamples | src/lib/utils.ts:5-8 | "1999-05-01" style dates give their year, any non-negative integer its decimal text, a negative one "Unknown" |
| Utils.GetImageUrl | src/lib/utils.ts:10-15 | a missing, empty or "N/A" URL becomes the placeholder; the result is never empty or "N/A" |
| Utils.GetImageUrlIdempotent | src/lib/utils.ts:10-15 | applying the fallback twice is applying it once |
| Utils.TrimmedGenresExact | src/lib/utils.ts:35-39 | exactly the trimmed forms of the non-blank genres are collected |
| Utils.AddGenre | src/lib/utils.ts:35-39 | adding one genre to the set keeps it the distinct collected genres so far |
| Utils.ItemGenresExact | src/lib/utils.ts:33-41 | a genre is collected iff it comes from one of the items |
| Utils.GetAvailableGenres | src/lib/utils.ts:31-43 | the nested loops and the final sort yield the distinct collected genres in ascending order |
| Utils.AvailableGenresAscending | src/lib/utils.ts:42 | the genres are strictly ascending |
| Utils.AvailableGenresExact | src/lib/utils.ts:31-43 | a string is listed iff it is the trim of a non-blank genre of some item; none is blank or has edge whitespace |
| HtmlText.RemoveTags | src/lib/text.ts:4 | replacing each tag by one space never lengthens the text |
| HtmlText.RemoveTagsLeavesNoTag | src/lib/text.ts:4 | after the tag pass no '<' is followed anywhere by '>' |
| HtmlText.NoCloseKeepsText | src/lib/text.ts:4 | text without '>' passes unchanged, any '<' included |
| HtmlText.TagBecomesSpace | src/lib/text.ts:4 | a tag with no '>' inside becomes one space and the scan continues after it |
| HtmlText.ReplaceAllCINeverLonger | src/lib/text.ts:5-11 | replacing every case-insensitive match by a replacement no longer than the pattern never lengthens the text |
| HtmlText.DecodeEntities | src/lib/text.ts:5-11 | decoding the six entities never lengthens the text |
| HtmlText.DecodeWithoutAmp | src/lib/text.ts:5-11 | text with no '&' is not changed by decoding |
| HtmlText.CollapseWhitespace | src/lib/text.ts:13 | never longer; only single spaces remain as whitespace, never two in a row, and the result starts with whitespace iff the input does |
| HtmlText.CollapseKeepsText | src/lib/text.ts:13 | the non-whitespace characters are kept, all of them and in order |
| HtmlText.StripHtml | src/lib/text.ts:2 | missing or empty input gives "" |
| HtmlText.StripHtmlClean | src/lib/text.ts:13 | the output has no whitespace at either end, and inside it only single spaces |
| HtmlText.PlainTextUnchanged | src/lib/text.ts:1-14 | clean text with no '>' and no '&' comes out unchanged, so a lone '<' survives |
| HtmlText.StripParagraph | src/lib/text.ts:4-13 | a paragraph around one plain character, "<p>a</p>" for instance, gives that character |
| HtmlText.StripDoubleEncoded | src/lib/text.ts:9-10 | "&amp;lt;" gives "<", because the entities are decoded one after another |
| HtmlText.StripUpperEntity | src/lib/text.ts:9 | "x &AMP; y" gives "x & y": entity names match in any case |
| MusicItunes.FormatRuntime | src/providers/musicItunes.ts:8-14 | no text exactly for a missing or zero duration |
| MusicItunes.FormatRuntimeReadsBack | src/providers/musicItunes.ts:10-13 | for a positive duration: minutes, a colon and two digits of seconds below 60, with minutes·60 + seconds = ⌊ms/1000⌋ |
| MusicItunes.UpgradeImageUrl | src/providers/musicItunes.ts:98-101 | a missing or empty URL gives "" |
| MusicItunes.UpgradeImageUrlExact | src/providers/musicItunes.ts:98-101 | the length is kept; the first "100x100" becomes "600x600" and every other character stays; without one the URL is unchanged |
| MusicItunes.SearchMusic | src/providers/musicItunes.ts:16-18 | a blank query or a failed request gives no results |
| MusicItunes.TrackResults | src/providers/musicItunes.ts:32-50 | one result per entry with a track id |
| MusicItunes.SearchMusicExact | src/providers/musicItunes.ts:32-49 | one result per entry with a track id, in order; id = external id = the track id's text, which parses back to it; title falls back from track to album to "Untitled"; creator falls back to "Unknown"; provider is "itunes" |
| MusicItunes.SearchMusicKeepsTracks | src/providers/musicItunes.ts:33 | exactly the entries with a non-zero track id are mapped |
| MusicItunes.SelectTrack | src/providers/musicItunes.ts:70-74 | nothing for an empty response; otherwise the first entry whose track id matches, or the first entry when none does |
| MusicItunes.GetMusicDetails | src/providers/musicItunes.ts:57-96 | no details for a blank id, a failed request or an empty response; any details come from iTunes and have id equal to external id |
| MusicItunes.GetMusicDetailsExact | src/providers/musicItunes.ts:58-96 | details are missing exactly for a blank id, an empty response or a selected entry without a track id; otherwise the id is the asked-for one when some entry matches, else the first entry is used, and the runtime is that entry's |
| MusicItunes.CollectResults | src/providers/musicItunes.ts:119-124 | the results of the fulfilled requests, concatenated in order |
| MusicItunes.DedupeAlbums | src/providers/musicItunes.ts:126-131 | the loop with its seen set computes the first-occurrence de-duplication |
| MusicItunes.UniqueAlbumsExact | src/providers/musicItunes.ts:126-131 | every kept album has a non-zero collection id; no id repeats; no id is lost; each kept album is the first entry with its id; they keep the order of those first entries |
| MusicItunes.GetFeaturedMusic | src/providers/musicItunes.ts:103-148 | collect, de-duplicate and map the albums |
| MusicItunes.FeaturedMusic | src/providers/musicItunes.ts:133-143 | one result per de-duplicated album, each from iTunes with an empty description |
| MusicItunes.FeaturedMusicExact | src/providers/musicItunes.ts:126-143 | every featured result has id equal to its external id, parsing back to its album's collection id |
| MusicItunes.FeaturedIdsDistinct | src/providers/musicItunes.ts:126-143 | two featured results never share an id |
| Numbers.ParseInt | src/lib/storage.ts:27 | a number is read only from text with something after its leading whitespace, and a negative one only after a leading '-' |
| Numbers.Round | src/analytics/index.ts:73 | `Math.round` gives the integer within half of the number, halves rounding up |
| Collections.FilterSubsequence | src/lib/storage.ts:38 | `filter` keeps its elements in input order |
| Sorting.SortInPlace | src/pages/LibraryMovies.tsx:86-103 | sorting the array in place gives the stable insertion sort of its old contents |
| Sorting.InsertionSortSorted | src/pages/LibraryMovies.tsx:86-103 | for a total preorder the sort's result is ordered |
| Sorting.InsertionSortStable | src/pages/LibraryMovies.tsx:86-103 | tied elements keep their relative order |

## Left out

- Persistence. `localStorage` and JSON are not modelled: the store holds its two
  lists in memory. A read that fails, by throwing or by hitting corrupt JSON,
  is a flag that makes the reads give []. The `console.error` logging is not
  modelled.
- Clocks and ids. `new Date()` is an integer `now`, passed once per store
  call; the source reads the clock up to three times in one update. `uuidv4`
  is an id passed by the caller.
- Date text. `getMonthYear` and `formatDate` depend on the local time zone.
  `getMonthYear` is a function argument, and `formatDate` is absent.
- Framework and cross-tab plumbing. React state, effects and memoisation are
  absent, and so is the `storage` event listener that refreshes the snapshot —
  concurrency and framework machinery.
- Network. HTTP calls, API keys and `Promise.allSettled` are replaced by the
  responses they return: `None` for a failed or empty request.
- Other providers. The movie and book providers only default fields around
  their HTTP calls and are outside this model.
- Floating point. Ratings, years and averages are reals, so IEEE rounding
  and `NaN` ratings do not arise. In `Numbers.Round`, `Math.round` is
  ⌊x + ½⌋.
- The rating input on the toolbar allows values up to 10
  (`src/components/LibraryToolbar.tsx:98`), while ratings are clamped to 5.
  The model follows the clamp, and the toolbar is not modelled.
- `revisitCount` is set to 0 when an item is created. No operation changes it.
- `LibraryMovies.TitleCompare`: `localeCompare` is modelled as
  code-point order (`Strings.LexLe`). Locale collation and UTF-16 code-unit
  order are not modelled.
- `Utils.GetAvailableGenres`: the default `.sort()` compares UTF-16 code
  units, and the model sorts in code-point order (`Strings.LexLe`). The two
  differ only when a character outside the Basic Multilingual Plane is compared
  with one between U+E000 and U+FFFF.
- `LibraryMovies.SearchStep`: the model lower-cases only 'A' to 'Z'
  (`Strings.ToLower`), while `toLowerCase` folds all of Unicode. A title
  "AMÉLIE" matches the query "amélie" in the source but not in the model. The
  entity patterns of `HtmlText` need no more than this: they are ASCII, and a
  case-insensitive pattern without the `u` flag never matches a non-ASCII
  character to an ASCII one.
- Key order. `Analytics.TopTags` and `Analytics.RatingsDistribution` assume
  ordinary string tags and keys in insertion order. JavaScript lists
  integer-like keys of a record first, so a tag such as "2024" would come
  earlier among equal counts. The tag record is a plain object, so
  `tagCounts[tag] || 0` also reads inherited members: a tag "constructor" or
  "toString" counts as the function's text followed by "1", and a tag
  "__proto__" is lost. The model counts these as ordinary tags.
- `LibraryMovies.SearchStep`: the creator test of the search always fails,
  because library items have no `creator` field. The model matches on the
  title only.
- `LibraryMovies.GenreStep`: stored genres are not trimmed, but the genre
  options are trimmed. As in the source, a genre stored with spaces around it
  is never matched by its option.
- `Utils.FormatYear`: a numeric year is an integer here. The text of
  fractional or exponent numbers is not modelled.
- `MusicItunes.FormatRuntimeReadsBack` is stated for positive durations
  only. For a negative duration, JavaScript's `%` gives negative seconds.
  `MusicItunes.FormatRuntime` reproduces that, but no property is stated for
  it.
- `MusicItunes.ApiMusic`: ids and durations are integers. A fractional or
  `NaN` track id is not modelled.
- `MusicItunes.GetMusicDetailsExact`: the `catch` that turns a failed lookup
  into `null` is the `None` response.
- Default limits. `getTopTags` and `getMostRecentActivity` take `limit = 10`
  when none is passed. `Analytics.TopTags` and `Analytics.MostRecentActivity`
  always take the limit from the caller; the default is the constant
  `Analytics.DefaultLimit`, used by `Analytics.TopTagsFixture`.
- The featured searches, `MusicItunes.FeaturedTerms`, are a constant. The
  responses come in as a parameter, one per term, and nothing ties their
  number to the terms.

## Findings

| source | as written | input that shows it | evidently intended | confidence | as-written member | corrected member |
|---|---|---|---|---|---|---|
| src/hooks/useLibrary.ts:47 | after `addItem`, the snapshot is the previous snapshot with the returned item appended, even when `addItem` returned an item that was already saved | a library that already holds a movie with external id "tt1"; adding "tt1" again from search yields a snapshot that lists it twice, while the store holds it once | the snapshot matches the store after an add, as after every other mutation of the hook (`refresh` at src/hooks/useLibrary.ts:14-17, `prev.map` at :31, `prev.filter` at :68), since the store refuses a second copy of a key (src/lib/storage.ts:80-83) | not executed | UseLibrary.LibraryView.AddFromSearch, UseLibrary.AppendedSnapshotDuplicates | UseLibrary.LibraryView.AddFromSearchSynced |
