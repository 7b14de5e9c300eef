# Wallpaper gallery core in Dafny

This project models the logic of a wallpaper gallery web application and proves properties
of it. The gallery shows three series of images (desktop, mobile, avatar), each split into
categories. The model covers:

- **The category cache store** (`WallpaperStore`, src/stores/wallpaper.js). It keeps one
  series index per series and one entry list per `series:file` key. `initSeries` loads the
  first three categories and hands the rest to a background walk, which appends them one at
  a time. `clearCache` deletes keys by series prefix. Fetching and decoding are oracles
  passed in as an `Env` value.
- **The counter overlay** (`Stats`, src/services/statsService.js, and `Popularity`,
  src/stores/popularity.js). Two server wire shapes are normalised into one
  `filename -> {views, downloads}` table. Counts are the server value plus an optimistic
  increment. The popularity score is `views + 2 * downloads`, and rank tables are built from
  it.
- **The filter and sort projection** (`Filter`, src/stores/filter.js, and `Sorting`,
  src/utils/sorting.js). Filters preserve order, category options are counted from the list,
  and comparator sorts break ties newest first.
- **Small utilities and state machines.** `Format` covers src/utils/format.js with the
  resolution table of src/utils/constants.js. `Pagination` covers
  src/composables/usePagination.js. `Catalog` and `WallpaperList` cover
  src/composables/useWallpapers.js. The store's `statistics` getter and its lookup and
  navigation functions (src/stores/wallpaper.js:45-57, 312-343) are the same `Catalog`
  functions over the store's list.
- **The build-time data generator** (`Generate` and `Codec`, scripts/generate-data.js). It
  produces catalog entries from a directory listing, groups them into a category index, and
  writes each payload in the encoding `encodeData` produces. That encoding is base64 as in
  section 4 of RFC 4648 over UTF-8, then a character substitution, a reversal and a prefix.

Stateful parts are classes. Each method's contract gives every field of the new state,
either outright or as a function of the old state. Their loops carry invariants. The pure parts are functions with lemmas about them. Helper modules:

- `Wrappers`: `Option` and `Result`.
- `Strings`: ASCII case mapping, substring search, decimal numerals, JavaScript `trim`.
- `Seqs`: filter, count, flatten, and a stable insertion sort.
- `Assoc`: an insertion-ordered association list with the semantics of `Map.set`, used for
  JavaScript `Map`s and objects whose key order matters.

Where the code and the documented design differ, the model follows the code. The design
says a background walk is abandoned when the active series changes. The code of
`loadRemainingCategories` never compares the series, so the model does not claim this; see
"Left out".

## Model

| member | source | states |
|---|---|---|
| Catalog.GetStatistics | src/composables/useWallpapers.js:54-66 | total is the number of entries; jpg counts formats JPG and JPEG, png counts PNG, and jpg + png never exceeds total; totalSize is the sum of sizes with a missing size counted as 0 |
| Catalog.StatisticsOfAppend | src/composables/useWallpapers.js:56-58 | jpg, png and totalSize of a concatenation are the sums of those of its parts |
| Catalog.TotalSizeAppend | src/composables/useWallpapers.js:58 | the summed size is additive over concatenation |
| Catalog.DisjointCounts | src/composables/useWallpapers.js:56-57 | the JPEG and PNG counts together never exceed the list length |
| Catalog.FindIndex | src/composables/useWallpapers.js:75-77 | the result is the first position holding the id, and it is -1 exactly when no entry has that id |
| Catalog.GetById | src/composables/useWallpapers.js:70-72 | none exactly when the id is absent; otherwise the entry at the first position holding the id |
| Catalog.GetPrev | src/composables/useWallpapers.js:80-86 | the entry before the first one with the id; none when that entry is first or the id is absent |
| Catalog.GetNext | src/composables/useWallpapers.js:89-95 | the entry after the first one with the id, none for the last entry; an unknown id on a nonempty list gives the first entry |
| WallpaperList.ErrorText | src/composables/useWallpapers.js:34-44 | a response that is not ok reads `HTTP error! status: N`; a thrown error gives its message, or the fixed failure text when the message is empty; the text is never empty |
| WallpaperList.WallpaperList.constructor | src/composables/useWallpapers.js:8-11 | empty list, not loading, no error, not loaded |
| WallpaperList.WallpaperList.FetchWallpapers | src/composables/useWallpapers.js:25-48 | nothing changes once loaded; a body replaces the list with `data.wallpapers` or the bare array and marks it loaded; a failure keeps the list and records the error text; loading ends false |
| WallpaperStore.TransformUrls | src/stores/wallpaper.js:84-92 | every field but the four URLs is kept; with a path, url and downloadUrl are the built URL; without one they keep their old values; the thumbnail URL is built from a thumbnail path or kept; previewUrl is built from a preview path, else kept when nonempty, else null |
| WallpaperStore.TransformAllAt | src/stores/wallpaper.js:197 | each entry of a loaded list is the file's entry with its URLs transformed |
| WallpaperStore.IndexOf | src/stores/wallpaper.js:121-143 | a present blob or payload that decodes gives the decoded category list; a missing encoded list or one that fails to decode gives the file's own `categories` field; the descriptive fields are kept |
| WallpaperStore.CategoryListOf | src/stores/wallpaper.js:181-194 | a decoded `{wallpapers}` gives its list and a decoded bare array gives the array; a missing or undecodable list gives `data.wallpapers`, or the empty list |
| WallpaperStore.IndexLookup | src/stores/wallpaper.js:101-153 | a cached index is returned without a request; an uncached unknown series is the invalid-series error; an uncached valid series is the fetched index |
| WallpaperStore.IndexCacheCoherent | src/stores/wallpaper.js:101-153 | after loading an index, every later index lookup returns what it returned before, and only that series' entry can be new |
| WallpaperStore.ErrorMessage | src/stores/wallpaper.js:248 | the recorded error is never empty: it is the failure's message, or the fixed failure text when that message is empty |
| WallpaperStore.CacheKey | src/stores/wallpaper.js:159 | the category key starts with `seriesId:` |
| WallpaperStore.CacheKeyInjective | src/stores/wallpaper.js:159 | within one series, distinct files have distinct cache keys |
| WallpaperStore.CategoryLookup | src/stores/wallpaper.js:158-169 | a cached key returns the cached list without fetching; an uncached key of an unknown series returns the invalid-series error |
| WallpaperStore.CacheAfterStores | src/stores/wallpaper.js:196-201 | a load keeps every cached entry; it adds at most its own key, holding exactly the list it returned; a failed load leaves the cache unchanged |
| WallpaperStore.CacheCoherent | src/stores/wallpaper.js:158-207 | after a load, every later lookup in the same series returns what it returned before, so a cached list is the list that would have been fetched |
| WallpaperStore.CacheAfterAllCoherent | src/stores/wallpaper.js:228-231 | loading several files one after another keeps every lookup in the same series |
| WallpaperStore.CacheAfterAllStores | src/stores/wallpaper.js:228-231 | the first-screen loads keep every cached entry, and each entry they add is the key of one of their files holding the list that file loads against the old cache |
| WallpaperStore.Initial | src/stores/wallpaper.js:228 | the first-screen slice is the prefix of min(3, n) categories of the index |
| WallpaperStore.Files | src/stores/wallpaper.js:236-238 | the recorded set holds exactly the files of the given categories |
| WallpaperStore.Lists | src/stores/wallpaper.js:228-234 | one list per category, in index order, each that category's load result |
| WallpaperStore.Lookups | src/stores/wallpaper.js:228-231 | one load result per category, in index order |
| WallpaperStore.ListsOf | src/stores/wallpaper.js:234 | one list per settled load, in order |
| WallpaperStore.FirstError | src/stores/wallpaper.js:228-231 | the combined rejection is none exactly when every load succeeded |
| WallpaperStore.FirstErrorIsFirst | src/stores/wallpaper.js:228-231 | the rejection message is the message of a failed load with only successes before it |
| WallpaperStore.SettledLoads | src/stores/wallpaper.js:228-234 | no rejection exactly when no load fails, and then the lists are those of the categories in index order |
| WallpaperStore.WalkAppends | src/stores/wallpaper.js:259-280 | the walk only appends: the old list stays a prefix, recorded files stay recorded, and it records exactly the unloaded files that load successfully |
| WallpaperStore.WalkAllLoaded | src/stores/wallpaper.js:262-264 | a walk over categories that are all loaded changes nothing |
| WallpaperStore.WalkCacheStores | src/stores/wallpaper.js:259-280 | the walk keeps every cached entry, and each entry it adds is the key of one of its files holding the list that file loads against the cache at the start |
| WallpaperStore.SkipLoaded | src/stores/wallpaper.js:293-297 | walking only the categories not yet loaded is the same as walking all of them |
| WallpaperStore.SkipLoadedCache | src/stores/wallpaper.js:293-303 | the cache after walking only the unloaded categories is the cache after walking all of them |
| WallpaperStore.NoneUnloaded | src/stores/wallpaper.js:293-300 | no unloaded category left means every category is loaded |
| WallpaperStore.DropSeries | src/stores/wallpaper.js:351-357 | the key walk deletes exactly the keys starting with `seriesId:` and keeps every other entry with its value |
| WallpaperStore.WallpaperStore.constructor | src/stores/wallpaper.js:18-34 | both caches empty, empty list, no series, no loaded files, not loading, no error |
| WallpaperStore.WallpaperStore.Statistics | src/stores/wallpaper.js:45-57 | the total is the list length and jpg + png never exceeds it |
| WallpaperStore.WallpaperStore.LoadSeriesIndex | src/stores/wallpaper.js:101-153 | a cached index is returned without a request; an unknown series is an error and changes no cache; a fetched index is returned and cached, and a failure leaves the cache as it was; no other field changes |
| WallpaperStore.WallpaperStore.LoadCategory | src/stores/wallpaper.js:158-207 | the result is the lookup against the old cache and the new cache is the old one after that load; no other field changes |
| WallpaperStore.WallpaperStore.InitSeries | src/stores/wallpaper.js:212-254 | nothing at all changes when not forced, the series is the current one and the list is nonempty. Otherwise the series becomes current, the index cache holds what loading the index leaves, and loading ends false. The call succeeds exactly when the index (cached, or fetched for a valid series) loads, has categories, and each of its first min(3, n) categories loads against the old cache. On success the list is their lists concatenated in index order, exactly their files are recorded, and the rest of the index is returned for the walk. On failure the list and the recorded files are empty and the error is the message of the first failure (the index error, the missing-categories error, or the first failed category in index order), or the fixed text when that message is empty. The category cache is the old one after the first-screen loads |
| WallpaperStore.WallpaperStore.LoadInitial | src/stores/wallpaper.js:228-234 | every first-screen category is loaded against the cache as it was; without a failure the lists are those categories' lists in order; a failure is reported exactly when some load fails, and it is the first failure in index order; the new cache is the old one after each of those loads in turn; no other field changes |
| WallpaperStore.WallpaperStore.LoadRemainingCategories | src/stores/wallpaper.js:259-280 | the list and the loaded files end as the in-order walk says: a loaded file is skipped, a success is appended and recorded, and a failure is passed over; the category cache is the old one after each of the walk's loads; the index cache, the series, loading and error are untouched |
| WallpaperStore.WallpaperStore.LoadAllCategories | src/stores/wallpaper.js:285-307 | the series and the error field never change. Without a cached index only the index is loaded: its error is returned and nothing else changes. With one, the index cache stays as it is. The categories are walked as in the background walk, and the category cache ends as that walk leaves it. Loading is set only when some category was still unloaded. An index without categories is an error, and nothing changes |
| WallpaperStore.WallpaperStore.ClearCache | src/stores/wallpaper.js:348-363 | with a series, its index and exactly its category keys are deleted and every other entry stays; without one, both caches are emptied; the list, the loaded files, the series, loading and error are untouched |
| Stats.Alias | src/services/statsService.js:63-71 | `x or y or 0` over optional counts: the first present nonzero value, else 0 |
| Stats.ValueCounter | src/services/statsService.js:72-86 | a number v of the object shape is `{views: v, downloads: 0}` and an object value takes the alias fallback |
| Stats.Pairs | src/services/statsService.js:63-86 | the array shape gives one `(image_id, counter)` pair per record, in order; the object shape gives one pair per entry; other bodies give none |
| Stats.SetAllGet | src/services/statsService.js:63-86 | after setting all pairs, a key holds the counter of its last pair, a key without a pair keeps its old value, and keys stay distinct |
| Stats.NormalizeLastWins | src/services/statsService.js:63-86 | the normalised table has distinct keys, exactly one per image id of the body, each holding the counter of that id's last record |
| Stats.Normalize | src/services/statsService.js:60-87 | the normalisation loop's table is the one the pairs set in order; a missing body gives none |
| Stats.SupabasePairs | src/services/statsService.js:248-255 | only an array body gives records, one per row; anything else gives none |
| Stats.SupabaseIgnoresShortFields | src/services/statsService.js:248-255 | the remote table reads only `total_views` and `total_downloads`, 0 when missing |
| Stats.ImageId | src/services/statsService.js:110-153 | the key is the filename when it is nonempty, else the id |
| Stats.GetWallpaperStats | src/services/statsService.js:187-204 | no table gives zero counts; otherwise, for any id including absent ones, each count is the server value (0 when absent) plus the optimistic increment |
| Stats.Increment | src/services/statsService.js:110-153 | the key's pending count grows by exactly one and every other key keeps its count |
| Stats.ViewIsCounted | src/services/statsService.js:110-128 | a recorded view adds exactly one to the reported views of that entry, leaves its downloads and every other entry's counts unchanged |
| Stats.DownloadIsCounted | src/services/statsService.js:135-153 | a recorded download adds exactly one to the reported downloads of that entry, leaves its views and every other entry's counts unchanged |
| Stats.StatsService.constructor | src/services/statsService.js:24-26 | no cached table, an empty optimistic queue, and the configuration flag as given |
| Stats.StatsService.LoadStaticStats | src/services/statsService.js:34-103 | not forced with a cached table returns the merged cached table without a request; a missing body or a failure returns the merged empty table and keeps the cache; a body is normalised, cached under the series, and returned merged; the queue is untouched |
| Stats.StatsService.LoadStatsFromSupabase | src/services/statsService.js:219-266 | unconfigured returns the empty table; a failure returns the merged empty table; a response is read through the long field names, cached, and returned merged |
| Stats.StatsService.RecordView | src/services/statsService.js:110-128 | exactly one optimistic view under `filename or id`; downloads and the cache are unchanged |
| Stats.StatsService.RecordDownload | src/services/statsService.js:135-153 | exactly one optimistic download under `filename or id`; views and the cache are unchanged |
| Stats.StatsService.ResetStatsCache | src/services/statsService.js:209-211 | the optimistic queue is emptied and the cache kept |
| Popularity.EntryOf | src/stores/popularity.js:52-62 | view and download counts are the server counts plus the optimistic ones, and the score is views + 2 * downloads |
| Popularity.Entries | src/stores/popularity.js:48-62 | one entry per table row, in table order |
| Popularity.AllTimeDataCorrect | src/stores/popularity.js:43-65 | the list is a rearrangement of the table's entries, one per key, sorted by non-increasing score, with distinct filenames each carrying its key's counts |
| Popularity.AllTimeDataComplete | src/stores/popularity.js:48-64 | every key of the table has its entry in the list |
| Popularity.RankTableCorrect | src/stores/popularity.js:68-79 | the rank table holds exactly the filenames of the list, each with rank position + 1 and the counts of its entry |
| Popularity.RanksDistinct | src/stores/popularity.js:68-79 | ranks run from 1 to the number of entries and no two filenames share one |
| Popularity.BuildRankTable | src/stores/popularity.js:68-79 | the `forEach` loop builds the rank table of the whole list |
| Popularity.PopularityMapKeys | src/stores/popularity.js:68-79 | `popularityMap` has exactly the keys of the stats table |
| Popularity.PopularityMapAgrees | src/stores/popularity.js:68-79 | a filename's views and downloads in `popularityMap` are the getters' counts, its score is views + 2 * downloads, and its rank points at its place in `allTimeData` |
| Popularity.Tables | src/stores/popularity.js:83-84 | the weekly and the monthly tables are `popularityMap` |
| Popularity.GetPopularRank | src/stores/popularity.js:100-102 | the rank of a known filename, 0 for an absent one |
| Popularity.GetPopularityScore | src/stores/popularity.js:141-144 | the score of a known filename, 0 for an absent one |
| Popularity.GetViewCount | src/stores/popularity.js:124-136 | server views (0 when the filename is absent) plus the optimistic views |
| Popularity.GetDownloadCount | src/stores/popularity.js:107-119 | server downloads (0 when the filename is absent) plus the optimistic downloads |
| Popularity.PopularityStore.constructor | src/stores/popularity.js:24-33 | empty table, not loading, no series, not loaded |
| Popularity.PopularityStore.FetchPopularityData | src/stores/popularity.js:171-206 | skipped when not forced, the series is the same and data exists; otherwise a nonempty static table is taken, an empty one falls back to the remote load, an exception leaves the table empty, and loading ends false |
| Popularity.PopularityStore.ClearData | src/stores/popularity.js:211-215 | the table is empty, the series is `''`, not loaded, and `hasData` is false |
| Filter.StepIsFilter | src/stores/filter.js:141-170 | a filter applied only while active is a filter by the test that passes everything while inactive |
| Filter.ApplyFilters | src/stores/filter.js:137-173 | the result is never longer than the input |
| Filter.ApplyFiltersIsKeeps | src/stores/filter.js:137-173 | the chain of filters keeps exactly the entries passing every active test, in their original order |
| Filter.ApplyFiltersSound | src/stores/filter.js:141-170 | every kept entry matches the query in filename, category, subcategory or a tag, and has the format ignoring case and the exact category and subcategory; the result is an order-preserving subsequence of the input |
| Filter.ApplyFiltersComplete | src/stores/filter.js:141-170 | every entry passing the active filters is kept |
| Filter.ApplyFiltersInactive | src/stores/filter.js:137-173 | with no active filter the list comes back unchanged |
| Filter.CategoryTallyCounts | src/stores/filter.js:73-76 | the category table has one key per nonempty category, holding its number of entries |
| Filter.SubTallyCounts | src/stores/filter.js:77-82 | the subcategory table has a nonempty table for exactly the categories with a nonempty subcategory, counting entries per subcategory |
| Filter.CountOne | src/stores/filter.js:73-84 | one `forEach` step counts one entry in both tables |
| Filter.CreateCategoryOptions | src/stores/filter.js:69-109 | the loop fills both tables and builds the options from them |
| Filter.CategoryOptionsEntries | src/stores/filter.js:90-108 | entry 0 is `'all'` with the list length; every other entry is a nonempty category labelled by its name with its number of entries |
| Filter.CategoryOptionsDistinct | src/stores/filter.js:86-108 | each category appears once |
| Filter.CategoryOptionsComplete | src/stores/filter.js:73-108 | every nonempty category of the list has an option |
| Filter.CategoryOptionsSorted | src/stores/filter.js:86-88 | category options are ordered by non-increasing count |
| Filter.CategoryOptionsSubcategories | src/stores/filter.js:93-107 | `subcategories` is present exactly when the category has an entry with a subcategory; it is then nonempty, sorted by non-increasing count, and counts each subcategory's entries |
| Filter.FindOption | src/stores/filter.js:120 | the first option whose value is the filter, none exactly when no option has it |
| Filter.CreateSubcategoryOptions | src/stores/filter.js:115-132 | `'all'` alone when the filter is `'all'` or the category has no subcategories; otherwise `'all'` then one choice per subcategory in order, labelled `name (count)` |
| Filter.SubChoiceLabelCount | src/stores/filter.js:124-127 | the count in a subcategory label reads back as the count |
| Filter.SortWith | src/stores/filter.js:180-201 | each sort key yields a rearrangement of the list |
| Filter.ApplySort | src/stores/filter.js:178-205 | a rearrangement of the list, and the list unchanged for an unknown key |
| Filter.ApplySortOf | src/stores/filter.js:179-201 | a known key sorts by that key's case |
| Filter.HotSortsArePopular | src/stores/filter.js:190-193 | with weekly and monthly tables equal to the all-time one, as the popularity store defines them, the hot sorts are the popularity sort |
| Filter.GetFilteredAndSorted | src/stores/filter.js:210-213 | a rearrangement of exactly the entries that pass the filters |
| Filter.FilterStore.constructor | src/stores/filter.js:18-31 | empty queries, the stored sort or `'newest'`, the stored category or `'all'`, and format and subcategory `'all'` |
| Filter.FilterStore.ResetFilters | src/stores/filter.js:232-239 | both queries empty, format, category and subcategory `'all'`, sort as given, and no active filter |
| Filter.FilterStore.SetDefaultSortBySeries | src/stores/filter.js:244-247 | `'popular'` for mobile and avatar, `'newest'` otherwise; nothing else changes |
| Filter.FilterStore.ResetSubcategory | src/stores/filter.js:252-254 | the subcategory filter is `'all'` and nothing else changes |
| Sorting.SortByDate | src/utils/sorting.js:8-14 | a permutation, newest first for `'desc'` and oldest first otherwise |
| Sorting.SortByPopularity | src/utils/sorting.js:19-31 | a permutation, by non-increasing score with a missing score as 0, newest first among equal scores |
| Sorting.SortByDownloads | src/utils/sorting.js:36-48 | a permutation, by non-increasing downloads, newest first among equal counts |
| Sorting.SortByViews | src/utils/sorting.js:53-65 | a permutation, by non-increasing views, newest first among equal counts |
| Sorting.SortBySize | src/utils/sorting.js:70-74 | a permutation of the input |
| Sorting.SortBySizeOrdered | src/utils/sorting.js:70-74 | when every entry has a size, non-increasing in size for `'desc'` and non-decreasing otherwise |
| Sorting.SortByName | src/utils/sorting.js:79-85 | a permutation of the input |
| Sorting.SortByNameOrdered | src/utils/sorting.js:79-85 | under a total collation, ascending by filename for `'asc'` and descending otherwise |
| Sorting.DateLePreorder | src/utils/sorting.js:9-13 | the date comparator is a total preorder |
| Sorting.CountLePreorder | src/utils/sorting.js:20-30 | the count-then-newest comparator is a total preorder |
| Sorting.SizeLePreorder | src/utils/sorting.js:71-73 | among entries with a size the size comparator is a total preorder |
| Format.FindThreshold | src/utils/format.js:15-24 | the first row whose minimum the long side reaches; none exactly when it reaches no row |
| Format.GetResolutionLabel | src/utils/format.js:13-25 | width and height are echoed, with the label and type of the first row the long side reaches, else `标清`/`secondary` |
| Format.FallbackOnlyWhenNegative | src/utils/constants.js:99-107 | the final fallback is taken exactly when the long side is negative, since the last row starts at 0 |
| Format.ResolutionBoundaries | src/utils/constants.js:100-106 | 5120 gives `5K+`, 5119 and 3841 give `4K+`, 3840 gives `4K`, 2560 `2K`, 1920 `超清`, 1280 `高清`, 1279 `标清` |
| Format.ExtensionStart | src/utils/format.js:93 | the extension starts just past the last dot, or at 0 without one |
| Format.GetFileExtension | src/utils/format.js:92-94 | the lowercased text after the last dot, or the whole lowercased name when there is no dot |
| Format.ExtensionAfterLastDot | src/utils/format.js:92-94 | a name ending in `.ext`, with no dot in ext, has extension ext lowercased |
| Format.HighlightText | src/utils/format.js:138-152 | with an empty keyword or text, one plain segment holding the text; otherwise nonempty segments that spell the text, highlighted ones equal to the keyword ignoring case and plain ones with no occurrence of it |
| Format.PiecesConcat | src/utils/format.js:146 | the pieces of the split concatenate back to the text |
| Format.PiecesMatch | src/utils/format.js:144-146 | captured pieces equal the keyword ignoring case, and the text between them holds no occurrence of it |
| Format.SegmentsOf | src/utils/format.js:148-151 | dropping empty pieces keeps the concatenation and leaves only nonempty segments |
| Format.SegmentsFromPieces | src/utils/format.js:148-151 | a segment is highlighted only when it equals the keyword ignoring case, and a plain one contains no occurrence of it |
| Format.NestedFloors | src/utils/format.js:67-72 | the nested floor divisions are single floor divisions by the unit lengths |
| Format.Bucket | src/utils/format.js:67-84 | the bucket is the largest unit the difference reaches, with its count; a difference under a minute, negative ones included, is "just now" |
| Format.FormatRelativeTime | src/utils/format.js:62-85 | `刚刚` exactly for a difference under a minute; otherwise the largest unit reached with its floored count: `N 年前` from a year, `N 个月前` from 30 days, `N 天前` from a day, `N 小时前` from an hour, `N 分钟前` from a minute |
| Codec.EncodeChar | scripts/generate-data.js:23 | one to four UTF-8 bytes, a single byte exactly for ASCII |
| Codec.DecodeFirstEncodeChar | scripts/generate-data.js:23 | the bytes of a character, followed by anything, decode to that character and its length |
| Codec.Utf8RoundTrip | scripts/generate-data.js:23 | decoding the UTF-8 bytes of a string gives the string back |
| Codec.Base64Encode | scripts/generate-data.js:23 | a length that is a multiple of 4, over the base64 alphabet and `=` |
| Codec.Base64RoundTrip | scripts/generate-data.js:23 | decoding the base64 text of bytes gives the bytes back |
| Codec.Reverse | scripts/generate-data.js:25 | character i of the result is character n-1-i of the input |
| Codec.ReverseReverse | scripts/generate-data.js:25 | reversing twice gives the text back |
| Codec.MapCharsPointwise | scripts/generate-data.js:24 | with single-character images the substituted text has one character per input character, its image |
| Codec.DecodeEncode | scripts/generate-data.js:22-26 | the reference decoder returns the encoded string for any table the inverse undoes on the base64 alphabet |
| Codec.EncodeDataInjective | scripts/generate-data.js:22-26 | distinct strings encode differently whenever the table is injective on the base64 alphabet with single-character images |
| Generate.ExtName | scripts/generate-data.js:254 | `path.extname`: from the last dot to the end, except for no dot, a single leading dot, and `..` |
| Generate.Stem | scripts/generate-data.js:260 | the name without its extension, so stem + extension is the name |
| Generate.ExtNameOf | scripts/generate-data.js:254-260 | a stem and a dot-free extension give exactly that extension and stem |
| Generate.CategoryOfStem | scripts/generate-data.js:169-178 | never empty; `未分类` when there is no `--` |
| Generate.CategoryOfStemAt | scripts/generate-data.js:169-178 | with the first `--` at k, the trimmed text before it when that is not blank, else `未分类` |
| Generate.ExtractCategory | scripts/generate-data.js:165-178 | the category of the extension-less name |
| Generate.CategoryRoundTrip | scripts/generate-data.js:165-178 | a name `{category}--{rest}.{ext}` gives its category back when the category is trimmed, holds no `--` and does not end in `-` |
| Generate.BuildLabel | scripts/generate-data.js:221-242 | the label of the first build-time row the long side reaches, else `SD`/`secondary` |
| Generate.BuildLabelDiffersFromRuntime | scripts/generate-data.js:221-242 | the build-time table differs from the runtime one: 5120 is `4K` against `5K+`, 1920 is `1080P` against `超清`, 7680 is `8K` against `5K+` |
| Generate.ResolutionOf | scripts/generate-data.js:273-288 | a resolution is attached exactly when a measurement with positive sides succeeded, and carries the build-time label |
| Generate.EncodeUriComponent | scripts/generate-data.js:266-270 | unreserved text is unchanged; the result holds only unreserved characters and `%` |
| Generate.EncodeUriRoundTrip | scripts/generate-data.js:266-270 | decoding the escaped text gives the name back |
| Generate.EncodeUriInjective | scripts/generate-data.js:266-270 | distinct names escape differently |
| Generate.FormatOfImage | scripts/generate-data.js:254 | every listed image file gets one of JPG, JPEG, PNG, GIF, WEBP |
| Generate.GenerateWallpaperData | scripts/generate-data.js:250-315 | one entry per file in order, with the file's name, size and sha, the extracted category, and id `series-(i+1)` |
| Generate.GeneratedIdsDistinct | scripts/generate-data.js:291 | ids are distinct within a series |
| Generate.GeneratedDatesDecrease | scripts/generate-data.js:257 | creation times strictly decrease, by 3600000 ms per position |
| Generate.GeneratedPreviews | scripts/generate-data.js:268-270 | a preview path is present exactly in series with previews |
| Generate.GeneratedPathsDistinct | scripts/generate-data.js:266 | distinct file names get distinct image paths |
| Generate.GeneratedFormats | scripts/generate-data.js:254 | every entry of a listing of images has one of the five format names |
| Generate.GroupByCategory | scripts/generate-data.js:331-338 | the grouping loop builds the groups of the whole list |
| Generate.GroupedCorrect | scripts/generate-data.js:331-338 | each category present has one group holding exactly its entries in input order, and there is no other group |
| Generate.GroupedTotal | scripts/generate-data.js:331-338 | every entry lands in exactly one group |
| Generate.DashRuns | scripts/generate-data.js:346 | every run of white space becomes one `-`, so no white space is left |
| Generate.Slug | scripts/generate-data.js:346 | the category id has no white space |
| Generate.Entries | scripts/generate-data.js:341-352 | one index entry per group, in group order |
| Generate.CategoryIndex | scripts/generate-data.js:341-355 | the index is a rearrangement of the group entries |
| Generate.CategoryIndexTotal | scripts/generate-data.js:341-365 | the counts of the index add up to the number of entries |
| Generate.CategoryIndexSorted | scripts/generate-data.js:355 | the index is ordered by non-increasing count |
| Generate.CategoryIndexEntries | scripts/generate-data.js:345-351 | each index entry counts exactly its category's entries and names the file `name.json` |
| Generate.CategoryIndexNames | scripts/generate-data.js:341-355 | every category that occurs has an entry, and no two entries share a name |
| Generate.Refs | scripts/generate-data.js:345-351 | the store reads name, count and file of each index entry |
| Generate.CategoryFilesOf | scripts/generate-data.js:378-402 | one file per group, named after it, holding its encoded list |
| Generate.GenerateCategorySplitData | scripts/generate-data.js:323-405 | group, build the sorted index and `index.json`, and write one file per group in group order |
| Generate.WriteCategoryFiles | scripts/generate-data.js:378-402 | the loop writes the file of each group in order |
| Generate.IndexReadBack | scripts/generate-data.js:358-371 | the store reads back the category list written into `index.json` when its decoder inverts the encoding |
| Generate.CategoryReadBack | scripts/generate-data.js:378-402 | every index entry has a category file under its file name, from which the store reads back exactly that category's entries in order |
| Generate.ListReadBack | scripts/generate-data.js:389 | a category file reads back as the list written into it |
| Generate.ProcessSeries | scripts/generate-data.js:410-516 | an empty listing writes an empty list and no split; otherwise entries are generated, sorted largest first, written and split |
| Generate.ProcessSeriesEmpty | scripts/generate-data.js:430-452 | an empty listing gives an empty list, a zero total and no category files |
| Generate.ProcessSeriesList | scripts/generate-data.js:455-475 | for a nonempty listing the list is a permutation of the generated entries, largest first, and the total is the number of files |
| Generate.ProcessSeriesIds | scripts/generate-data.js:455-458 | the written list has distinct ids |
| Generate.IdsFollowListing | scripts/generate-data.js:455-458 | ids follow the listing, not the written order: of two files the larger comes first although it has the second id |
| Generate.SeriesBlobReadBack | scripts/generate-data.js:462 | the series file's payload reads back as the written list |
| Pagination.Displayed | src/composables/usePagination.js:14-16 | the prefix of the items of length min(n, page * pageSize) |
| Pagination.MoreAt | src/composables/usePagination.js:19-21 | more to show exactly when page * pageSize is below the number of items |
| Pagination.NextPageExtends | src/composables/usePagination.js:28-30 | another page extends what is shown, by a full page or to the end of the list |
| Pagination.EnoughPagesShowAll | src/composables/usePagination.js:14-21 | with a positive page size, enough pages show the whole list |
| Pagination.Pager.DisplayedItems | src/composables/usePagination.js:14-16 | what is shown is a prefix of the items |
| Pagination.Pager.constructor | src/composables/usePagination.js:7-9 | page 1, not loading, the items and page size as given |
| Pagination.Pager.LoadMore | src/composables/usePagination.js:24-34 | nothing while loading or with nothing more; otherwise exactly one more page, the loading flag set, and a strictly longer shown prefix for a positive page size |
| Pagination.Pager.FinishTick | src/composables/usePagination.js:31-33 | the tick clears the loading flag and keeps the page |
| Pagination.Pager.ResetPagination | src/composables/usePagination.js:37-39 | the page is 1 |
| Pagination.Pager.SetItems | src/composables/usePagination.js:42-44 | a change in length resets the page to 1; the same length keeps it |
| Strings.Trim | scripts/generate-data.js:171-172 | the text with leading and trailing white space cut, nonempty ends not white space, empty exactly for white-space-only text |
| Strings.Lower | src/stores/filter.js:142 | ASCII lowercasing, character by character |
| Strings.IndexOf | scripts/generate-data.js:169 | the first occurrence of the substring, none exactly when it does not occur |
| Strings.ParseNatToString | src/stores/filter.js:126 | a decimal numeral reads back as its number |

## Left out

- Network and file I/O are oracles or parameters: every `fetch`, the GitHub listing, the
  local directory scan, `fs` writes and the ImageMagick measurement. The listing and the
  measured sizes are inputs of `Generate`.
- The worker decode path and its 1000-character threshold (src/stores/wallpaper.js:66-79)
  are concurrency; decoding is one oracle.
- The 100 ms pause between background loads (src/stores/wallpaper.js:273) is a timer.
- Concurrency is not modelled: the model is sequential. The background walk is a separate
  call after `InitSeries`. The model does not claim that a walk is scoped to its series:
  the code never checks the active series, so a stale walk can append into another series'
  list. Nor does it claim that interleaved walks avoid duplicates.
- WallpaperStore.WallpaperStore.LoadInitial: `Promise.all` starts the loads together and
  rejects as soon as one fails. The model runs them one after another and reports the
  first failure in index order, and every load still settles and caches its success.
- The remote increment (`callRPC`) is fire-and-forget networking. `RecordView` and
  `RecordDownload` model only the optimistic increment.
- `localStatsCache` is not part of this model. The optimistic queue and the stats cache
  are abstract maps, and `mergeWithOptimistic` is a parameter.
- `incrementLocalView`/`incrementLocalDownload` (src/stores/popularity.js:151-164) are
  deprecated. Their effect is the optimistic step of `RecordView`/`RecordDownload`.
- `optimisticVersion` (src/stores/popularity.js:36, 218-220) only triggers Vue
  recomputation.
- `debounce`/`throttle`, the watchers of the filter store, `nextTick` and the
  `IntersectionObserver` are timers and DOM. The debounced query is a field of its own.
- localStorage preferences are parameters of the filter store's constructor; writes to
  them are not modelled.
- `formatFileSize`, `formatBytes` and `formatDate` are floating point and time zones.
  `createdAt` is an integer millisecond timestamp, not an ISO string.
- `formatRelativeTime` takes the difference `now - date` in milliseconds as input; the
  clock is not modelled.
- `localeCompare` is a parameter, assumed to be a total preorder for the ordering lemma.
- Case mapping is ASCII only. Lower- and upper-casing of other letters is not modelled.
- Strings are sequences of Unicode scalar values. Lone surrogates, which make
  `encodeURIComponent` throw and which `Buffer.from` replaces, cannot occur.
- JSON parsing and `JSON.stringify` are parameters, assumed to invert each other for the
  read-back lemmas. `generatedAt` is one parameter value for a whole run.
- File names are assumed to contain no `/`, as directory entries do.
- The integer-key ordering of `Object.keys` is not modelled: object keys keep insertion
  order.
- `buildImageUrl`, `CHAR_MAP_ENCODE` and `VERSION_PREFIX` come from files outside this
  model; they are parameters.
- The missing configuration fields and imports (`indexUrl`, `categoryBaseUrl`,
  `WALLPAPERS_DATA_URL`, `onOptimisticUpdate`) are replaced by the oracles.
- The message of the `TypeError` raised by an index without categories is a fixed
  constant, not the engine's exact text.
- Null entries in stats bodies are not modelled; a record always has its fields.
- Sorting.SortBySize: the ordering is proved only when every entry has a size. A missing
  size makes the comparator return `NaN`, which is not a consistent comparator.
- The in-place sorts of `processSeries` and `generateCategorySplitData` are modelled on
  sequences, as the stable sort `Seqs.SortBy`.
- The page size is a natural number.
- The fields of category files that the store does not read are not modelled.
- The category and resolution statistics of `processSeries` are only printed.
- `main`, `downloadFile`, src/composables/useScrollTop.js, src/composables/useViewMode.js
  and src/main.js are bootstrapping, DOM and analytics.
