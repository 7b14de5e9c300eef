/** The filter store (src/stores/filter.js): the search/format/category/subcategory filters,
    the category options counted from the entries, the sort dispatch, and the actions that
    reset the state. */
module Filter {
  import opened Wrappers
  import opened Strings
  import opened Catalog
  import Seqs
  import opened Assoc
  import opened Sorting

  // ---------------------------------------------------------------------------------------
  // applyFilters

  /** The filter state `applyFilters` reads; `query` is the debounced search text. */
  datatype Filters = Filters(query: string, format: string, category: string, subcategory: string)

  /** Some tag contains the lowercased query. */
  predicate AnyTagContains(tags: seq<string>, q: string) {
    exists i :: 0 <= i < |tags| && Contains(Lower(tags[i]), q)
  }

  /** The search test for a lowercased query: filename, category, subcategory or a tag
      contains it, compared in lower case. */
  predicate MatchesQuery(q: string, w: Wallpaper) {
    Contains(Lower(w.filename), q)
    || (w.category.Some? && Contains(Lower(w.category.value), q))
    || (w.subcategory.Some? && Contains(Lower(w.subcategory.value), q))
    || AnyTagContains(w.tags, q)
  }

  /** Each filter as a test that passes everything while the filter is inactive. */
  predicate PassQuery(f: Filters, w: Wallpaper) {
    f.query == "" || MatchesQuery(Lower(f.query), w)
  }

  predicate PassFormat(f: Filters, w: Wallpaper) {
    f.format == "all" || Lower(w.format) == Lower(f.format)
  }

  predicate PassCategory(f: Filters, w: Wallpaper) {
    f.category == "all" || w.category == Some(f.category)
  }

  predicate PassSubcategory(f: Filters, w: Wallpaper) {
    f.subcategory == "all" || w.subcategory == Some(f.subcategory)
  }

  /** An entry survives every active filter. */
  predicate Keeps(f: Filters, w: Wallpaper) {
    PassQuery(f, w) && PassFormat(f, w) && PassCategory(f, w) && PassSubcategory(f, w)
  }

  function KeepsTest(f: Filters): Wallpaper -> bool {
    w => Keeps(f, w)
  }

  /** `hasActiveFilters()`. */
  predicate HasActiveFilters(f: Filters) {
    f.query != "" || f.format != "all" || f.category != "all" || f.subcategory != "all"
  }

  /** `if (active) result = result.filter(p)`. */
  function Step(s: seq<Wallpaper>, active: bool, p: Wallpaper -> bool): seq<Wallpaper> {
    if active then Seqs.Filter(s, p) else s
  }

  /** A filter applied only when active is a filter by the test that passes everything while
      inactive. */
  lemma StepIsFilter(s: seq<Wallpaper>, active: bool, p: Wallpaper -> bool, pass: Wallpaper -> bool)
    requires forall w :: pass(w) == (!active || p(w))
    ensures Step(s, active, p) == Seqs.Filter(s, pass)
  {
    if active {
      Seqs.FilterCongruent(s, p, pass);
    } else {
      Seqs.FilterAll(s, pass);
    }
  }

  /** `applyFilters(ws)`: the active filters one after another on a copy of the list. */
  function ApplyFilters(ws: seq<Wallpaper>, f: Filters): (r: seq<Wallpaper>)
    ensures |r| <= |ws|
  {
    var q := Lower(f.query);
    var r1 := Step(ws, f.query != "", (w: Wallpaper) => MatchesQuery(q, w));
    var r2 := Step(r1, f.format != "all", (w: Wallpaper) => Lower(w.format) == Lower(f.format));
    var r3 := Step(r2, f.category != "all", (w: Wallpaper) => w.category == Some(f.category));
    Step(r3, f.subcategory != "all", (w: Wallpaper) => w.subcategory == Some(f.subcategory))
  }

  /** The chain of filters is a single filter by the conjunction of the active tests: it keeps
      exactly the entries passing them all, in their original order. */
  lemma ApplyFiltersIsKeeps(ws: seq<Wallpaper>, f: Filters)
    ensures ApplyFilters(ws, f) == Seqs.Filter(ws, KeepsTest(f))
  {
    var q := Lower(f.query);
    var r1 := Step(ws, f.query != "", (w: Wallpaper) => MatchesQuery(q, w));
    var r2 := Step(r1, f.format != "all", (w: Wallpaper) => Lower(w.format) == Lower(f.format));
    var r3 := Step(r2, f.category != "all", (w: Wallpaper) => w.category == Some(f.category));
    var p1 := (w: Wallpaper) => PassQuery(f, w);
    var p2 := (w: Wallpaper) => PassFormat(f, w);
    var p3 := (w: Wallpaper) => PassCategory(f, w);
    var p4 := (w: Wallpaper) => PassSubcategory(f, w);
    var p12 := (w: Wallpaper) => PassQuery(f, w) && PassFormat(f, w);
    var p123 := (w: Wallpaper) => PassQuery(f, w) && PassFormat(f, w) && PassCategory(f, w);
    StepIsFilter(ws, f.query != "", (w: Wallpaper) => MatchesQuery(q, w), p1);
    StepIsFilter(r1, f.format != "all", (w: Wallpaper) => Lower(w.format) == Lower(f.format), p2);
    StepIsFilter(r2, f.category != "all", (w: Wallpaper) => w.category == Some(f.category), p3);
    StepIsFilter(r3, f.subcategory != "all", (w: Wallpaper) => w.subcategory == Some(f.subcategory), p4);
    Seqs.FilterFilter(ws, p1, p2, p12);
    Seqs.FilterFilter(ws, p12, p3, p123);
    Seqs.FilterFilter(ws, p123, p4, KeepsTest(f));
  }

  /** Only entries passing every active filter remain, in their original order. */
  lemma ApplyFiltersSound(ws: seq<Wallpaper>, f: Filters)
    ensures var r := ApplyFilters(ws, f);
      (forall i :: 0 <= i < |r| ==> Keeps(f, r[i]))
      && Seqs.Subsequence(r, ws) && multiset(r) <= multiset(ws)
  {
    ApplyFiltersIsKeeps(ws, f);
    Seqs.FilterIsSubsequence(ws, KeepsTest(f));
  }

  /** Every entry that passes the active filters is kept. */
  lemma ApplyFiltersComplete(ws: seq<Wallpaper>, f: Filters, k: int)
    requires 0 <= k < |ws| && Keeps(f, ws[k])
    ensures ws[k] in ApplyFilters(ws, f)
  {
    ApplyFiltersIsKeeps(ws, f);
    FilterKeepsMember(ws, KeepsTest(f), k);
  }

  /** With no active filter the list comes back unchanged. */
  lemma ApplyFiltersInactive(ws: seq<Wallpaper>, f: Filters)
    requires !HasActiveFilters(f)
    ensures ApplyFilters(ws, f) == ws
  {
    ApplyFiltersIsKeeps(ws, f);
    Seqs.FilterAll(ws, KeepsTest(f));
  }

  lemma {:induction false} FilterKeepsMember(s: seq<Wallpaper>, p: Wallpaper -> bool, k: int)
    requires 0 <= k < |s| && p(s[k])
    ensures s[k] in Seqs.Filter(s, p)
  {
    if k > 0 {
      assert s[1..][k - 1] == s[k];
      FilterKeepsMember(s[1..], p, k - 1);
    }
  }

  // ---------------------------------------------------------------------------------------
  // createCategoryOptions

  /** Number of entries in category `c`. */
  function CatCount(ws: seq<Wallpaper>, c: string): nat {
    Seqs.Count(ws, (w: Wallpaper) => w.category == Some(c))
  }

  /** Number of entries in category `c` with subcategory `s`. */
  function SubCount(ws: seq<Wallpaper>, c: string, s: string): nat {
    Seqs.Count(ws, (w: Wallpaper) => w.category == Some(c) && w.subcategory == Some(s))
  }

  /** Number of entries in category `c` with a nonempty subcategory. */
  function SubTotal(ws: seq<Wallpaper>, c: string): nat {
    Seqs.Count(ws, (w: Wallpaper) => w.category == Some(c) && Truthy(w.subcategory))
  }

  /** One `forEach` step on `categoryCount`. */
  function CountCategory(t: Assoc<nat>, w: Wallpaper): Assoc<nat> {
    if Truthy(w.category) then Bump(t, w.category.value) else t
  }

  /** One `forEach` step on `subcategoryCount`. */
  function CountSubcategory(t: Assoc<Assoc<nat>>, w: Wallpaper): Assoc<Assoc<nat>> {
    if Truthy(w.category) && Truthy(w.subcategory) then
      Set(t, w.category.value, Bump(Get(t, w.category.value).GetOr([]), w.subcategory.value))
    else t
  }

  /** `categoryCount` after the `forEach` over `ws`. */
  function CategoryTally(ws: seq<Wallpaper>): Assoc<nat>
    decreases |ws|
  {
    if ws == [] then [] else CountCategory(CategoryTally(ws[..|ws| - 1]), ws[|ws| - 1])
  }

  /** `subcategoryCount` after the `forEach` over `ws`. */
  function SubTally(ws: seq<Wallpaper>): Assoc<Assoc<nat>>
    decreases |ws|
  {
    if ws == [] then [] else CountSubcategory(SubTally(ws[..|ws| - 1]), ws[|ws| - 1])
  }

  lemma CountSnoc(init: seq<Wallpaper>, last: Wallpaper, p: Wallpaper -> bool)
    ensures Seqs.Count(init + [last], p) == Seqs.Count(init, p) + (if p(last) then 1 else 0)
  {
    Seqs.CountAppend(init, [last], p);
    assert [last][1..] == [];
  }

  /** `categoryCount` has one key per nonempty category, counting its entries. */
  lemma {:induction false} CategoryTallyCounts(ws: seq<Wallpaper>)
    ensures DistinctKeys(CategoryTally(ws))
    ensures forall c :: Get(CategoryTally(ws), c) == if c != "" && CatCount(ws, c) > 0 then Some(CatCount(ws, c)) else None
    decreases |ws|
  {
    if ws != [] {
      var init, last := ws[..|ws| - 1], ws[|ws| - 1];
      assert ws == init + [last];
      CategoryTallyCounts(init);
      forall c ensures CatCount(ws, c) == CatCount(init, c) + (if last.category == Some(c) then 1 else 0) {
        CountSnoc(init, last, (w: Wallpaper) => w.category == Some(c));
      }
    }
  }

  /** A per-category table counting the entries of category `c` per nonempty subcategory. */
  ghost predicate InnerCounts(t: Assoc<nat>, ws: seq<Wallpaper>, c: string) {
    DistinctKeys(t)
    && forall s :: Get(t, s) == if s != "" && SubCount(ws, c, s) > 0 then Some(SubCount(ws, c, s)) else None
  }

  /** `subcategoryCount` has a table for exactly the nonempty categories with an entry of
      nonempty subcategory; each such table is nonempty and counts per subcategory. */
  ghost predicate SubTallyCorrect(t: Assoc<Assoc<nat>>, ws: seq<Wallpaper>) {
    (forall c :: Get(t, c).Some? <==> c != "" && SubTotal(ws, c) > 0)
    && (forall c :: Get(t, c).Some? ==> |Get(t, c).value| > 0 && InnerCounts(Get(t, c).value, ws, c))
  }

  lemma SubCountSnoc(ws: seq<Wallpaper>, last: Wallpaper, c: string, s: string)
    ensures SubCount(ws + [last], c, s) == SubCount(ws, c, s)
      + (if last.category == Some(c) && last.subcategory == Some(s) then 1 else 0)
  {
    CountSnoc(ws, last, (w: Wallpaper) => w.category == Some(c) && w.subcategory == Some(s));
  }

  lemma SubTotalSnoc(ws: seq<Wallpaper>, last: Wallpaper, c: string)
    ensures SubTotal(ws + [last], c) == SubTotal(ws, c)
      + (if last.category == Some(c) && Truthy(last.subcategory) then 1 else 0)
  {
    CountSnoc(ws, last, (w: Wallpaper) => w.category == Some(c) && Truthy(w.subcategory));
  }

  /** No entry of `c` with a nonempty subcategory means none with subcategory `s`. */
  lemma SubCountZero(ws: seq<Wallpaper>, c: string, s: string)
    requires s != "" && SubTotal(ws, c) == 0
    ensures SubCount(ws, c, s) == 0
  {
    Seqs.CountMono(ws, (w: Wallpaper) => w.category == Some(c) && w.subcategory == Some(s),
                   (w: Wallpaper) => w.category == Some(c) && Truthy(w.subcategory));
  }

  /** The table of the category the counted entry belongs to, after the step. */
  lemma InnerStep(t: Assoc<Assoc<nat>>, ws: seq<Wallpaper>, last: Wallpaper)
    requires SubTallyCorrect(t, ws) && Truthy(last.category) && Truthy(last.subcategory)
    ensures var c := last.category.value;
      var inner := Bump(Get(t, c).GetOr([]), last.subcategory.value);
      |inner| > 0 && InnerCounts(inner, ws + [last], c)
  {
    var c, s0 := last.category.value, last.subcategory.value;
    var before := Get(t, c).GetOr([]);
    var inner := Bump(before, s0);
    forall s ensures SubCount(ws + [last], c, s) == SubCount(ws, c, s) + (if s == s0 then 1 else 0) {
      SubCountSnoc(ws, last, c, s);
    }
    if Get(t, c).None? {
      forall s | s != "" ensures SubCount(ws, c, s) == 0 {
        SubCountZero(ws, c, s);
      }
    }
    assert Get(inner, s0).Some?;
  }

  /** One step keeps the tally correct at category `c`. */
  lemma SubTallyStepAt(t: Assoc<Assoc<nat>>, ws: seq<Wallpaper>, last: Wallpaper, c: string)
    requires SubTallyCorrect(t, ws)
    ensures var t' := CountSubcategory(t, last);
      (Get(t', c).Some? <==> c != "" && SubTotal(ws + [last], c) > 0)
      && (Get(t', c).Some? ==> |Get(t', c).value| > 0 && InnerCounts(Get(t', c).value, ws + [last], c))
  {
    SubTotalSnoc(ws, last, c);
    var t' := CountSubcategory(t, last);
    if Truthy(last.category) && Truthy(last.subcategory) && c == last.category.value {
      var inner := Bump(Get(t, c).GetOr([]), last.subcategory.value);
      InnerStep(t, ws, last);
      GetSet(t, c, inner);
    } else {
      if Truthy(last.category) && Truthy(last.subcategory) {
        var c0 := last.category.value;
        GetSet(t, c0, Bump(Get(t, c0).GetOr([]), last.subcategory.value));
      }
      assert Get(t', c) == Get(t, c);
      forall s | s != "" && c != "" ensures SubCount(ws + [last], c, s) == SubCount(ws, c, s) {
        SubCountSnoc(ws, last, c, s);
      }
    }
  }

  lemma SubTallyStep(t: Assoc<Assoc<nat>>, ws: seq<Wallpaper>, last: Wallpaper)
    requires SubTallyCorrect(t, ws)
    ensures SubTallyCorrect(CountSubcategory(t, last), ws + [last])
  {
    forall c ensures var t' := CountSubcategory(t, last);
      (Get(t', c).Some? <==> c != "" && SubTotal(ws + [last], c) > 0)
      && (Get(t', c).Some? ==> |Get(t', c).value| > 0 && InnerCounts(Get(t', c).value, ws + [last], c))
    {
      SubTallyStepAt(t, ws, last, c);
    }
  }

  /** `subcategoryCount` after the `forEach` is correct. */
  lemma {:induction false} SubTallyCounts(ws: seq<Wallpaper>)
    ensures SubTallyCorrect(SubTally(ws), ws)
    decreases |ws|
  {
    if ws != [] {
      var init, last := ws[..|ws| - 1], ws[|ws| - 1];
      assert ws == init + [last];
      SubTallyCounts(init);
      SubTallyStep(SubTally(init), init, last);
    }
  }

  datatype SubOption = SubOption(name: string, count: nat)

  /** An entry of the category options; `subcategories` is present only when nonempty. */
  datatype CategoryOption = CategoryOption(value: string, text: string, count: nat,
                                           subcategories: Option<seq<SubOption>>)

  function Entries(t: Assoc<nat>): (r: seq<SubOption>)
    ensures |r| == |t|
    ensures forall i :: 0 <= i < |t| ==> r[i] == SubOption(t[i].0, t[i].1)
  {
    seq(|t|, i requires 0 <= i < |t| => SubOption(t[i].0, t[i].1))
  }

  /** `b.count - a.count` at most 0. */
  function SubLe(): (SubOption, SubOption) -> bool {
    (a: SubOption, b: SubOption) => b.count <= a.count
  }

  /** `(categoryCount[b] || 0) - (categoryCount[a] || 0)` at most 0. */
  function CatLe(cats: Assoc<nat>): (string, string) -> bool {
    (a: string, b: string) => Get(cats, b).GetOr(0) <= Get(cats, a).GetOr(0)
  }

  function SubcategoriesOf(subs: Assoc<Assoc<nat>>, cat: string): Option<seq<SubOption>> {
    match Get(subs, cat)
    case None => None
    case Some(t) =>
      var l := Seqs.SortBy(Entries(t), SubLe());
      if |l| > 0 then Some(l) else None
  }

  function OptionFor(cats: Assoc<nat>, subs: Assoc<Assoc<nat>>, cat: string): CategoryOption {
    CategoryOption(cat, cat, Get(cats, cat).GetOr(0), SubcategoriesOf(subs, cat))
  }

  const AllCategories: string := "全部分类"

  /** The option list built from the two count tables. */
  function OptionsFrom(total: nat, cats: Assoc<nat>, subs: Assoc<Assoc<nat>>): seq<CategoryOption> {
    var sorted := Seqs.SortBy(Keys(cats), CatLe(cats));
    [CategoryOption("all", AllCategories, total, None)]
      + seq(|sorted|, i requires 0 <= i < |sorted| => OptionFor(cats, subs, sorted[i]))
  }

  /** What `createCategoryOptions(ws)` returns. */
  function CategoryOptions(ws: seq<Wallpaper>): seq<CategoryOption> {
    OptionsFrom(|ws|, CategoryTally(ws), SubTally(ws))
  }

  /** `createCategoryOptions(ws)`: the `forEach` fills both count tables, then the options are
      assembled from them. */
  method CreateCategoryOptions(ws: seq<Wallpaper>) returns (opts: seq<CategoryOption>)
    ensures opts == CategoryOptions(ws)
  {
    var categoryCount: Assoc<nat> := [];
    var subcategoryCount: Assoc<Assoc<nat>> := [];
    var i := 0;
    while i < |ws|
      invariant 0 <= i <= |ws|
      invariant categoryCount == CategoryTally(ws[..i])
      invariant subcategoryCount == SubTally(ws[..i])
    {
      TallySnoc(ws, i);
      categoryCount, subcategoryCount := CountOne(categoryCount, subcategoryCount, ws[i]);
      i := i + 1;
    }
    assert ws[..|ws|] == ws;
    opts := OptionsFrom(|ws|, categoryCount, subcategoryCount);
  }

  /** The `forEach` callback of `createCategoryOptions`: one entry counted in both tables. */
  method CountOne(categoryCount: Assoc<nat>, subcategoryCount: Assoc<Assoc<nat>>, w: Wallpaper)
    returns (cats: Assoc<nat>, subs: Assoc<Assoc<nat>>)
    ensures cats == CountCategory(categoryCount, w)
    ensures subs == CountSubcategory(subcategoryCount, w)
  {
    cats, subs := categoryCount, subcategoryCount;
    if Truthy(w.category) {
      cats := Set(cats, w.category.value, Get(cats, w.category.value).GetOr(0) + 1);
      if Truthy(w.subcategory) {
        var inner := Get(subs, w.category.value).GetOr([]);
        inner := Set(inner, w.subcategory.value, Get(inner, w.subcategory.value).GetOr(0) + 1);
        subs := Set(subs, w.category.value, inner);
      }
    }
  }

  /** One more entry is one more `forEach` step on both tables. */
  lemma TallySnoc(ws: seq<Wallpaper>, i: nat)
    requires i < |ws|
    ensures CategoryTally(ws[..i + 1]) == CountCategory(CategoryTally(ws[..i]), ws[i])
    ensures SubTally(ws[..i + 1]) == CountSubcategory(SubTally(ws[..i]), ws[i])
  {
    assert ws[..i + 1][..i] == ws[..i];
  }

  /** The sorted category keys: a rearrangement of the tally's keys, ordered by count. */
  lemma SortedKeys(ws: seq<Wallpaper>)
    ensures var cats := CategoryTally(ws);
      var sorted := Seqs.SortBy(Keys(cats), CatLe(cats));
      multiset(sorted) == multiset(Keys(cats)) && Seqs.Distinct(sorted) && Seqs.Sorted(sorted, CatLe(cats))
  {
    var cats := CategoryTally(ws);
    CategoryTallyCounts(ws);
    var ks := Keys(cats);
    assert Seqs.Distinct(ks);
    Seqs.DistinctPermutation(Seqs.SortBy(ks, CatLe(cats)), ks);
    Seqs.SortBySorted(ks, CatLe(cats));
  }

  /** A key of the tally is a nonempty category with that many entries. */
  lemma TallyKey(ws: seq<Wallpaper>, c: string)
    requires c in Keys(CategoryTally(ws))
    ensures c != "" && CatCount(ws, c) > 0 && Get(CategoryTally(ws), c) == Some(CatCount(ws, c))
  {
    CategoryTallyCounts(ws);
    var ks := Keys(CategoryTally(ws));
    var i :| 0 <= i < |ks| && ks[i] == c;
    assert CategoryTally(ws)[i].0 == c;
    assert Get(CategoryTally(ws), c).Some?;
  }

  /** The first option is `'all'` with the number of entries; every other option is a nonempty
      category, labelled by its name, with its number of entries. */
  lemma CategoryOptionsEntries(ws: seq<Wallpaper>)
    ensures var r := CategoryOptions(ws);
      |r| >= 1 && r[0] == CategoryOption("all", AllCategories, |ws|, None)
      && forall i :: 1 <= i < |r| ==>
        r[i].value != "" && r[i].text == r[i].value && r[i].count == CatCount(ws, r[i].value) > 0
  {
    var r := CategoryOptions(ws);
    var cats := CategoryTally(ws);
    var sorted := Seqs.SortBy(Keys(cats), CatLe(cats));
    SortedKeys(ws);
    forall i | 1 <= i < |r|
      ensures r[i].value != "" && r[i].text == r[i].value && r[i].count == CatCount(ws, r[i].value) > 0
    {
      assert r[i] == OptionFor(cats, SubTally(ws), sorted[i - 1]);
      assert sorted[i - 1] in multiset(Keys(cats));
      TallyKey(ws, sorted[i - 1]);
    }
  }

  /** The sorted tally keys, one per option after the first. */
  function SortedCategories(ws: seq<Wallpaper>): seq<string> {
    Seqs.SortBy(Keys(CategoryTally(ws)), CatLe(CategoryTally(ws)))
  }

  /** Option `i` after the first is the option of the `i`-th sorted key. */
  lemma OptionsFromAt(total: nat, cats: Assoc<nat>, subs: Assoc<Assoc<nat>>, i: int)
    requires 1 <= i < |OptionsFrom(total, cats, subs)|
    ensures |OptionsFrom(total, cats, subs)| == |Seqs.SortBy(Keys(cats), CatLe(cats))| + 1
    ensures OptionsFrom(total, cats, subs)[i] == OptionFor(cats, subs, Seqs.SortBy(Keys(cats), CatLe(cats))[i - 1])
  {
  }

  lemma OptionAt(ws: seq<Wallpaper>, i: int)
    requires 1 <= i < |CategoryOptions(ws)|
    ensures |CategoryOptions(ws)| == |SortedCategories(ws)| + 1
    ensures CategoryOptions(ws)[i] == OptionFor(CategoryTally(ws), SubTally(ws), SortedCategories(ws)[i - 1])
  {
    var cats := CategoryTally(ws);
    var subs := SubTally(ws);
    OptionsFromAt(|ws|, cats, subs, i);
  }

  /** Each category appears once. */
  lemma CategoryOptionsDistinct(ws: seq<Wallpaper>)
    ensures var r := CategoryOptions(ws);
      forall i, j :: 1 <= i < j < |r| ==> r[i].value != r[j].value
  {
    var r := CategoryOptions(ws);
    var sorted := SortedCategories(ws);
    SortedKeys(ws);
    forall i, j | 1 <= i < j < |r| ensures r[i].value != r[j].value {
      OptionAt(ws, i);
      OptionAt(ws, j);
    }
  }

  /** Every nonempty category of the entries has an option. */
  lemma CategoryOptionsComplete(ws: seq<Wallpaper>, k: int)
    requires 0 <= k < |ws| && Truthy(ws[k].category)
    ensures var r := CategoryOptions(ws);
      exists i :: 1 <= i < |r| && r[i].value == ws[k].category.value
  {
    var c := ws[k].category.value;
    var sorted := SortedCategories(ws);
    TallyHasCategory(ws, k);
    SortedKeys(ws);
    assert c in multiset(sorted);
    var m :| 0 <= m < |sorted| && sorted[m] == c;
    OptionAt(ws, m + 1);
  }

  /** A nonempty category of some entry is a key of the tally. */
  lemma TallyHasCategory(ws: seq<Wallpaper>, k: int)
    requires 0 <= k < |ws| && Truthy(ws[k].category)
    ensures ws[k].category.value in Keys(CategoryTally(ws))
  {
    var cats := CategoryTally(ws);
    var c := ws[k].category.value;
    CategoryTallyCounts(ws);
    Seqs.CountPositive(ws, (w: Wallpaper) => w.category == Some(c), k);
    assert Get(cats, c).Some?;
    var j :| 0 <= j < |cats| && cats[j].0 == c;
    assert Keys(cats)[j] == c;
  }

  /** The categories are ordered by non-increasing count. */
  lemma CategoryOptionsSorted(ws: seq<Wallpaper>)
    ensures var r := CategoryOptions(ws);
      forall i, j :: 1 <= i < j < |r| ==> r[j].count <= r[i].count
  {
    var r := CategoryOptions(ws);
    var cats := CategoryTally(ws);
    var sorted := SortedCategories(ws);
    SortedKeys(ws);
    forall i, j | 1 <= i < j < |r| ensures r[j].count <= r[i].count {
      OptionAt(ws, i);
      OptionAt(ws, j);
      assert CatLe(cats)(sorted[i - 1], sorted[j - 1]);
    }
  }

  /** A subcategory list, when present, is nonempty, sorted by non-increasing count, and
      counts the entries of that category and subcategory; it is absent exactly when no entry
      of the category has a nonempty subcategory. */
  lemma CategoryOptionsSubcategories(ws: seq<Wallpaper>, i: int)
    requires 1 <= i < |CategoryOptions(ws)|
    ensures var o := CategoryOptions(ws)[i];
      (o.subcategories.None? <==> SubTotal(ws, o.value) == 0)
      && (o.subcategories.Some? ==>
            var l := o.subcategories.value;
            |l| > 0
            && (forall m, n :: 0 <= m < n < |l| ==> l[n].count <= l[m].count)
            && (forall m :: 0 <= m < |l| ==> l[m].name != "" && l[m].count == SubCount(ws, o.value, l[m].name) > 0))
  {
    OptionAt(ws, i);
    var c := SortedCategories(ws)[i - 1];
    SortedKeys(ws);
    assert c in multiset(Keys(CategoryTally(ws)));
    TallyKey(ws, c);
    SubTallyCounts(ws);
    SubcategoriesOfCorrect(SubTally(ws), ws, c);
  }

  /** The subcategory list of a nonempty category, from a correct tally. */
  lemma SubcategoriesOfCorrect(subs: Assoc<Assoc<nat>>, ws: seq<Wallpaper>, c: string)
    requires SubTallyCorrect(subs, ws) && c != ""
    ensures var so := SubcategoriesOf(subs, c);
      (so.None? <==> SubTotal(ws, c) == 0)
      && (so.Some? ==>
            var l := so.value;
            |l| > 0
            && (forall m, n :: 0 <= m < n < |l| ==> l[n].count <= l[m].count)
            && (forall m :: 0 <= m < |l| ==> l[m].name != "" && l[m].count == SubCount(ws, c, l[m].name) > 0))
  {
    if Get(subs, c).Some? {
      var t := Get(subs, c).value;
      var es := Entries(t);
      var l := Seqs.SortBy(es, SubLe());
      Seqs.SortBySorted(es, SubLe());
      forall m | 0 <= m < |l| ensures l[m].name != "" && l[m].count == SubCount(ws, c, l[m].name) > 0 {
        assert l[m] in multiset(es);
        var k :| 0 <= k < |es| && es[k] == l[m];
        GetAt(t, k);
      }
    }
  }

  // ---------------------------------------------------------------------------------------
  // createSubcategoryOptions

  /** A `{ value, label }` choice. */
  datatype Choice = Choice(value: string, text: string)

  const AllChoice: Choice := Choice("all", "全部")

  /** The first option whose value is `v`. */
  function FindOption(opts: seq<CategoryOption>, v: string): (r: Option<CategoryOption>)
    ensures r.Some? ==> r.value in opts && r.value.value == v
    ensures r.None? <==> forall i :: 0 <= i < |opts| ==> opts[i].value != v
  {
    if opts == [] then None
    else if opts[0].value == v then Some(opts[0])
    else FindOption(opts[1..], v)
  }

  function SubChoice(s: SubOption): Choice {
    Choice(s.name, s.name + " (" + NatToString(s.count) + ")")
  }

  /** `createSubcategoryOptions(options)` under category filter `category`: the `'all'` choice,
      followed, when the selected category has subcategories, by one choice per subcategory in
      order, labelled `name (count)`. */
  function CreateSubcategoryOptions(category: string, opts: seq<CategoryOption>): (r: seq<Choice>)
    ensures |r| >= 1 && r[0] == AllChoice
    ensures category == "all" ==> r == [AllChoice]
    ensures var o := FindOption(opts, category);
      category != "all" && o.Some? && o.value.subcategories.Some? && |o.value.subcategories.value| > 0 ==>
        var subs := o.value.subcategories.value;
        |r| == 1 + |subs|
        && forall k :: 0 <= k < |subs| ==>
             r[k + 1].value == subs[k].name && r[k + 1].text == subs[k].name + " (" + NatToString(subs[k].count) + ")"
    ensures var o := FindOption(opts, category);
      o.None? || o.value.subcategories.None? || |o.value.subcategories.value| == 0 ==> r == [AllChoice]
  {
    if category == "all" then [AllChoice]
    else
      match FindOption(opts, category)
      case Some(o) =>
        if o.subcategories.Some? && |o.subcategories.value| > 0 then
          var subs := o.subcategories.value;
          [AllChoice] + seq(|subs|, k requires 0 <= k < |subs| => SubChoice(subs[k]))
        else [AllChoice]
      case None => [AllChoice]
  }

  /** The count in a subcategory label can be read back from it. */
  lemma SubChoiceLabelCount(s: SubOption)
    ensures var t := SubChoice(s).text;
      var digits := t[|s.name| + 2..|t| - 1];
      ParseDecimal(digits) == s.count
  {
    var t := SubChoice(s).text;
    assert t[|s.name| + 2..|t| - 1] == NatToString(s.count);
    ParseNatToString(s.count);
  }

  // ---------------------------------------------------------------------------------------
  // applySort and getFilteredAndSorted

  /** The popularity tables the sort reads from the popularity store. */
  datatype PopularityTables = PopularityTables(popularity: PopularityMap, weekly: PopularityMap,
                                               monthly: PopularityMap)

  /** The sort keys `applySort` knows. */
  datatype SortKey = Newest | Oldest | Popular | Downloads | Views | WeeklyHot | MonthlyHot
                   | Largest | Smallest | NameAsc | NameDesc

  /** The `switch (sortBy.value)` of `applySort`; `None` for the `default` case. */
  function SortKeyOf(key: string): Option<SortKey> {
    match key
    case "newest" => Some(Newest)
    case "oldest" => Some(Oldest)
    case "popular" => Some(Popular)
    case "downloads" => Some(Downloads)
    case "views" => Some(Views)
    case "weekly-hot" => Some(WeeklyHot)
    case "monthly-hot" => Some(MonthlyHot)
    case "largest" => Some(Largest)
    case "smallest" => Some(Smallest)
    case "name-asc" => Some(NameAsc)
    case "name-desc" => Some(NameDesc)
    case _ => None
  }

  /** One case of the `switch`. The weekly and monthly tables fall back to the all-time table
      when empty. */
  function SortWith(ws: seq<Wallpaper>, k: SortKey, tables: PopularityTables,
                    localeCompare: (string, string) -> int): (r: seq<Wallpaper>)
    ensures multiset(r) == multiset(ws)
  {
    match k
    case Newest => SortByDate(ws, "desc")
    case Oldest => SortByDate(ws, "asc")
    case Popular => SortByPopularity(ws, tables.popularity)
    case Downloads => SortByDownloads(ws, tables.popularity)
    case Views => SortByViews(ws, tables.popularity)
    case WeeklyHot =>
      SortByPopularity(ws, if |tables.weekly| > 0 then tables.weekly else tables.popularity)
    case MonthlyHot =>
      SortByPopularity(ws, if |tables.monthly| > 0 then tables.monthly else tables.popularity)
    case Largest => SortBySize(ws, "desc")
    case Smallest => SortBySize(ws, "asc")
    case NameAsc => SortByName(ws, "asc", localeCompare)
    case NameDesc => SortByName(ws, "desc", localeCompare)
  }

  /** `applySort(ws)` under sort key `key`: a rearrangement, and the list unchanged for a key
      the `switch` does not know. */
  function ApplySort(ws: seq<Wallpaper>, key: string, tables: PopularityTables,
                     localeCompare: (string, string) -> int): (r: seq<Wallpaper>)
    ensures multiset(r) == multiset(ws)
    ensures SortKeyOf(key).None? ==> r == ws
  {
    match SortKeyOf(key)
    case None => ws
    case Some(k) => SortWith(ws, k, tables, localeCompare)
  }

  /** With the weekly and monthly tables equal to the all-time table (as the popularity store
      defines them), the weekly and monthly orders are the popularity order. */
  lemma HotSortsArePopular(ws: seq<Wallpaper>, m: PopularityMap, localeCompare: (string, string) -> int,
                           key: string)
    requires key == "weekly-hot" || key == "monthly-hot"
    ensures ApplySort(ws, key, PopularityTables(m, m, m), localeCompare)
         == ApplySort(ws, "popular", PopularityTables(m, m, m), localeCompare)
  {
    var tables := PopularityTables(m, m, m);
    var k := if key == "weekly-hot" then WeeklyHot else MonthlyHot;
    assert SortKeyOf("popular") == Some(Popular);
    assert SortKeyOf(key) == Some(k);
    ApplySortOf(ws, "popular", Popular, tables, localeCompare);
    ApplySortOf(ws, key, k, tables, localeCompare);
    HotIsPopular(ws, k, m, localeCompare);
  }

  lemma HotIsPopular(ws: seq<Wallpaper>, k: SortKey, m: PopularityMap, localeCompare: (string, string) -> int)
    requires k == WeeklyHot || k == MonthlyHot
    ensures SortWith(ws, k, PopularityTables(m, m, m), localeCompare)
         == SortWith(ws, Popular, PopularityTables(m, m, m), localeCompare)
  {
    var p := SortByPopularity(ws, m);
    assert SortWith(ws, Popular, PopularityTables(m, m, m), localeCompare) == p;
    if k == WeeklyHot {
      assert SortWith(ws, k, PopularityTables(m, m, m), localeCompare) == p;
    } else {
      assert SortWith(ws, k, PopularityTables(m, m, m), localeCompare) == p;
    }
  }

  lemma ApplySortOf(ws: seq<Wallpaper>, key: string, k: SortKey, tables: PopularityTables,
                    localeCompare: (string, string) -> int)
    requires SortKeyOf(key) == Some(k)
    ensures ApplySort(ws, key, tables, localeCompare) == SortWith(ws, k, tables, localeCompare)
  {
  }

  /** `getFilteredAndSorted(ws)`: a rearrangement of exactly the entries that pass the
      filters. */
  function GetFilteredAndSorted(ws: seq<Wallpaper>, f: Filters, key: string, tables: PopularityTables,
                                localeCompare: (string, string) -> int): (r: seq<Wallpaper>)
    ensures multiset(r) == multiset(Seqs.Filter(ws, KeepsTest(f)))
    ensures forall i :: 0 <= i < |r| ==> Keeps(f, r[i])
  {
    var r := ApplySort(ApplyFilters(ws, f), key, tables, localeCompare);
    ApplyFiltersIsKeeps(ws, f);
    Seqs.AllInPermutation(r, ApplyFilters(ws, f), KeepsTest(f));
    r
  }

  // ---------------------------------------------------------------------------------------
  // The store's state and actions

  class FilterStore {
    var searchQuery: string
    var debouncedQuery: string
    var sortBy: string
    var formatFilter: string
    var categoryFilter: string
    var subcategoryFilter: string

    /** The filters as `applyFilters` reads them. */
    function Current(): Filters
      reads this
    {
      Filters(debouncedQuery, formatFilter, categoryFilter, subcategoryFilter)
    }

    /** A new store; `storedSort` and `storedCategory` are the saved preferences, `""` when
        none is saved. */
    constructor (storedSort: string, storedCategory: string)
      ensures searchQuery == "" && debouncedQuery == ""
      ensures sortBy == (if storedSort != "" then storedSort else "newest")
      ensures formatFilter == "all" && subcategoryFilter == "all"
      ensures categoryFilter == (if storedCategory != "" then storedCategory else "all")
    {
      searchQuery := "";
      debouncedQuery := "";
      sortBy := if storedSort != "" then storedSort else "newest";
      formatFilter := "all";
      categoryFilter := if storedCategory != "" then storedCategory else "all";
      subcategoryFilter := "all";
    }

    /** `resetFilters(defaultSort)`: no filter stays active. */
    method ResetFilters(defaultSort: string)
      modifies this
      ensures searchQuery == "" && debouncedQuery == ""
      ensures formatFilter == "all" && categoryFilter == "all" && subcategoryFilter == "all"
      ensures sortBy == defaultSort
      ensures !HasActiveFilters(Current())
    {
      searchQuery := "";
      debouncedQuery := "";
      formatFilter := "all";
      categoryFilter := "all";
      subcategoryFilter := "all";
      sortBy := defaultSort;
    }

    /** `setDefaultSortBySeries(series)`: `'popular'` for mobile and avatar, else `'newest'`. */
    method SetDefaultSortBySeries(series: string)
      modifies this
      ensures sortBy == (if series == "mobile" || series == "avatar" then "popular" else "newest")
      ensures searchQuery == old(searchQuery) && debouncedQuery == old(debouncedQuery)
      ensures Current() == old(Current())
    {
      sortBy := if series in ["mobile", "avatar"] then "popular" else "newest";
    }

    /** `resetSubcategory()`. */
    method ResetSubcategory()
      modifies this
      ensures subcategoryFilter == "all"
      ensures searchQuery == old(searchQuery) && debouncedQuery == old(debouncedQuery)
      ensures sortBy == old(sortBy) && formatFilter == old(formatFilter) && categoryFilter == old(categoryFilter)
    {
      subcategoryFilter := "all";
    }
  }
}
