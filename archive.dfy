/** The date hierarchy of `output_archive`: items are filed under the year
    string `date.strftime('%Y')` and the month `datetime.date(year, month, 1)`
    of their archive attribute, then arranged as a list of years, each with a
    list of months, each with its posts. */
module Archive {
  import opened Common
  import opened Strings
  import opened Items
  import opened Buckets
  import Ordering

  /** `datetime.date(date.year, date.month, 1)`. */
  datatype MonthKey = MonthKey(year: Year, month: Month)

  /** Months compare as the dates they are: by year, then by month. */
  function MonthOrdinal(m: MonthKey): int
  {
    m.year * 12 + m.month - 1
  }

  lemma MonthOrdinalOrder(m: MonthKey, n: MonthKey)
    ensures MonthOrdinal(m) < MonthOrdinal(n) <==> m.year < n.year || (m.year == n.year && m.month < n.month)
    ensures MonthOrdinal(m) == MonthOrdinal(n) <==> m == n
  {
  }

  /** `archive`: year strings, each year's months, and the posts of each. */
  type Dates = Nested<string, MonthKey, Item>

  /** Where `it` is filed: its year string and month. */
  predicate FiledUnder(it: Item, attr: string, y: string, m: MonthKey)
  {
    StampOf(it, attr).Ok?
    && var t := StampOf(it, attr).value;
    y == YearString(t.year) && m == MonthKey(t.year, t.month)
  }

  /** One pass of the filing loop: `archive[year][month].append(item)`. */
  function AddPost(d: Dates, it: Item, attr: string): Result<Dates>
  {
    var t :- StampOf(it, attr);
    Ok(Append(d, YearString(t.year), MonthKey(t.year, t.month), it))
  }

  /** The dictionary after the filing loop, or the first item's error. */
  function File(items: seq<Item>, attr: string): Result<Dates>
    decreases |items|
  {
    if items == [] then Ok(Empty())
    else
      var prev :- File(items[..|items| - 1], attr);
      AddPost(prev, items[|items| - 1], attr)
  }

  /** The items filed under (y, m), in section order. */
  function Posts(items: seq<Item>, attr: string, y: string, m: MonthKey): seq<Item>
    decreases |items|
  {
    if items == [] then []
    else
      Posts(items[..|items| - 1], attr, y, m)
      + (if FiledUnder(items[|items| - 1], attr, y, m) then [items[|items| - 1]] else [])
  }

  predicate AllStamped(items: seq<Item>, attr: string)
  {
    forall i :: 0 <= i < |items| ==> StampOf(items[i], attr).Ok?
  }

  // ---------------------------------------------------------------------------
  // Filing

  lemma {:induction false} FileOk(items: seq<Item>, attr: string)
    ensures File(items, attr).Ok? <==> AllStamped(items, attr)
    decreases |items|
  {
    if items != [] {
      FileOk(items[..|items| - 1], attr);
      AllStampedStep(items, attr);
    }
  }

  lemma AllStampedStep(items: seq<Item>, attr: string)
    requires items != []
    ensures AllStamped(items, attr) <==>
      AllStamped(items[..|items| - 1], attr) && StampOf(items[|items| - 1], attr).Ok?
  {
    var init := items[..|items| - 1];
    assert forall i :: 0 <= i < |init| ==> init[i] == items[i];
  }

  lemma {:induction false} FileValid(items: seq<Item>, attr: string)
    requires File(items, attr).Ok?
    ensures Valid(File(items, attr).value)
    decreases |items|
  {
    if items != [] {
      var init, it := items[..|items| - 1], items[|items| - 1];
      FileValid(init, attr);
      var t := StampOf(it, attr).value;
      AppendValid(File(init, attr).value, YearString(t.year), MonthKey(t.year, t.month), it);
    }
  }

  /** The list under (y, m) holds exactly the posts filed there, in order. */
  lemma {:induction false} FileLists(items: seq<Item>, attr: string, y: string, m: MonthKey)
    requires File(items, attr).Ok?
    ensures List(File(items, attr).value, y, m) == Posts(items, attr, y, m)
    decreases |items|
  {
    if items != [] {
      var init, it := items[..|items| - 1], items[|items| - 1];
      FileLists(init, attr, y, m);
      var t := StampOf(it, attr).value;
      AppendList(File(init, attr).value, YearString(t.year), MonthKey(t.year, t.month), it, y, m);
    }
  }

  lemma {:induction false} PostsMembers(items: seq<Item>, attr: string, y: string, m: MonthKey, x: Item)
    ensures x in Posts(items, attr, y, m) <==> x in items && FiledUnder(x, attr, y, m)
    decreases |items|
  {
    if items != [] {
      var init := items[..|items| - 1];
      PostsMembers(init, attr, y, m, x);
      assert items == init + [items[|items| - 1]];
    }
  }

  lemma {:induction false} FileErrorSticks(items: seq<Item>, attr: string, k: nat)
    requires k <= |items| && File(items[..k], attr).Err?
    ensures File(items, attr) == File(items[..k], attr)
    decreases |items| - k
  {
    if k < |items| {
      assert items[..k + 1][..k] == items[..k];
      FileErrorSticks(items, attr, k + 1);
    } else {
      assert items[..k] == items;
    }
  }

  /** The first loop of `output_archive`. */
  method Collect(items: seq<Item>, attr: string) returns (r: Result<Dates>)
    ensures r == File(items, attr)
  {
    var archive: Dates := Empty();
    for i := 0 to |items|
      invariant File(items[..i], attr) == Ok(archive)
    {
      assert items[..i + 1][..i] == items[..i];
      var date := StampOf(items[i], attr);
      if date.Err? {
        FileErrorSticks(items, attr, i + 1);
        return Err(date.error);
      }
      var year := YearString(date.value.year);
      var month := MonthKey(date.value.year, date.value.month);
      archive := Append(archive, year, month, items[i]);
    }
    assert items[..|items|] == items;
    return Ok(archive);
  }

  // ---------------------------------------------------------------------------
  // Arranging: `sorted_archive`

  datatype MonthGroup = MonthGroup(month: MonthKey, posts: seq<Item>)
  datatype YearGroup = YearGroup(year: string, months: seq<MonthGroup>)

  function MonthOf(g: MonthGroup): int
  {
    MonthOrdinal(g.month)
  }

  /** `{'month': month, 'posts': archive[year][month]}` for the given months. */
  function GatherMonths(d: Dates, y: string, ms: seq<MonthKey>): seq<MonthGroup>
    decreases |ms|
  {
    if ms == [] then []
    else GatherMonths(d, y, ms[..|ms| - 1]) + [MonthGroup(ms[|ms| - 1], List(d, y, ms[|ms| - 1]))]
  }

  /** A year's entry with its months sorted by date. */
  function YearEntry(d: Dates, y: string): YearGroup
  {
    YearGroup(y, Ordering.SortAscending(GatherMonths(d, y, InnerOf(d, y)), MonthOf))
  }

  function GatherYears(d: Dates, ys: seq<string>): seq<YearGroup>
    decreases |ys|
  {
    if ys == [] then [] else GatherYears(d, ys[..|ys| - 1]) + [YearEntry(d, ys[|ys| - 1])]
  }

  /** `sorted_archive.sort(key=lambda v: v['year'])`: a stable insertion sort
      on the year strings, which Python compares lexicographically. */
  function InsertYear(g: YearGroup, s: seq<YearGroup>): seq<YearGroup>
    decreases |s|
  {
    if s == [] || !StrLt(s[0].year, g.year) then [g] + s
    else [s[0]] + InsertYear(g, s[1..])
  }

  function SortYears(s: seq<YearGroup>): seq<YearGroup>
    decreases |s|
  {
    if s == [] then [] else InsertYear(s[0], SortYears(s[1..]))
  }

  /** `sorted_archive` as `output_archive` leaves it. */
  function Arranged(d: Dates): seq<YearGroup>
  {
    SortYears(GatherYears(d, d.outer))
  }

  /** The second loop of `output_archive`. */
  method Arrange(d: Dates) returns (sorted: seq<YearGroup>)
    ensures sorted == Arranged(d)
  {
    var entries := [];
    for i := 0 to |d.outer|
      invariant entries == GatherYears(d, d.outer[..i])
    {
      var year := d.outer[i];
      var sortedMonths := CollectMonths(d, year);
      assert d.outer[..i + 1][..i] == d.outer[..i];
      entries := entries + [YearGroup(year, Ordering.SortAscending(sortedMonths, MonthOf))];
    }
    assert d.outer[..|d.outer|] == d.outer;
    sorted := SortYears(entries);
  }

  /** The inner loop: one month entry per month of the year, in first-use
      order. */
  method CollectMonths(d: Dates, year: string) returns (months: seq<MonthGroup>)
    ensures months == GatherMonths(d, year, InnerOf(d, year))
  {
    var ms := InnerOf(d, year);
    months := [];
    for j := 0 to |ms|
      invariant months == GatherMonths(d, year, ms[..j])
    {
      assert ms[..j + 1][..j] == ms[..j];
      months := months + [MonthGroup(ms[j], List(d, year, ms[j]))];
    }
    assert ms[..|ms|] == ms;
  }


  // ---------------------------------------------------------------------------
  // Properties of the arrangement

  predicate YearsAscending(s: seq<YearGroup>)
  {
    forall i, j :: 0 <= i < j < |s| ==> StrLt(s[i].year, s[j].year)
  }

  function Years(s: seq<YearGroup>): seq<string>
  {
    seq(|s|, i requires 0 <= i < |s| => s[i].year)
  }

  lemma {:induction false} InsertYearPermutes(g: YearGroup, s: seq<YearGroup>)
    ensures multiset(InsertYear(g, s)) == multiset(s) + multiset{g}
    decreases |s|
  {
    if s != [] && StrLt(s[0].year, g.year) {
      InsertYearPermutes(g, s[1..]);
      assert s == [s[0]] + s[1..];
    }
  }

  lemma {:induction false} InsertYearAscending(g: YearGroup, s: seq<YearGroup>)
    requires YearsAscending(s)
    requires forall i :: 0 <= i < |s| ==> s[i].year != g.year
    ensures YearsAscending(InsertYear(g, s))
    decreases |s|
  {
    if s == [] {
    } else if !StrLt(s[0].year, g.year) {
      StrLtTotal(s[0].year, g.year);
      forall j | 0 < j < |s| ensures StrLt(g.year, s[j].year) {
        StrLtTransitive(g.year, s[0].year, s[j].year);
      }
      ConsAscending(g, s);
    } else {
      var tail := InsertYear(g, s[1..]);
      InsertYearAscending(g, s[1..]);
      InsertYearPermutes(g, s[1..]);
      forall j | 0 <= j < |tail| ensures StrLt(s[0].year, tail[j].year) {
        assert tail[j] in multiset(tail);
        if tail[j] != g {
          assert tail[j] in multiset(s[1..]);
          var m :| 0 <= m < |s[1..]| && s[1..][m] == tail[j];
          assert s[1 + m] == tail[j];
        }
      }
      ConsAscending(s[0], tail);
    }
  }

  /** An entry whose year precedes every year of an ascending list can go
      in front of it. */
  lemma ConsAscending(g: YearGroup, s: seq<YearGroup>)
    requires YearsAscending(s)
    requires forall j :: 0 <= j < |s| ==> StrLt(g.year, s[j].year)
    ensures YearsAscending([g] + s)
  {
    var r := [g] + s;
    forall i, j | 0 <= i < j < |r| ensures StrLt(r[i].year, r[j].year) {
      if i > 0 { assert r[i] == s[i - 1] && r[j] == s[j - 1]; }
      else { assert r[j] == s[j - 1]; }
    }
  }


  /** The first year of a list with distinct years is not among the years of
      any rearrangement of the rest. */
  lemma HeadYearNotInRest(s: seq<YearGroup>, r: seq<YearGroup>)
    requires s != [] && Distinct(Years(s))
    requires multiset(r) == multiset(s[1..])
    ensures forall i :: 0 <= i < |r| ==> r[i].year != s[0].year
  {
    forall i | 0 <= i < |r| ensures r[i].year != s[0].year {
      assert r[i] in multiset(s[1..]);
      var m :| 0 <= m < |s[1..]| && s[1..][m] == r[i];
      assert Years(s)[0] == s[0].year && Years(s)[m + 1] == s[m + 1].year;
    }
  }

  /** With distinct years, the sort yields the same entries with the year
      strings strictly increasing. */
  lemma SortYearsCorrect(s: seq<YearGroup>)
    requires Distinct(Years(s))
    ensures multiset(SortYears(s)) == multiset(s)
    ensures YearsAscending(SortYears(s))
  {
    SortYearsPermutes(s);
    SortYearsAscending(s);
  }

  lemma {:induction false} SortYearsPermutes(s: seq<YearGroup>)
    ensures multiset(SortYears(s)) == multiset(s)
    decreases |s|
  {
    if s != [] {
      SortYearsPermutes(s[1..]);
      InsertYearPermutes(s[0], SortYears(s[1..]));
      ConsMultiset(s);
    }
  }

  lemma ConsMultiset<T>(s: seq<T>)
    requires s != []
    ensures multiset(s) == multiset(s[1..]) + multiset{s[0]}
  {
    assert s == [s[0]] + s[1..];
  }

  lemma {:induction false} SortYearsAscending(s: seq<YearGroup>)
    requires Distinct(Years(s))
    ensures YearsAscending(SortYears(s))
    decreases |s|
  {
    if s != [] {
      DistinctYearsTail(s);
      SortYearsAscending(s[1..]);
      SortYearsPermutes(s[1..]);
      HeadYearNotInRest(s, SortYears(s[1..]));
      InsertYearAscending(s[0], SortYears(s[1..]));
    }
  }


  lemma DistinctYearsTail(s: seq<YearGroup>)
    requires s != [] && Distinct(Years(s))
    ensures Distinct(Years(s[1..]))
  {
    assert Years(s[1..]) == Years(s)[1..];
  }


  lemma {:induction false} GatherYearsShape(d: Dates, ys: seq<string>)
    ensures |GatherYears(d, ys)| == |ys|
    ensures forall i :: 0 <= i < |ys| ==> GatherYears(d, ys)[i] == YearEntry(d, ys[i])
    decreases |ys|
  {
    if ys != [] {
      var init := ys[..|ys| - 1];
      GatherYearsShape(d, init);
    }
  }

  lemma {:induction false} GatherMonthsShape(d: Dates, y: string, ms: seq<MonthKey>)
    ensures |GatherMonths(d, y, ms)| == |ms|
    ensures forall i :: 0 <= i < |ms| ==> GatherMonths(d, y, ms)[i] == MonthGroup(ms[i], List(d, y, ms[i]))
    decreases |ms|
  {
    if ms != [] {
      GatherMonthsShape(d, y, ms[..|ms| - 1]);
    }
  }

  /** The arranged archive of a filing: one entry per year, years strictly
      increasing as strings, and the entries those of the dictionary. */
  lemma ArrangedYears(d: Dates)
    requires Valid(d)
    ensures multiset(Arranged(d)) == multiset(GatherYears(d, d.outer))
    ensures YearsAscending(Arranged(d))
    ensures forall g :: g in Arranged(d) <==> g.year in d.outer && g == YearEntry(d, g.year)
  {
    var gathered := GatherYears(d, d.outer);
    GatherYearsShape(d, d.outer);
    assert Years(gathered) == d.outer;
    SortYearsCorrect(gathered);
    forall g ensures g in Arranged(d) <==> g.year in d.outer && g == YearEntry(d, g.year) {
      assert g in Arranged(d) <==> g in multiset(gathered);
      GatheredMembers(d, g);
    }
  }

  /** The gathered entries are exactly one entry per year. */
  lemma GatheredMembers(d: Dates, g: YearGroup)
    ensures g in GatherYears(d, d.outer) <==> g.year in d.outer && g == YearEntry(d, g.year)
  {
    var gathered := GatherYears(d, d.outer);
    GatherYearsShape(d, d.outer);
    if g in gathered {
      var i :| 0 <= i < |gathered| && gathered[i] == g;
    }
    if g.year in d.outer && g == YearEntry(d, g.year) {
      var i :| 0 <= i < |d.outer| && d.outer[i] == g.year;
      assert gathered[i] == g;
    }
  }


  /** Each year's months are in date order and are the dictionary's months
      of that year, each once, with their lists. */
  lemma YearEntryMonths(d: Dates, y: string)
    requires Valid(d)
    ensures Ordering.Ascending(YearEntry(d, y).months, MonthOf)
    ensures |YearEntry(d, y).months| == |InnerOf(d, y)|
    ensures forall g :: g in YearEntry(d, y).months <==> g.month in InnerOf(d, y) && g.posts == List(d, y, g.month)
  {
    var ms := InnerOf(d, y);
    var gathered := GatherMonths(d, y, ms);
    GatherMonthsShape(d, y, ms);
    Ordering.SortAscendingCorrect(gathered, MonthOf);
    var sorted := YearEntry(d, y).months;
    assert |multiset(sorted)| == |multiset(gathered)|;
    forall g ensures g in sorted <==> g.month in ms && g.posts == List(d, y, g.month) {
      assert g in sorted <==> g in multiset(gathered);
      if g in gathered {
        var i :| 0 <= i < |gathered| && gathered[i] == g;
      }
      if g.month in ms && g.posts == List(d, y, g.month) {
        var i :| 0 <= i < |ms| && ms[i] == g.month;
        assert gathered[i] == g;
      }
    }
  }

  // ---------------------------------------------------------------------------
  // From the section's items to the archive

  /** The two loops together: `sorted_archive`, or the first item's error. */
  function ArchiveOf(items: seq<Item>, attr: string): Result<seq<YearGroup>>
  {
    var d :- File(items, attr);
    Ok(Arranged(d))
  }

  /** `output_archive` fails exactly when some item lacks a timestamp under
      the archive attribute. */
  lemma ArchiveOfOk(items: seq<Item>, attr: string)
    ensures ArchiveOf(items, attr).Ok? <==> AllStamped(items, attr)
  {
    FileOk(items, attr);
  }

  lemma ValidListNonEmpty(d: Dates, y: string, m: MonthKey)
    requires Valid(d) && y in d.inner && m in d.inner[y]
    ensures List(d, y, m) != []
  {
    assert (y, m) in d.lists;
  }

  /** Every month of every year holds exactly the posts filed under it, in
      section order, and at least one. */
  lemma ArchivePosts(items: seq<Item>, attr: string, g: YearGroup, mg: MonthGroup)
    requires ArchiveOf(items, attr).Ok?
    requires g in ArchiveOf(items, attr).value && mg in g.months
    ensures mg.posts == Posts(items, attr, g.year, mg.month)
    ensures mg.posts != []
  {
    var d := File(items, attr).value;
    FileValid(items, attr);
    ArrangedYears(d);
    YearEntryMonths(d, g.year);
    FileLists(items, attr, g.year, mg.month);
    ValidListNonEmpty(d, g.year, mg.month);
  }

  /** Every post is filed under the year string and month of its own date. */
  lemma ArchivePostsFiled(items: seq<Item>, attr: string, g: YearGroup, mg: MonthGroup, x: Item)
    requires ArchiveOf(items, attr).Ok?
    requires g in ArchiveOf(items, attr).value && mg in g.months
    ensures x in mg.posts <==> x in items && FiledUnder(x, attr, g.year, mg.month)
  {
    ArchivePosts(items, attr, g, mg);
    PostsMembers(items, attr, g.year, mg.month, x);
  }

  /** No item is lost: each appears in the month of its own date. */
  lemma ArchiveCovers(items: seq<Item>, attr: string, x: Item)
    requires ArchiveOf(items, attr).Ok? && x in items
    ensures exists g, mg :: g in ArchiveOf(items, attr).value && mg in g.months && x in mg.posts
  {
    var d := File(items, attr).value;
    var y, m := FiledAt(items, attr, x);
    var g, mg := EntryAt(d, y, m);
    assert g in ArchiveOf(items, attr).value && mg in g.months && x in mg.posts;
  }

  /** Where the filing loop puts an item of the section. */
  lemma FiledAt(items: seq<Item>, attr: string, x: Item) returns (y: string, m: MonthKey)
    requires File(items, attr).Ok? && x in items
    ensures Valid(File(items, attr).value)
    ensures (y, m) in File(items, attr).value.lists && x in List(File(items, attr).value, y, m)
  {
    var d := File(items, attr).value;
    FileOk(items, attr);
    FileValid(items, attr);
    var k :| 0 <= k < |items| && items[k] == x;
    var t := StampOf(x, attr).value;
    y, m := YearString(t.year), MonthKey(t.year, t.month);
    PostsMembers(items, attr, y, m, x);
    FileLists(items, attr, y, m);
  }

  /** The year entry and month entry that list a filed (year, month). */
  lemma EntryAt(d: Dates, y: string, m: MonthKey) returns (g: YearGroup, mg: MonthGroup)
    requires Valid(d) && (y, m) in d.lists
    ensures g in Arranged(d) && mg in g.months && mg.posts == List(d, y, m)
  {
    ArrangedYears(d);
    g := YearEntry(d, y);
    YearEntryMonths(d, y);
    mg := MonthGroup(m, List(d, y, m));
  }


  /** Each month sits under the year string of its own year. */
  lemma ArchiveMonthYear(items: seq<Item>, attr: string, g: YearGroup, mg: MonthGroup)
    requires ArchiveOf(items, attr).Ok?
    requires g in ArchiveOf(items, attr).value && mg in g.months
    ensures g.year == YearString(mg.month.year)
  {
    ArchivePosts(items, attr, g, mg);
    ArchivePostsFiled(items, attr, g, mg, mg.posts[0]);
  }

  /** Within a year, no two months are the same month. */
  lemma YearEntryDistinct(d: Dates, y: string)
    requires Valid(d)
    ensures Distinct(YearEntry(d, y).months)
  {
    var ms := InnerOf(d, y);
    var gathered := GatherMonths(d, y, ms);
    GatherMonthsShape(d, y, ms);
    assert Distinct(gathered) by {
      forall i, j | 0 <= i < j < |gathered| ensures gathered[i] != gathered[j] {
        assert gathered[i].month == ms[i] && gathered[j].month == ms[j];
      }
    }
    Ordering.SortAscendingCorrect(gathered, MonthOf);
    DistinctPermutation(gathered, YearEntry(d, y).months);
  }

  /** The archive's year directories never clash: the year strings are
      strictly increasing, hence distinct. */
  lemma ArchiveYearsDistinct(items: seq<Item>, attr: string)
    requires ArchiveOf(items, attr).Ok?
    ensures var a := ArchiveOf(items, attr).value;
      YearsAscending(a) && Distinct(Years(a))
  {
    var d := File(items, attr).value;
    var a := Arranged(d);
    FileValid(items, attr);
    ArrangedYears(d);
    forall i, j | 0 <= i < j < |a| ensures Years(a)[i] != Years(a)[j] {
      StrLtIrreflexive(a[i].year);
    }
  }

  /** Two months of a year in the archive are different months of the
      calendar. */
  lemma YearMonthsDiffer(items: seq<Item>, attr: string, g: YearGroup, i: nat, j: nat)
    requires ArchiveOf(items, attr).Ok? && g in ArchiveOf(items, attr).value
    requires i < j < |g.months|
    ensures g.months[i].month.month != g.months[j].month.month
  {
    var d := File(items, attr).value;
    FileValid(items, attr);
    ArrangedYears(d);
    assert g == YearEntry(d, g.year);
    YearEntryMonths(d, g.year);
    YearEntryDistinct(d, g.year);
    var mi, mj := g.months[i], g.months[j];
    assert mi in g.months && mj in g.months;
    assert mi != mj;
    assert mi.month != mj.month;
    ArchiveMonthYear(items, attr, g, mi);
    ArchiveMonthYear(items, attr, g, mj);
    DecimalInjective(mi.month.year, mj.month.year);
  }

  /** Within a year, the month directories (`%b` in lower case) never clash,
      and no month appears twice. */
  lemma ArchiveMonthsDistinct(items: seq<Item>, attr: string, g: YearGroup)
    requires ArchiveOf(items, attr).Ok? && g in ArchiveOf(items, attr).value
    ensures Distinct(MonthNames(g)) && Distinct(MonthKeys(g.months))
  {
    var names := MonthNames(g);
    var keys := MonthKeys(g.months);
    forall i, j | 0 <= i < j < |names| ensures names[i] != names[j] {
      YearMonthsDiffer(items, attr, g, i, j);
      if names[i] == names[j] {
        MonthAbbrevInjective(g.months[i].month.month, g.months[j].month.month);
      }
    }
    forall i, j | 0 <= i < j < |keys| ensures keys[i] != keys[j] {
      YearMonthsDiffer(items, attr, g, i, j);
    }
  }

  /** `month.strftime('%b').lower()` for each month of a year. */
  function MonthNames(g: YearGroup): seq<string>
  {
    seq(|g.months|, i requires 0 <= i < |g.months| => MonthAbbrev(g.months[i].month.month))
  }

  // ---------------------------------------------------------------------------
  // The entries of the year and month pages

  /** `[i for i in sorted_archive if i['year'] == year]`. */
  function YearEntries(a: seq<YearGroup>, y: string): seq<YearGroup>
    decreases |a|
  {
    if a == [] then [] else (if a[0].year == y then [a[0]] else []) + YearEntries(a[1..], y)
  }

  /** `[i for i in year_items[0]['months'] if i['month'] == month]`. */
  function MonthEntries(ms: seq<MonthGroup>, m: MonthKey): seq<MonthGroup>
    decreases |ms|
  {
    if ms == [] then [] else (if ms[0].month == m then [ms[0]] else []) + MonthEntries(ms[1..], m)
  }

  /** With distinct years, a year page shows exactly that year's entry. */
  lemma {:induction false} YearEntriesSingle(a: seq<YearGroup>, k: nat)
    requires Distinct(Years(a)) && k < |a|
    ensures YearEntries(a, a[k].year) == [a[k]]
    decreases |a|
  {
    var y := a[k].year;
    assert Years(a[1..]) == Years(a)[1..];
    if k == 0 {
      assert forall j :: 0 <= j < |a| - 1 ==> Years(a[1..])[j] == Years(a)[j + 1] != Years(a)[0];
      YearEntriesNone(a[1..], y);
    } else {
      assert Years(a)[0] != Years(a)[k];
      YearEntriesSingle(a[1..], k - 1);
    }
  }

  lemma {:induction false} YearEntriesNone(a: seq<YearGroup>, y: string)
    requires y !in Years(a)
    ensures YearEntries(a, y) == []
    decreases |a|
  {
    if a != [] {
      assert Years(a)[0] == a[0].year;
      assert forall j :: 0 <= j < |a| - 1 ==> Years(a[1..])[j] == Years(a)[j + 1];
      YearEntriesNone(a[1..], y);
    }
  }

  function MonthKeys(ms: seq<MonthGroup>): seq<MonthKey>
  {
    seq(|ms|, i requires 0 <= i < |ms| => ms[i].month)
  }

  /** With distinct months, a month page shows exactly that month's entry. */
  lemma {:induction false} MonthEntriesSingle(ms: seq<MonthGroup>, k: nat)
    requires Distinct(MonthKeys(ms)) && k < |ms|
    ensures MonthEntries(ms, ms[k].month) == [ms[k]]
    decreases |ms|
  {
    var m := ms[k].month;
    assert MonthKeys(ms[1..]) == MonthKeys(ms)[1..];
    if k == 0 {
      assert forall j :: 0 <= j < |ms| - 1 ==> MonthKeys(ms[1..])[j] == MonthKeys(ms)[j + 1] != MonthKeys(ms)[0];
      MonthEntriesNone(ms[1..], m);
    } else {
      assert MonthKeys(ms)[0] != MonthKeys(ms)[k];
      MonthEntriesSingle(ms[1..], k - 1);
    }
  }

  lemma {:induction false} MonthEntriesNone(ms: seq<MonthGroup>, m: MonthKey)
    requires m !in MonthKeys(ms)
    ensures MonthEntries(ms, m) == []
    decreases |ms|
  {
    if ms != [] {
      assert MonthKeys(ms)[0] == ms[0].month;
      assert forall j :: 0 <= j < |ms| - 1 ==> MonthKeys(ms[1..])[j] == MonthKeys(ms)[j + 1];
      MonthEntriesNone(ms[1..], m);
    }
  }
}
