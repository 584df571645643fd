/** The templated output of one content section: what `output_item`,
    `output_linkables`, `output_archive`, `output_feed` and `output_all`
    write. Rendering a template, creating a directory and writing the feed
    are recorded as events in an append-only log; the log is the model's
    view of the output tree. */
module Output {
  import opened Common
  import opened Strings
  import opened Items
  import opened Buckets
  import Ordering
  import Pagination
  import Linkables
  import Archive

  // ---------------------------------------------------------------------------
  // Template contexts

  /** A value in a template context. */
  datatype Ctx =
    | Attr(v: Value)                          // an item attribute or an extra context value
    | Text(s: string)
    | Number(n: int)
    | Listing(items: seq<Item>)
    | Dated(entries: seq<Archive.YearGroup>)

  /** Where a section is rendered from and to, and the extra context given on
      the command line or in the configuration. */
  datatype Env = Env(root: string, outRoot: string, extra: map<string, Value>)

  /** A dict display `{k1: v1, ..., **m1, **m2}`: its fixed entries, then
      the mappings spread into it, in writing order. */
  datatype Context = Context(fixed: seq<(string, Ctx)>, spread: seq<map<string, Value>>)

  /** The value of the last fixed entry for `k`. */
  function LookupFixed(fixed: seq<(string, Ctx)>, k: string): Option<Ctx>
    decreases |fixed|
  {
    if fixed == [] then None
    else if fixed[|fixed| - 1].0 == k then Some(fixed[|fixed| - 1].1)
    else LookupFixed(fixed[..|fixed| - 1], k)
  }

  /** The value for `k` in the last spread mapping that has it. */
  function LookupSpread(spread: seq<map<string, Value>>, k: string): Option<Ctx>
    decreases |spread|
  {
    if spread == [] then None
    else if k in spread[|spread| - 1] then Some(Attr(spread[|spread| - 1][k]))
    else LookupSpread(spread[..|spread| - 1], k)
  }

  /** `context[k]`: in a dict display a later key replaces an earlier one. */
  function Lookup(c: Context, k: string): Option<Ctx>
  {
    var s := LookupSpread(c.spread, k);
    if s.Some? then s else LookupFixed(c.fixed, k)
  }

  /** `{'root': item_root, **context, **item}`. */
  function ItemContext(env: Env, item: Item): Context
  {
    Context([("root", Text(env.root))], [env.extra, item])
  }

  /** The heading of a linkable page. */
  function Label(value: string): string
  {
    "Posts Tagged \"" + value + "\""
  }

  /** The context of a linkable page; the group is listed under the last
      component of the section's path. */
  function LinkContext(env: Env, all: seq<Item>, value: string, group: seq<Item>): Context
  {
    Context([("root", Text(env.root)), ("context", Text(Label(value))), ("all_items", Listing(all)),
             (LastComponent(env.root), Listing(group))], [env.extra])
  }

  /** The context of an archive page; the entries are listed under the whole
      section path. */
  function ArchiveContext(env: Env, all: seq<Item>, entries: seq<Archive.YearGroup>): Context
  {
    Context([("root", Text(env.root)), ("all_items", Listing(all)), (env.root, Dated(entries))], [env.extra])
  }

  /** The context of a listing page. */
  function PageContext(env: Env, all: seq<Item>, page: nat, pageCount: nat, items: seq<Item>): Context
  {
    Context([("root", Text(env.root)), ("all_items", Listing(all)), ("page", Number(page)),
             ("page_count", Number(pageCount)), (LastComponent(env.root), Listing(items))], [env.extra])
  }

  // ---------------------------------------------------------------------------
  // Events

  /** The step that produced an event: the section's own directory, then
      the steps of `output_all`. */
  datatype Stage = SectionStage | ItemStage | LinkStage | ArchiveStage | FeedStage | PageStage

  function StageRank(s: Stage): nat
  {
    match s
    case SectionStage => 0
    case ItemStage => 1
    case LinkStage => 2
    case ArchiveStage => 3
    case FeedStage => 4
    case PageStage => 5
  }

  datatype Action =
    | Mkdir(path: string)
    | Render(path: string, templates: seq<string>, context: Context)   // the first existing template renders the context
    | WriteFeed(path: string, items: seq<Item>)

  datatype Event = Event(stage: Stage, action: Action)

  // ---------------------------------------------------------------------------
  // Output names

  /** `item['slug'] + '.html'`. */
  function ItemFile(item: Item): string
    requires HasSlug(item)
  {
    Slug(item) + ".html"
  }

  /** `'index.html' if page_num == 1 else str(page_num) + '.html'`. */
  function PageFile(n: nat): string
  {
    if n == 1 then "index.html" else Decimal(n) + ".html"
  }

  function ItemEvent(env: Env, item: Item): Event
    requires HasSlug(item)
  {
    var name := ItemFile(item);
    Event(ItemStage, Render(PathJoin(env.outRoot, name),
                            [PathJoin(env.root, name), PathJoin(env.root, "item.html")],
                            ItemContext(env, item)))
  }

  /** `for item in all_items: output_item(...)`. */
  function ItemEvents(env: Env, items: seq<Item>): (r: seq<Event>)
    requires forall i :: 0 <= i < |items| ==> HasSlug(items[i])
    ensures |r| == |items|
  {
    seq(|items|, i requires 0 <= i < |items| => ItemEvent(env, items[i]))
  }

  // ---- linkables

  /** `<attr>/<value>.html` under the section's output directory. */
  function LinkPath(env: Env, attr: string, value: string): string
  {
    PathJoin(PathJoin(env.outRoot, attr), value + ".html")
  }

  function LinkDir(env: Env, attr: string): Event
  {
    Event(LinkStage, Mkdir(PathJoin(env.outRoot, attr)))
  }

  /** The page listing the items whose `attr` holds `value`. */
  function LinkPage(env: Env, all: seq<Item>, idx: Linkables.Index, attr: string, value: string): Event
  {
    Event(LinkStage, Render(LinkPath(env, attr, value), [PathJoin(env.root, "list.html")],
                            LinkContext(env, all, value, Linkables.Group(idx, attr, value))))
  }

  function ValueEvents(env: Env, all: seq<Item>, idx: Linkables.Index, attr: string, vs: seq<string>): seq<Event>
    decreases |vs|
  {
    if vs == [] then []
    else ValueEvents(env, all, idx, attr, vs[..|vs| - 1]) + [LinkPage(env, all, idx, attr, vs[|vs| - 1])]
  }

  function AttrEvents(env: Env, all: seq<Item>, idx: Linkables.Index, attr: string): seq<Event>
  {
    [LinkDir(env, attr)] + ValueEvents(env, all, idx, attr, InnerOf(idx, attr))
  }

  function LinkEvents(env: Env, all: seq<Item>, idx: Linkables.Index, attrs: seq<string>): seq<Event>
    decreases |attrs|
  {
    if attrs == [] then []
    else LinkEvents(env, all, idx, attrs[..|attrs| - 1]) + AttrEvents(env, all, idx, attrs[|attrs| - 1])
  }

  // ---- archive

  function ArchiveRoot(env: Env): string
  {
    PathJoin(env.outRoot, "archives")
  }

  function YearRoot(env: Env, year: string): string
  {
    PathJoin(ArchiveRoot(env), year)
  }

  /** The month directory: `month.strftime('%b').lower()` under the year's. */
  function MonthRoot(env: Env, year: string, m: Archive.MonthKey): string
  {
    PathJoin(YearRoot(env, year), MonthAbbrev(m.month))
  }

  function ArchiveDir(dir: string): Event
  {
    Event(ArchiveStage, Mkdir(dir))
  }

  /** `<dir>/index.html`, rendered with `archive.html` and the given entries. */
  function ArchivePage(env: Env, dir: string, all: seq<Item>, entries: seq<Archive.YearGroup>): Event
  {
    Event(ArchiveStage, Render(PathJoin(dir, "index.html"), [PathJoin(env.root, "archive.html")],
                               ArchiveContext(env, all, entries)))
  }

  /** One month of a year: its directory and its page, which lists that
      month's entries under the year. */
  function MonthPages(env: Env, all: seq<Item>, year: string, months: seq<Archive.MonthGroup>, j: nat): seq<Event>
    requires j < |months|
  {
    var m := months[j].month;
    [ArchiveDir(MonthRoot(env, year, m)),
     ArchivePage(env, MonthRoot(env, year, m), all, [Archive.YearGroup(year, Archive.MonthEntries(months, m))])]
  }

  function MonthEvents(env: Env, all: seq<Item>, year: string, months: seq<Archive.MonthGroup>, n: nat): seq<Event>
    requires n <= |months|
  {
    if n == 0 then [] else MonthEvents(env, all, year, months, n - 1) + MonthPages(env, all, year, months, n - 1)
  }

  /** The entries shown on the page of the k-th year. */
  function YearItems(a: seq<Archive.YearGroup>, k: nat): (r: seq<Archive.YearGroup>)
    requires k < |a|
    ensures a[k] in r
  {
    YearEntriesContains(a, k);
    Archive.YearEntries(a, a[k].year)
  }

  lemma {:induction false} YearEntriesContains(a: seq<Archive.YearGroup>, k: nat)
    requires k < |a|
    ensures a[k] in Archive.YearEntries(a, a[k].year)
    decreases k
  {
    if k > 0 {
      YearEntriesContains(a[1..], k - 1);
    }
  }

  function YearEvents(env: Env, all: seq<Item>, a: seq<Archive.YearGroup>, k: nat): seq<Event>
    requires k < |a|
  {
    var year := a[k].year;
    var months := YearItems(a, k)[0].months;
    [ArchiveDir(YearRoot(env, year)), ArchivePage(env, YearRoot(env, year), all, YearItems(a, k))]
    + MonthEvents(env, all, year, months, |months|)
  }

  /** What `n` passes of a loop write when pass `k` writes `f(k)`. */
  function Blocks(f: nat -> seq<Event>, n: nat): seq<Event>
  {
    if n == 0 then [] else Blocks(f, n - 1) + f(n - 1)
  }

  /** The first `n` years of the archive. */
  function YearsEvents(env: Env, all: seq<Item>, a: seq<Archive.YearGroup>, n: nat): seq<Event>
    requires n <= |a|
  {
    Blocks((k: nat) => if k < |a| then YearEvents(env, all, a, k) else [], n)
  }

  lemma YearsEventsStep(env: Env, all: seq<Item>, a: seq<Archive.YearGroup>, n: nat)
    requires n < |a|
    ensures YearsEvents(env, all, a, n + 1) == YearsEvents(env, all, a, n) + YearEvents(env, all, a, n)
  {
  }

  function ArchiveEvents(env: Env, all: seq<Item>, a: seq<Archive.YearGroup>): seq<Event>
  {
    [ArchiveDir(ArchiveRoot(env)), ArchivePage(env, ArchiveRoot(env), all, a)]
    + YearsEvents(env, all, a, |a|)
  }

  // ---- feed

  /** `items[:n]` with Python's slice semantics: a negative bound counts
      from the end. */
  function Prefix<T>(items: seq<T>, n: int): (r: seq<T>)
    ensures 0 <= n ==> r == items[..if n <= |items| then n else |items|]
    ensures n < 0 ==> r == items[..if -n <= |items| then |items| + n else 0]
  {
    if n >= 0 then items[..Pagination.Min(n, |items|)]
    else items[..if |items| + n >= 0 then |items| + n else 0]
  }

  function FeedEvent(env: Env, all: seq<Item>, numItems: int): Event
  {
    Event(FeedStage, WriteFeed(PathJoin(env.outRoot, "rss.xml"), Prefix(all, numItems)))
  }

  // ---- listing pages

  function PageEvent(env: Env, all: seq<Item>, p: Pagination.Page<Item>, pageCount: nat): Event
  {
    Event(PageStage, Render(PathJoin(env.outRoot, PageFile(p.number)), [PathJoin(env.root, "list.html")],
                            PageContext(env, all, p.number, pageCount, p.items)))
  }

  function PageEvents(env: Env, all: seq<Item>, pages: seq<Pagination.Page<Item>>, pageCount: nat): (r: seq<Event>)
    ensures |r| == |pages|
    decreases |pages|
  {
    if pages == [] then []
    else PageEvents(env, all, pages[..|pages| - 1], pageCount) + [PageEvent(env, all, pages[|pages| - 1], pageCount)]
  }

  // ---------------------------------------------------------------------------
  // The section driver

  datatype FeedRules = FeedRules(numItems: int)

  /** `config[item_root]`: the output rules of a section. */
  datatype Rules = Rules(
    orderBy: Option<string>,
    linkableBy: Option<seq<string>>,
    archiveBy: Option<string>,
    feed: Option<FeedRules>,
    numPerPage: Option<int>)

  /** The sort key of `order_by` over the section's items `items`. */
  function SortKey(items: seq<Item>, attr: string): Item -> int
  {
    (it: Item) => Rank(items, it, attr)
  }

  /** What a run of `output_all` writes, the order it leaves the items in,
      and whether it ends with an exception. */
  datatype Run = Run(events: seq<Event>, order: seq<Item>, outcome: Outcome)

  function LinkStageEvents(env: Env, rules: Rules, order: seq<Item>): Result<seq<Event>>
  {
    if rules.linkableBy.None? then Ok([])
    else
      var idx :- Linkables.Build(order, rules.linkableBy.value);
      Ok(LinkEvents(env, order, idx, idx.outer))
  }

  function ArchiveStageEvents(env: Env, rules: Rules, order: seq<Item>): Result<seq<Event>>
  {
    if rules.archiveBy.None? then Ok([])
    else
      var a :- Archive.ArchiveOf(order, rules.archiveBy.value);
      Ok(ArchiveEvents(env, order, a))
  }

  function FeedStageEvents(env: Env, rules: Rules, order: seq<Item>): seq<Event>
  {
    if rules.feed.None? then [] else [FeedEvent(env, order, rules.feed.value.numItems)]
  }

  /** `config[item_root].get('num_per_page', len(all_items))`. */
  function PageSize(rules: Rules, order: seq<Item>): int
  {
    if rules.numPerPage.Some? then rules.numPerPage.value else |order|
  }

  /** `page_count`, computed only inside the loop, hence only for positive
      sizes. */
  function PageCount(n: nat, size: int): nat
  {
    if size >= 1 then Pagination.CeilDiv(n, size) else 0
  }

  function PageStageEvents(env: Env, rules: Rules, order: seq<Item>): Result<seq<Event>>
  {
    var size := PageSize(rules, order);
    var pages :- Pagination.Paginate(size, order);
    Ok(PageEvents(env, order, pages, PageCount(|order|, size)))
  }

  /** Everything after the sort: linkables, archive, feed, then pages; each
      failing stage ends the run with what was written before it. */
  function AfterSort(env: Env, rules: Rules, order: seq<Item>): Run
  {
    match LinkStageEvents(env, rules, order)
    case Err(e) => Run([], order, Fail(e))
    case Ok(links) =>
      match ArchiveStageEvents(env, rules, order)
      case Err(e) => Run(links, order, Fail(e))
      case Ok(archive) =>
        var feed := FeedStageEvents(env, rules, order);
        match PageStageEvents(env, rules, order)
        case Err(e) => Run(links + archive + feed, order, Fail(e))
        case Ok(pages) => Run(links + archive + feed + pages, order, Pass)
  }

  /** A run preceded by events written before it. */
  function After(done: seq<Event>, run: Run): Run
  {
    Run(done + run.events, run.order, run.outcome)
  }

  /** `output_all`. */
  function Section(env: Env, meta: map<string, Rules>, items: seq<Item>): Run
    requires forall i :: 0 <= i < |items| ==> HasSlug(items[i])
  {
    var rendered := ItemEvents(env, items);
    if env.root !in meta then Run(rendered, items, Pass)
    else
      var rules := meta[env.root];
      if rules.orderBy.None? then After(rendered, AfterSort(env, rules, items))
      else
        var attr := rules.orderBy.value;
        match CheckOrderable(items, attr)
        case Fail(e) => Run(rendered, items, Fail(e))
        case Pass => After(rendered, AfterSort(env, rules, Ordering.OrderDescending(items, SortKey(items, attr))))
  }

  // ---------------------------------------------------------------------------
  // Steps of the event sequences, one loop iteration each

  lemma Assoc<T>(a: seq<T>, b: seq<T>, c: seq<T>)
    ensures (a + b) + c == a + (b + c)
  {
  }

  lemma ItemEventsStep(env: Env, items: seq<Item>, i: nat)
    requires i < |items| && forall k :: 0 <= k < |items| ==> HasSlug(items[k])
    ensures ItemEvents(env, items[..i + 1]) == ItemEvents(env, items[..i]) + [ItemEvent(env, items[i])]
  {
    var a := ItemEvents(env, items[..i + 1]);
    var b := ItemEvents(env, items[..i]) + [ItemEvent(env, items[i])];
    assert |a| == |b|;
    forall k | 0 <= k < |a| ensures a[k] == b[k] {
      assert items[..i + 1][k] == items[k];
      if k < i {
        assert items[..i][k] == items[k];
      }
    }
  }

  lemma ValueEventsStep(env: Env, all: seq<Item>, idx: Linkables.Index, attr: string, vs: seq<string>, j: nat)
    requires j < |vs|
    ensures ValueEvents(env, all, idx, attr, vs[..j + 1])
         == ValueEvents(env, all, idx, attr, vs[..j]) + [LinkPage(env, all, idx, attr, vs[j])]
  {
    assert vs[..j + 1][..j] == vs[..j];
  }

  lemma LinkEventsStep(env: Env, all: seq<Item>, idx: Linkables.Index, attrs: seq<string>, i: nat)
    requires i < |attrs|
    ensures LinkEvents(env, all, idx, attrs[..i + 1])
         == LinkEvents(env, all, idx, attrs[..i]) + AttrEvents(env, all, idx, attrs[i])
  {
    assert attrs[..i + 1][..i] == attrs[..i];
  }

  lemma PageEventsStep(env: Env, all: seq<Item>, pages: seq<Pagination.Page<Item>>, pageCount: nat, p: nat)
    requires p < |pages|
    ensures PageEvents(env, all, pages[..p + 1], pageCount)
         == PageEvents(env, all, pages[..p], pageCount) + [PageEvent(env, all, pages[p], pageCount)]
  {
    assert pages[..p + 1][..p] == pages[..p];
  }

  // ---------------------------------------------------------------------------
  // The writer

  /** `os.makedirs` of a section's output directory, which `.` skips. */
  function SectionDir(root: string, outputDir: string): (events: seq<Event>)
    ensures root == "." <==> events == []
  {
    if root != "." then [Event(SectionStage, Mkdir(PathJoin(outputDir, root)))] else []
  }

  /** The file one content file produces: its parsed mapping plus the slug. */
  function Loaded(files: seq<(string, map<string, Value>)>): (items: seq<Item>)
    ensures |items| == |files|
    ensures forall i :: 0 <= i < |files| ==> items[i] == LoadItem(files[i].0, files[i].1)
  {
    seq(|files|, i requires 0 <= i < |files| => LoadItem(files[i].0, files[i].1))
  }

  /** The output tree, as the sequence of everything written to it. */
  class Site {
    var log: seq<Event>

    constructor()
      ensures log == []
    {
      log := [];
    }

    /** `output_item`. */
    method OutputItem(env: Env, item: Item)
      requires HasSlug(item)
      modifies this
      ensures log == old(log) + [ItemEvent(env, item)]
    {
      var outFileName := Slug(item) + ".html";
      var template := PathJoin(env.root, "item.html");
      var specializedTemplate := PathJoin(env.root, outFileName);
      log := log + [Event(ItemStage, Render(PathJoin(env.outRoot, outFileName), [specializedTemplate, template],
                                            ItemContext(env, item)))];
    }

    /** `output_linkables`. */
    method OutputLinkables(env: Env, all: seq<Item>, attrs: seq<string>) returns (r: Outcome)
      modifies this
      ensures r.Pass? <==> Linkables.Build(all, attrs).Ok?
      ensures r.Fail? ==> log == old(log) && r.error == Linkables.Build(all, attrs).error
      ensures r.Pass? ==> var idx := Linkables.Build(all, attrs).value;
        log == old(log) + LinkEvents(env, all, idx, idx.outer)
    {
      var built := Linkables.Collect(all, attrs);
      if built.Err? {
        return Fail(built.error);
      }
      WriteLinkables(env, all, built.value);
      return Pass;
    }

    /** The writing half of `output_linkables`: a directory per attribute and
        a page per value, in the dictionary's order. */
    method WriteLinkables(env: Env, all: seq<Item>, linkables: Linkables.Index)
      modifies this
      ensures log == old(log) + LinkEvents(env, all, linkables, linkables.outer)
    {
      ghost var written := [];
      for i := 0 to |linkables.outer|
        invariant log == old(log) + written
        invariant written == LinkEvents(env, all, linkables, linkables.outer[..i])
      {
        var attr := linkables.outer[i];
        LinkEventsStep(env, all, linkables, linkables.outer, i);
        ghost var before := log;
        log := log + [LinkDir(env, attr)];
        WriteValues(env, all, linkables, attr);
        ghost var added := AttrEvents(env, all, linkables, attr);
        Assoc(before, [LinkDir(env, attr)], ValueEvents(env, all, linkables, attr, InnerOf(linkables, attr)));
        Assoc(old(log), written, added);
        written := written + added;
      }
      assert linkables.outer[..|linkables.outer|] == linkables.outer;
    }

    method WriteValues(env: Env, all: seq<Item>, linkables: Linkables.Index, attr: string)
      modifies this
      ensures log == old(log) + ValueEvents(env, all, linkables, attr, InnerOf(linkables, attr))
    {
      var values := InnerOf(linkables, attr);
      ghost var written := [];
      for j := 0 to |values|
        invariant log == old(log) + written
        invariant written == ValueEvents(env, all, linkables, attr, values[..j])
      {
        ValueEventsStep(env, all, linkables, attr, values, j);
        var page := LinkPage(env, all, linkables, attr, values[j]);
        Assoc(old(log), written, [page]);
        log := log + [page];
        written := written + [page];
      }
      assert values[..|values|] == values;
    }

    /** `output_archive`. The year and month pages are written in ascending
        order (Python iterates a set there). */
    method OutputArchive(env: Env, all: seq<Item>, attr: string) returns (r: Outcome)
      modifies this
      ensures r.Pass? <==> Archive.ArchiveOf(all, attr).Ok?
      ensures r.Fail? ==> log == old(log) && r.error == Archive.ArchiveOf(all, attr).error
      ensures r.Pass? ==> log == old(log) + ArchiveEvents(env, all, Archive.ArchiveOf(all, attr).value)
    {
      var filed := Archive.Collect(all, attr);
      if filed.Err? {
        return Fail(filed.error);
      }
      var sortedArchive := Archive.Arrange(filed.value);
      WriteArchive(env, all, sortedArchive);
      return Pass;
    }

    /** The writing half of `output_archive`: the archive's own page, then
        each year's. */
    method WriteArchive(env: Env, all: seq<Item>, sortedArchive: seq<Archive.YearGroup>)
      modifies this
      ensures log == old(log) + ArchiveEvents(env, all, sortedArchive)
    {
      var archiveRoot := ArchiveRoot(env);
      var head := [ArchiveDir(archiveRoot), ArchivePage(env, archiveRoot, all, sortedArchive)];
      log := log + head;
      WriteYears(env, all, sortedArchive);
      Assoc(old(log), head, YearsEvents(env, all, sortedArchive, |sortedArchive|));
    }

    method WriteYears(env: Env, all: seq<Item>, sortedArchive: seq<Archive.YearGroup>)
      modifies this
      ensures log == old(log) + YearsEvents(env, all, sortedArchive, |sortedArchive|)
    {
      ghost var written := [];
      for k := 0 to |sortedArchive|
        invariant log == old(log) + written
        invariant written == YearsEvents(env, all, sortedArchive, k)
      {
        ghost var added := YearEvents(env, all, sortedArchive, k);
        Assoc(old(log), written, added);
        YearsEventsStep(env, all, sortedArchive, k);
        WriteYear(env, all, sortedArchive, k);
        written := written + added;
      }
    }

    /** One year of `output_archive`: the year's directory and page, then its
        months. */
    method WriteYear(env: Env, all: seq<Item>, sortedArchive: seq<Archive.YearGroup>, k: nat)
      requires k < |sortedArchive|
      modifies this
      ensures log == old(log) + YearEvents(env, all, sortedArchive, k)
    {
      var year := sortedArchive[k].year;
      var yearRoot := YearRoot(env, year);
      var yearItems := Archive.YearEntries(sortedArchive, year);
      YearEntriesContains(sortedArchive, k);
      var head := [ArchiveDir(yearRoot), ArchivePage(env, yearRoot, all, yearItems)];
      log := log + head;
      var months := yearItems[0].months;
      WriteMonths(env, all, year, months);
      Assoc(old(log), head, MonthEvents(env, all, year, months, |months|));
    }

    method WriteMonths(env: Env, all: seq<Item>, year: string, months: seq<Archive.MonthGroup>)
      modifies this
      ensures log == old(log) + MonthEvents(env, all, year, months, |months|)
    {
      ghost var written := [];
      for j := 0 to |months|
        invariant log == old(log) + written
        invariant written == MonthEvents(env, all, year, months, j)
      {
        var month := months[j].month;
        var monthRoot := MonthRoot(env, year, month);
        var monthItems := Archive.MonthEntries(months, month);
        var added := [ArchiveDir(monthRoot), ArchivePage(env, monthRoot, all, [Archive.YearGroup(year, monthItems)])];
        assert added == MonthPages(env, all, year, months, j);
        Assoc(old(log), written, added);
        log := log + added;
        written := written + added;
      }
    }

    /** `output_feed`: only which items the feed receives is modelled. */
    method OutputFeed(env: Env, all: seq<Item>, feed: FeedRules)
      modifies this
      ensures log == old(log) + [FeedEvent(env, all, feed.numItems)]
    {
      log := log + [Event(FeedStage, WriteFeed(PathJoin(env.outRoot, "rss.xml"), Prefix(all, feed.numItems)))];
    }

    /** `output_all`. `allItems` is the caller's list: sorting and reversing
        it is visible to the caller. */
    method OutputAll(env: Env, meta: map<string, Rules>, allItems: array<Item>) returns (r: Outcome)
      requires forall i :: 0 <= i < allItems.Length ==> HasSlug(allItems[i])
      modifies this, allItems
      ensures var run := Section(env, meta, old(allItems[..]));
        log == old(log) + run.events && allItems[..] == run.order && r == run.outcome
    {
      WriteItems(env, allItems);
      ghost var items := allItems[..];
      ghost var rendered := ItemEvents(env, items);
      if env.root !in meta {
        return Pass;
      }
      var rules := meta[env.root];
      if rules.orderBy.Some? {
        var attr := rules.orderBy.value;
        var check := CheckOrderable(allItems[..], attr);
        if check.Fail? {
          return check;
        }
        Ordering.SortInPlace(allItems, SortKey(allItems[..], attr));
        Ordering.ReverseInPlace(allItems);
        assert allItems[..] == Ordering.OrderDescending(items, SortKey(items, attr));
      }
      assert Section(env, meta, items) == After(rendered, AfterSort(env, rules, allItems[..]));
      r := OutputStages(env, rules, allItems[..]);
      Assoc(old(log), rendered, AfterSort(env, rules, allItems[..]).events);
    }

    /** The loop of `output_all` over the items. */
    method WriteItems(env: Env, items: array<Item>)
      requires forall i :: 0 <= i < items.Length ==> HasSlug(items[i])
      modifies this
      ensures log == old(log) + ItemEvents(env, items[..])
    {
      ghost var written := [];
      for i := 0 to items.Length
        invariant log == old(log) + written
        invariant written == ItemEvents(env, items[..i])
      {
        ItemEventsStep(env, items[..], i);
        assert items[..][..i] == items[..i] && items[..][..i + 1] == items[..i + 1];
        var item := items[i];
        Assoc(old(log), written, [ItemEvent(env, item)]);
        OutputItem(env, item);
        written := written + [ItemEvent(env, item)];
      }
      assert items[..items.Length] == items[..];
    }

    /** The stages of `output_all` after the sort. */
    method OutputStages(env: Env, rules: Rules, order: seq<Item>) returns (r: Outcome)
      modifies this
      ensures log == old(log) + AfterSort(env, rules, order).events
      ensures r == AfterSort(env, rules, order).outcome
    {
      ghost var written := [];
      r := Pass;
      if rules.linkableBy.Some? {
        r := OutputLinkables(env, order, rules.linkableBy.value);
        if r.Fail? {
          return;
        }
        written := LinkStageEvents(env, rules, order).value;
      }
      assert log == old(log) + written && written == LinkStageEvents(env, rules, order).value;
      ghost var links := written;
      if rules.archiveBy.Some? {
        r := OutputArchive(env, order, rules.archiveBy.value);
        if r.Fail? {
          return;
        }
        ghost var added := ArchiveStageEvents(env, rules, order).value;
        Assoc(old(log), written, added);
        written := written + added;
      }
      assert written == links + ArchiveStageEvents(env, rules, order).value;
      if rules.feed.Some? {
        OutputFeed(env, order, rules.feed.value);
        ghost var added := FeedStageEvents(env, rules, order);
        Assoc(old(log), written, added);
        written := written + added;
      }
      assert written == links + ArchiveStageEvents(env, rules, order).value + FeedStageEvents(env, rules, order);
      var numPerPage := if rules.numPerPage.Some? then rules.numPerPage.value else |order|;
      var paginator := Pagination.Paginate(numPerPage, order);
      if paginator.Err? {
        return Fail(paginator.error);
      }
      WritePages(env, order, paginator.value, PageCount(|order|, numPerPage));
      Assoc(old(log), written, PageStageEvents(env, rules, order).value);
      return Pass;
    }

    /** The loop of `output_all` over the pages. */
    method WritePages(env: Env, all: seq<Item>, pages: seq<Pagination.Page<Item>>, pageCount: nat)
      modifies this
      ensures log == old(log) + PageEvents(env, all, pages, pageCount)
    {
      ghost var written := [];
      for p := 0 to |pages|
        invariant log == old(log) + written
        invariant written == PageEvents(env, all, pages[..p], pageCount)
      {
        PageEventsStep(env, all, pages, pageCount, p);
        var page := PageEvent(env, all, pages[p], pageCount);
        Assoc(old(log), written, [page]);
        log := log + [page];
        written := written + [page];
      }
      assert pages[..|pages|] == pages;
    }

    /** One directory of `main`'s walk over the content tree: create the
        output directory (except for the top level), load every content file
        with its slug, and run `output_all` when there is at least one. */
    method OutputSection(outputDir: string, root: string, extra: map<string, Value>, meta: map<string, Rules>,
                         files: seq<(string, map<string, Value>)>) returns (r: Outcome)
      modifies this
      ensures files == [] ==> log == old(log) + SectionDir(root, outputDir) && r == Pass
      ensures files != [] ==>
        var run := Section(Env(root, PathJoin(outputDir, root), extra), meta, Loaded(files));
        log == old(log) + SectionDir(root, outputDir) + run.events && r == run.outcome
    {
      var outputRoot := PathJoin(outputDir, root);
      if root != "." {
        log := log + [Event(SectionStage, Mkdir(outputRoot))];
      }
      assert log == old(log) + SectionDir(root, outputDir);
      var allItems := new Item[|files|];
      ghost var created := log;
      for i := 0 to |files|
        invariant log == created
        invariant forall k :: 0 <= k < i ==> allItems[k] == LoadItem(files[k].0, files[k].1)
      {
        var (fileName, content) := files[i];
        allItems[i] := LoadItem(fileName, content);
      }
      assert allItems[..] == Loaded(files);
      r := Pass;
      if allItems.Length > 0 {
        r := OutputAll(Env(root, outputRoot, extra), meta, allItems);
      }
    }
  }
}
