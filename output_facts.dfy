/** What a run of `output_all` guarantees about the output it writes: the
    order of its stages, what each stage writes, when it stops early, and
    the names of the files it produces. */
module OutputFacts {
  import opened Common
  import opened Strings
  import opened Items
  import opened Buckets
  import Ordering
  import Pagination
  import Linkables
  import Archive
  import opened Output

  // ---------------------------------------------------------------------------
  // Stages

  /** The events of one stage, in the order they were written. */
  function OfStage(events: seq<Event>, s: Stage): seq<Event>
    decreases |events|
  {
    if events == [] then []
    else OfStage(events[..|events| - 1], s) + (if events[|events| - 1].stage == s then [events[|events| - 1]] else [])
  }

  predicate AllOf(events: seq<Event>, s: Stage)
  {
    forall i :: 0 <= i < |events| ==> events[i].stage == s
  }

  /** Events come in stage order, with every rank between `lo` and `hi`. */
  predicate StagedWithin(events: seq<Event>, lo: nat, hi: nat)
  {
    && (forall i :: 0 <= i < |events| ==> lo <= StageRank(events[i].stage) <= hi)
    && (forall i, j :: 0 <= i < j < |events| ==> StageRank(events[i].stage) <= StageRank(events[j].stage))
  }

  predicate Staged(events: seq<Event>)
  {
    forall i, j :: 0 <= i < j < |events| ==> StageRank(events[i].stage) <= StageRank(events[j].stage)
  }

  lemma {:induction false} OfStageAppend(a: seq<Event>, b: seq<Event>, s: Stage)
    ensures OfStage(a + b, s) == OfStage(a, s) + OfStage(b, s)
    decreases |b|
  {
    if b == [] {
      assert a + b == a;
    } else {
      var init := b[..|b| - 1];
      OfStageAppend(a, init, s);
      assert (a + b)[..|a + b| - 1] == a + init;
    }
  }

  /** A block written by one stage projects to itself or to nothing. */
  lemma {:induction false} OfStageAll(events: seq<Event>, s: Stage, t: Stage)
    requires AllOf(events, s)
    ensures OfStage(events, t) == if s == t then events else []
    decreases |events|
  {
    if events != [] {
      var init, last := events[..|events| - 1], events[|events| - 1];
      assert AllOf(init, s) by {
        forall i | 0 <= i < |init| ensures init[i].stage == s { assert init[i] == events[i]; }
      }
      OfStageAll(init, s, t);
      assert last.stage == s;
      if s == t {
        assert OfStage(events, t) == OfStage(init, t) + [last];
        assert init + [last] == events;
      } else {
        assert OfStage(events, t) == OfStage(init, t);
      }
    }
  }

  lemma AllOfAppend(a: seq<Event>, b: seq<Event>, s: Stage)
    requires AllOf(a, s) && AllOf(b, s)
    ensures AllOf(a + b, s)
  {
    forall i | 0 <= i < |a + b| ensures (a + b)[i].stage == s {
      if i >= |a| {
        assert (a + b)[i] == b[i - |a|];
      }
    }
  }

  lemma StagedBlock(events: seq<Event>, s: Stage)
    requires AllOf(events, s)
    ensures StagedWithin(events, StageRank(s), StageRank(s))
  {
  }

  lemma StagedJoin(a: seq<Event>, b: seq<Event>, lo: nat, mid: nat, hi: nat)
    requires lo <= mid <= hi
    requires StagedWithin(a, lo, mid) && StagedWithin(b, mid, hi)
    ensures StagedWithin(a + b, lo, hi)
  {
    var c := a + b;
    forall i | 0 <= i < |c| ensures lo <= StageRank(c[i].stage) <= hi {
      if i < |a| {
        assert c[i] == a[i];
      } else {
        assert c[i] == b[i - |a|];
      }
    }
    forall i, j | 0 <= i < j < |c| ensures StageRank(c[i].stage) <= StageRank(c[j].stage) {
      if j < |a| {
        assert c[i] == a[i] && c[j] == a[j];
      } else if i >= |a| {
        assert c[i] == b[i - |a|] && c[j] == b[j - |a|];
      } else {
        assert c[i] == a[i] && c[j] == b[j - |a|];
      }
    }
  }

  // ---- each writer writes events of its own stage

  lemma ItemEventsStage(env: Env, items: seq<Item>)
    requires forall i :: 0 <= i < |items| ==> HasSlug(items[i])
    ensures AllOf(ItemEvents(env, items), ItemStage)
  {
  }

  lemma {:induction false} ValueEventsStage(env: Env, all: seq<Item>, idx: Linkables.Index, attr: string, vs: seq<string>)
    ensures AllOf(ValueEvents(env, all, idx, attr, vs), LinkStage)
    decreases |vs|
  {
    if vs != [] {
      var init := ValueEvents(env, all, idx, attr, vs[..|vs| - 1]);
      var page := LinkPage(env, all, idx, attr, vs[|vs| - 1]);
      ValueEventsStage(env, all, idx, attr, vs[..|vs| - 1]);
      AllOfSnoc(init, page, LinkStage);
    }
  }

  lemma {:induction false} LinkEventsStage(env: Env, all: seq<Item>, idx: Linkables.Index, attrs: seq<string>)
    ensures AllOf(LinkEvents(env, all, idx, attrs), LinkStage)
    decreases |attrs|
  {
    if attrs != [] {
      var attr := attrs[|attrs| - 1];
      var init := LinkEvents(env, all, idx, attrs[..|attrs| - 1]);
      var values := ValueEvents(env, all, idx, attr, InnerOf(idx, attr));
      LinkEventsStage(env, all, idx, attrs[..|attrs| - 1]);
      ValueEventsStage(env, all, idx, attr, InnerOf(idx, attr));
      AllOfAppend([LinkDir(env, attr)], values, LinkStage);
      AllOfAppend(init, AttrEvents(env, all, idx, attr), LinkStage);
    }
  }

  lemma {:induction false} MonthEventsStage(env: Env, all: seq<Item>, year: string, months: seq<Archive.MonthGroup>, n: nat)
    requires n <= |months|
    ensures AllOf(MonthEvents(env, all, year, months, n), ArchiveStage)
  {
    if n > 0 {
      var init := MonthEvents(env, all, year, months, n - 1);
      var pages := MonthPages(env, all, year, months, n - 1);
      MonthEventsStage(env, all, year, months, n - 1);
      MonthPagesStage(env, all, year, months, n - 1);
      AllOfAppend(init, pages, ArchiveStage);
    }
  }

  lemma MonthPagesStage(env: Env, all: seq<Item>, year: string, months: seq<Archive.MonthGroup>, j: nat)
    requires j < |months|
    ensures AllOf(MonthPages(env, all, year, months, j), ArchiveStage)
  {
  }

  lemma YearsEventsStage(env: Env, all: seq<Item>, a: seq<Archive.YearGroup>, n: nat)
    requires n <= |a|
    ensures AllOf(YearsEvents(env, all, a, n), ArchiveStage)
  {
    var f := (k: nat) => if k < |a| then YearEvents(env, all, a, k) else [];
    forall k: nat | k < n ensures AllOf(f(k), ArchiveStage) {
      YearEventsStage(env, all, a, k);
    }
    BlocksAllOf(f, n, ArchiveStage);
  }

  lemma YearEventsStage(env: Env, all: seq<Item>, a: seq<Archive.YearGroup>, k: nat)
    requires k < |a|
    ensures AllOf(YearEvents(env, all, a, k), ArchiveStage)
  {
    var months := YearItems(a, k)[0].months;
    MonthEventsStage(env, all, a[k].year, months, |months|);
    AllOfAppend([ArchiveDir(YearRoot(env, a[k].year)), ArchivePage(env, YearRoot(env, a[k].year), all, YearItems(a, k))],
                MonthEvents(env, all, a[k].year, months, |months|), ArchiveStage);
  }

  lemma {:induction false} BlocksAllOf(f: nat -> seq<Event>, n: nat, s: Stage)
    requires forall k: nat :: k < n ==> AllOf(f(k), s)
    ensures AllOf(Blocks(f, n), s)
    decreases n
  {
    if n > 0 {
      BlocksAllOf(f, n - 1, s);
      AllOfAppend(Blocks(f, n - 1), f(n - 1), s);
    }
  }


  lemma {:induction false} PageEventsStage(env: Env, all: seq<Item>, pages: seq<Pagination.Page<Item>>, pageCount: nat)
    ensures AllOf(PageEvents(env, all, pages, pageCount), PageStage)
    decreases |pages|
  {
    if pages != [] {
      var init := PageEvents(env, all, pages[..|pages| - 1], pageCount);
      var last := PageEvent(env, all, pages[|pages| - 1], pageCount);
      PageEventsStage(env, all, pages[..|pages| - 1], pageCount);
      AllOfSnoc(init, last, PageStage);
    }
  }

  lemma AllOfSnoc(init: seq<Event>, e: Event, s: Stage)
    requires AllOf(init, s) && e.stage == s
    ensures AllOf(init + [e], s)
  {
    AllOfAppend(init, [e], s);
  }

  lemma StageEventsStages(env: Env, rules: Rules, order: seq<Item>)
    ensures LinkStageEvents(env, rules, order).Ok? ==> AllOf(LinkStageEvents(env, rules, order).value, LinkStage)
    ensures ArchiveStageEvents(env, rules, order).Ok? ==> AllOf(ArchiveStageEvents(env, rules, order).value, ArchiveStage)
    ensures AllOf(FeedStageEvents(env, rules, order), FeedStage)
    ensures PageStageEvents(env, rules, order).Ok? ==> AllOf(PageStageEvents(env, rules, order).value, PageStage)
  {
    LinkStageOnly(env, rules, order);
    ArchiveStageOnly(env, rules, order);
    PageStageOnly(env, rules, order);
  }

  lemma LinkStageOnly(env: Env, rules: Rules, order: seq<Item>)
    ensures LinkStageEvents(env, rules, order).Ok? ==> AllOf(LinkStageEvents(env, rules, order).value, LinkStage)
  {
    if rules.linkableBy.Some? && Linkables.Build(order, rules.linkableBy.value).Ok? {
      var idx := Linkables.Build(order, rules.linkableBy.value).value;
      LinkEventsStage(env, order, idx, idx.outer);
    }
  }

  lemma ArchiveStageOnly(env: Env, rules: Rules, order: seq<Item>)
    ensures ArchiveStageEvents(env, rules, order).Ok? ==> AllOf(ArchiveStageEvents(env, rules, order).value, ArchiveStage)
  {
    if rules.archiveBy.Some? && Archive.ArchiveOf(order, rules.archiveBy.value).Ok? {
      var a := Archive.ArchiveOf(order, rules.archiveBy.value).value;
      YearsEventsStage(env, order, a, |a|);
    }
  }

  lemma PageStageOnly(env: Env, rules: Rules, order: seq<Item>)
    ensures PageStageEvents(env, rules, order).Ok? ==> AllOf(PageStageEvents(env, rules, order).value, PageStage)
  {
    var size := PageSize(rules, order);
    if size != 0 {
      PageEventsStage(env, order, Pagination.Paginate(size, order).value, PageCount(|order|, size));
    }
  }


  /** Blocks of the four later stages, joined in stage order. */
  lemma StagedChain(l: seq<Event>, a: seq<Event>, f: seq<Event>, p: seq<Event>)
    requires AllOf(l, LinkStage) && AllOf(a, ArchiveStage) && AllOf(f, FeedStage) && AllOf(p, PageStage)
    ensures StagedWithin(l, 2, 5) && StagedWithin(l + a + f, 2, 5) && StagedWithin(l + a + f + p, 2, 5)
  {
    StagedBlock(l, LinkStage);
    StagedBlock(a, ArchiveStage);
    StagedBlock(f, FeedStage);
    StagedBlock(p, PageStage);
    StagedJoin(l, a, 2, 2, 3);
    StagedJoin(l + a, f, 2, 3, 4);
    StagedJoin(l + a + f, p, 2, 4, 5);
    StagedJoin(l, [], 2, 2, 5);
    StagedJoin(l + a + f, [], 2, 4, 5);
    assert l + [] == l && l + a + f + [] == l + a + f;
  }

  /** After the sort, events come in the order linkables, archive, feed,
      pages. */
  lemma AfterSortStaged(env: Env, rules: Rules, order: seq<Item>)
    ensures StagedWithin(AfterSort(env, rules, order).events, 2, 5)
  {
    StageEventsStages(env, rules, order);
    var links := LinkStageEvents(env, rules, order);
    var archive := ArchiveStageEvents(env, rules, order);
    var feed := FeedStageEvents(env, rules, order);
    var pages := PageStageEvents(env, rules, order);
    var l := if links.Ok? then links.value else [];
    var a := if archive.Ok? then archive.value else [];
    var p := if pages.Ok? then pages.value else [];
    StagedChain(l, a, feed, p);
    var events := AfterSort(env, rules, order).events;
    if links.Err? {
      assert events == [];
    } else if archive.Err? {
      assert events == l;
    } else if pages.Err? {
      assert events == l + a + feed;
    } else {
      assert events == l + a + feed + p;
    }
  }

  /** The cases of a run: no rules, values that cannot be compared, or the
      stages after the sort on the final order, preceded by the rendered
      items. */
  lemma SectionShape(env: Env, meta: map<string, Rules>, items: seq<Item>)
    requires forall i :: 0 <= i < |items| ==> HasSlug(items[i])
    ensures env.root !in meta ==> Section(env, meta, items) == Run(ItemEvents(env, items), items, Pass)
    ensures env.root in meta && meta[env.root].orderBy.Some?
              && CheckOrderable(items, meta[env.root].orderBy.value).Fail? ==>
      Section(env, meta, items) == Run(ItemEvents(env, items), items, CheckOrderable(items, meta[env.root].orderBy.value))
    ensures env.root in meta && meta[env.root].orderBy.None? ==>
      Section(env, meta, items) == After(ItemEvents(env, items), AfterSort(env, meta[env.root], items))
    ensures env.root in meta && meta[env.root].orderBy.Some?
              && CheckOrderable(items, meta[env.root].orderBy.value).Pass? ==>
      Section(env, meta, items)
      == After(ItemEvents(env, items),
               AfterSort(env, meta[env.root], Ordering.OrderDescending(items, SortKey(items, meta[env.root].orderBy.value))))
  {
  }

  /** A run writes the rendered items, possibly followed by the stages after
      the sort on the final order. */
  lemma SectionEvents(env: Env, meta: map<string, Rules>, items: seq<Item>)
    requires forall i :: 0 <= i < |items| ==> HasSlug(items[i])
    ensures var run := Section(env, meta, items);
      || (run.events == ItemEvents(env, items) && run.order == items && (run.outcome.Pass? ==> env.root !in meta))
      || (env.root in meta && run == After(ItemEvents(env, items), AfterSort(env, meta[env.root], run.order)))
  {
    SectionShape(env, meta, items);
    if env.root in meta {
      var rules := meta[env.root];
      if rules.orderBy.None? {
        AfterSortOrder(env, rules, items);
      } else if CheckOrderable(items, rules.orderBy.value).Pass? {
        AfterSortOrder(env, rules, Ordering.OrderDescending(items, SortKey(items, rules.orderBy.value)));
      }
    }
  }

  /** `output_all` renders every item first, stops there when the section has
      no rules, and otherwise writes the later stages in the fixed order
      linkables, archive, feed, pages. */
  lemma SectionStaged(env: Env, meta: map<string, Rules>, items: seq<Item>)
    requires forall i :: 0 <= i < |items| ==> HasSlug(items[i])
    ensures Staged(Section(env, meta, items).events)
    ensures |Section(env, meta, items).events| >= |items|
    ensures Section(env, meta, items).events[..|items|] == ItemEvents(env, items)
    ensures OfStage(Section(env, meta, items).events, ItemStage) == ItemEvents(env, items)
    ensures env.root !in meta ==> Section(env, meta, items) == Run(ItemEvents(env, items), items, Pass)
  {
    var run := Section(env, meta, items);
    var rendered := ItemEvents(env, items);
    SectionEvents(env, meta, items);
    ItemEventsStage(env, items);
    StagedBlock(rendered, ItemStage);
    OfStageAll(rendered, ItemStage, ItemStage);
    if run.events != rendered {
      assert env.root in meta && run == After(rendered, AfterSort(env, meta[env.root], run.order));
      SectionStagedAfter(env, meta[env.root], rendered, run.order);
    } else {
      assert run.events[..|rendered|] == rendered;
    }
    if env.root !in meta {
      SectionShape(env, meta, items);
    }
  }

  /** The rendered items followed by the stages after the sort. */
  lemma SectionStagedAfter(env: Env, rules: Rules, rendered: seq<Event>, order: seq<Item>)
    requires AllOf(rendered, ItemStage)
    ensures Staged(After(rendered, AfterSort(env, rules, order)).events)
    ensures After(rendered, AfterSort(env, rules, order)).events[..|rendered|] == rendered
    ensures OfStage(After(rendered, AfterSort(env, rules, order)).events, ItemStage) == rendered
  {
    var after := AfterSort(env, rules, order).events;
    var events := After(rendered, AfterSort(env, rules, order)).events;
    assert events == rendered + after;
    StagedBlock(rendered, ItemStage);
    OfStageAll(rendered, ItemStage, ItemStage);
    AfterSortStaged(env, rules, order);
    StagedJoin(rendered, after, 1, 2, 5);
    AfterSortNoItems(env, rules, order);
    OfStageAppend(rendered, after, ItemStage);
    assert events[..|rendered|] == rendered;
  }

  lemma AfterSortNoItems(env: Env, rules: Rules, order: seq<Item>)
    ensures OfStage(AfterSort(env, rules, order).events, ItemStage) == []
  {
    var events := AfterSort(env, rules, order).events;
    AfterSortStaged(env, rules, order);
    NoStageBelow(events, ItemStage, 2);
  }

  lemma {:induction false} NoStageBelow(events: seq<Event>, s: Stage, lo: nat)
    requires forall i :: 0 <= i < |events| ==> lo <= StageRank(events[i].stage)
    requires StageRank(s) < lo
    ensures OfStage(events, s) == []
    decreases |events|
  {
    if events != [] {
      NoStageBelow(events[..|events| - 1], s, lo);
    }
  }

  // ---------------------------------------------------------------------------
  // Sorting and early ends

  lemma AfterSortOrder(env: Env, rules: Rules, order: seq<Item>)
    ensures AfterSort(env, rules, order).order == order
  {
  }

  /** Without `order_by` the items keep their order. With it, they end up a
      permutation of the input, sorted by non-increasing key, with items of
      equal key in the reverse of their input order; values that cannot be
      compared end the run right after the items are rendered. */
  lemma SectionOrder(env: Env, meta: map<string, Rules>, items: seq<Item>)
    requires forall i :: 0 <= i < |items| ==> HasSlug(items[i])
    ensures var run := Section(env, meta, items);
      (env.root !in meta || meta[env.root].orderBy.None?) ==> run.order == items
    ensures var run := Section(env, meta, items);
      env.root in meta && meta[env.root].orderBy.Some? ==>
        var attr := meta[env.root].orderBy.value;
        var key := SortKey(items, attr);
        && (CheckOrderable(items, attr).Fail? ==>
              run == Run(ItemEvents(env, items), items, CheckOrderable(items, attr)))
        && (CheckOrderable(items, attr).Pass? ==>
              && multiset(run.order) == multiset(items)
              && Ordering.Descending(run.order, key)
              && forall k :: Ordering.WithKey(run.order, key, k) == Ordering.Reverse(Ordering.WithKey(items, key, k)))
  {
    if env.root in meta {
      var rules := meta[env.root];
      if rules.orderBy.Some? {
        var attr := rules.orderBy.value;
        var sorted := Ordering.OrderDescending(items, SortKey(items, attr));
        AfterSortOrder(env, rules, sorted);
        Ordering.OrderDescendingCorrect(items, SortKey(items, attr));
      } else {
        AfterSortOrder(env, rules, items);
      }
    }
  }

  /** The section's rules accept these items: each requested stage finds
      what it needs. */
  predicate Accepts(rules: Rules, items: seq<Item>)
  {
    && (rules.orderBy.Some? ==> CheckOrderable(items, rules.orderBy.value).Pass?)
    && (rules.linkableBy.Some? ==> Linkables.AllIterable(items, rules.linkableBy.value))
    && (rules.archiveBy.Some? ==> Archive.AllStamped(items, rules.archiveBy.value))
    && PageSize(rules, items) != 0
  }

  lemma PermutedMember(xs: seq<Item>, ys: seq<Item>, i: nat) returns (j: nat)
    requires multiset(xs) == multiset(ys) && i < |ys|
    ensures j < |xs| && xs[j] == ys[i]
  {
    assert ys[i] in multiset(ys);
    assert ys[i] in xs;
    j :| 0 <= j < |xs| && xs[j] == ys[i];
  }

  lemma PermutedAccepts(rules: Rules, xs: seq<Item>, ys: seq<Item>)
    requires multiset(xs) == multiset(ys) && rules.orderBy.None?
    ensures Accepts(rules, xs) <==> Accepts(rules, ys)
  {
    assert |xs| == |multiset(xs)| == |multiset(ys)| == |ys|;
    if rules.linkableBy.Some? {
      var attrs := rules.linkableBy.value;
      if Linkables.AllIterable(xs, attrs) {
        forall i, k | 0 <= i < |ys| && 0 <= k < |attrs| ensures LinkValues(ys[i], attrs[k]).Ok? {
          var j := PermutedMember(xs, ys, i);
        }
      }
      if Linkables.AllIterable(ys, attrs) {
        forall i, k | 0 <= i < |xs| && 0 <= k < |attrs| ensures LinkValues(xs[i], attrs[k]).Ok? {
          var j := PermutedMember(ys, xs, i);
        }
      }
    }
    if rules.archiveBy.Some? {
      var attr := rules.archiveBy.value;
      if Archive.AllStamped(xs, attr) {
        forall i | 0 <= i < |ys| ensures StampOf(ys[i], attr).Ok? {
          var j := PermutedMember(xs, ys, i);
        }
      }
      if Archive.AllStamped(ys, attr) {
        forall i | 0 <= i < |xs| ensures StampOf(xs[i], attr).Ok? {
          var j := PermutedMember(ys, xs, i);
        }
      }
    }
  }

  /** The stages after the sort all succeed exactly when the rules accept the
      items, in whatever order they are. */
  lemma AfterSortOutcome(env: Env, rules: Rules, order: seq<Item>)
    ensures AfterSort(env, rules, order).outcome.Pass? <==>
      && (rules.linkableBy.Some? ==> Linkables.AllIterable(order, rules.linkableBy.value))
      && (rules.archiveBy.Some? ==> Archive.AllStamped(order, rules.archiveBy.value))
      && PageSize(rules, order) != 0
  {
    if rules.linkableBy.Some? {
      Linkables.BuildOk(order, rules.linkableBy.value);
    }
    if rules.archiveBy.Some? {
      Archive.ArchiveOfOk(order, rules.archiveBy.value);
    }
  }

  /** `output_all` ends without an exception exactly when the section has no
      rules or its rules accept the items. */
  lemma SectionOutcome(env: Env, meta: map<string, Rules>, items: seq<Item>)
    requires forall i :: 0 <= i < |items| ==> HasSlug(items[i])
    ensures Section(env, meta, items).outcome.Pass? <==> env.root !in meta || Accepts(meta[env.root], items)
  {
    SectionShape(env, meta, items);
    if env.root in meta {
      var rules := meta[env.root];
      if rules.orderBy.None? {
        AfterSortOutcome(env, rules, items);
      } else if CheckOrderable(items, rules.orderBy.value).Pass? {
        SortedOutcome(env, rules, items);
      }
    }
  }

  /** With `order_by`, the sorted section is in Python's descending order of
      the values themselves: no value is smaller than one after it. Strings
      sort by Python's string order, as `order_by: 'slug'` needs. */
  lemma SortedByValue(items: seq<Item>, attr: string)
    requires CheckOrderable(items, attr).Pass?
    ensures multiset(Ordering.OrderDescending(items, SortKey(items, attr))) == multiset(items)
    ensures var order := Ordering.OrderDescending(items, SortKey(items, attr));
      forall i, j :: 0 <= i < j < |order| ==>
        attr in order[i] && attr in order[j] && !ValueLt(order[i][attr], order[j][attr])
  {
    var key := SortKey(items, attr);
    var order := Ordering.OrderDescending(items, key);
    Ordering.OrderDescendingCorrect(items, key);
    assert |order| == |multiset(order)| == |multiset(items)| == |items|;
    forall i, j | 0 <= i < j < |order|
      ensures attr in order[i] && attr in order[j] && !ValueLt(order[i][attr], order[j][attr])
    {
      var x, y := order[i], order[j];
      assert x in multiset(items) && y in multiset(items);
      var xi :| 0 <= xi < |items| && items[xi] == x;
      var yi :| 0 <= yi < |items| && items[yi] == y;
      assert attr in items[xi] && attr in items[yi];
      SameKindVia(x[attr], y[attr], items[0][attr]);
      Items.RankOrder(items, attr, x, y);
      assert key(x) >= key(y);
      assert Rank(items, x, attr) >= Rank(items, y, attr);
    }
  }

  /** `order_by: 'slug'`: two items loaded from `<a>.yaml` and `<b>.yaml`
      have string slugs, so the sort goes ahead, and with `a` before `b` in
      Python's string order it puts the `b` item first. */
  lemma SlugOrder(a: string, b: string, p: map<string, Value>, q: map<string, Value>)
    requires a != [] && a[0] != '.' && b != [] && b[0] != '.' && StrLt(a, b)
    ensures var items := [LoadItem(a + ".yaml", p), LoadItem(b + ".yaml", q)];
      && CheckOrderable(items, SlugKey).Pass?
      && Ordering.OrderDescending(items, SortKey(items, SlugKey)) == [items[1], items[0]]
  {
    YamlSlug(a, p);
    YamlSlug(b, q);
    TwoItemsOrder(LoadItem(a + ".yaml", p), LoadItem(b + ".yaml", q), SlugKey);
  }

  /** An item loaded from `<stem>.yaml` has the string slug `stem`. */
  lemma YamlSlug(stem: string, p: map<string, Value>)
    requires stem != [] && stem[0] != '.'
    ensures LoadItem(stem + ".yaml", p)[SlugKey] == Str(stem)
  {
    assert '.' !in "yaml";
    Strings.StripExtensionOfAdded(stem, "yaml");
    assert stem + "." + "yaml" == stem + ".yaml";
  }

  /** Two items whose values are in ascending order swap places. */
  lemma TwoItemsOrder(x: Item, y: Item, attr: string)
    requires attr in x && attr in y && SameKind(x[attr], y[attr]) && ValueLt(x[attr], y[attr])
    ensures CheckOrderable([x, y], attr).Pass?
    ensures Ordering.OrderDescending([x, y], SortKey([x, y], attr)) == [y, x]
  {
    var items := [x, y];
    var order := Ordering.OrderDescending(items, SortKey(items, attr));
    assert items[0] == x && items[1] == y;
    SameKindVia(y[attr], x[attr], x[attr]);
    SortedByValue(items, attr);
    assert multiset(order) == multiset{x, y};
    PairPermutation(order, x, y);
    PairDescending(order, x, y, attr);
  }

  lemma PairDescending(order: seq<Item>, x: Item, y: Item, attr: string)
    requires order == [x, y] || order == [y, x]
    requires attr in order[0] && attr in order[1] && !ValueLt(order[0][attr], order[1][attr])
    requires attr in x && attr in y && ValueLt(x[attr], y[attr])
    ensures order == [y, x]
  {
  }

  /** A sequence with the elements of a pair is the pair, in one order or the other. */
  lemma PairPermutation<T>(s: seq<T>, x: T, y: T)
    requires multiset(s) == multiset{x, y}
    ensures s == [x, y] || s == [y, x]
  {
    assert |s| == |multiset(s)| == 2;
    assert s == [s[0], s[1]];
    assert multiset(s) == multiset{s[0], s[1]};
  }

  lemma SameKindVia(v: Value, w: Value, u: Value)
    requires SameKind(v, u) && SameKind(w, u)
    ensures SameKind(v, w)
  {
  }

  /** With an orderable attribute, the stages after the sort succeed on the
      sorted items exactly when the rules accept the items as given. */
  lemma SortedOutcome(env: Env, rules: Rules, items: seq<Item>)
    requires rules.orderBy.Some? && CheckOrderable(items, rules.orderBy.value).Pass?
    ensures AfterSort(env, rules, Ordering.OrderDescending(items, SortKey(items, rules.orderBy.value))).outcome.Pass?
        <==> Accepts(rules, items)
  {
    var order := Ordering.OrderDescending(items, SortKey(items, rules.orderBy.value));
    AfterSortOutcome(env, rules, order);
    Ordering.OrderDescendingCorrect(items, SortKey(items, rules.orderBy.value));
    PermutedAccepts(rules.(orderBy := None), items, order);
    assert |items| == |multiset(items)| == |multiset(order)| == |order|;
  }

  // ---------------------------------------------------------------------------
  // What each stage writes

  /** After the sort, a run that gets through writes each stage's events as
      its stage function describes them, and no events of other stages. */
  lemma AfterSortWrites(env: Env, rules: Rules, order: seq<Item>)
    requires AfterSort(env, rules, order).outcome.Pass?
    ensures var events := AfterSort(env, rules, order).events;
      && LinkStageEvents(env, rules, order) == Ok(OfStage(events, LinkStage))
      && ArchiveStageEvents(env, rules, order) == Ok(OfStage(events, ArchiveStage))
      && FeedStageEvents(env, rules, order) == OfStage(events, FeedStage)
      && PageStageEvents(env, rules, order) == Ok(OfStage(events, PageStage))
      && OfStage(events, ItemStage) == []
      && OfStage(events, SectionStage) == []
  {
    StageEventsStages(env, rules, order);
    var links := LinkStageEvents(env, rules, order).value;
    var archive := ArchiveStageEvents(env, rules, order).value;
    var feed := FeedStageEvents(env, rules, order);
    var pages := PageStageEvents(env, rules, order).value;
    assert AfterSort(env, rules, order).events == [] + (links + archive + feed + pages);
    ProjectRun([], links, archive, feed, pages);
  }

  /** Events written before a run's own do not change what its stages
      other than the item stage project to. */
  lemma OfStageAfterItems(rendered: seq<Event>, events: seq<Event>, t: Stage)
    requires AllOf(rendered, ItemStage)
    ensures t == ItemStage ==> OfStage(rendered + events, t) == rendered + OfStage(events, t)
    ensures t != ItemStage ==> OfStage(rendered + events, t) == OfStage(events, t)
  {
    OfStageAppend(rendered, events, t);
    OfStageAll(rendered, ItemStage, t);
    assert [] + OfStage(events, t) == OfStage(events, t);
  }

  /** Every stage of a run that gets through writes what its own stage
      function describes, and nothing else is written. */
  lemma SectionWrites(env: Env, meta: map<string, Rules>, items: seq<Item>)
    requires forall i :: 0 <= i < |items| ==> HasSlug(items[i])
    requires env.root in meta
    ensures var run := Section(env, meta, items);
      var rules := meta[env.root];
      run.outcome.Pass? ==>
        && OfStage(run.events, ItemStage) == ItemEvents(env, items)
        && LinkStageEvents(env, rules, run.order) == Ok(OfStage(run.events, LinkStage))
        && ArchiveStageEvents(env, rules, run.order) == Ok(OfStage(run.events, ArchiveStage))
        && FeedStageEvents(env, rules, run.order) == OfStage(run.events, FeedStage)
        && PageStageEvents(env, rules, run.order) == Ok(OfStage(run.events, PageStage))
        && OfStage(run.events, SectionStage) == []
  {
    var run := Section(env, meta, items);
    if run.outcome.Pass? {
      SectionEvents(env, meta, items);
      var rules := meta[env.root];
      var rendered := ItemEvents(env, items);
      var events := AfterSort(env, rules, run.order).events;
      assert run.events == rendered + events;
      AfterSortWrites(env, rules, run.order);
      ItemEventsStage(env, items);
      OfStageAfterItems(rendered, events, ItemStage);
      assert OfStage(run.events, ItemStage) == rendered by {
        assert rendered + [] == rendered;
      }
      OfStageAfterItems(rendered, events, LinkStage);
      OfStageAfterItems(rendered, events, ArchiveStage);
      OfStageAfterItems(rendered, events, FeedStage);
      OfStageAfterItems(rendered, events, PageStage);
      OfStageAfterItems(rendered, events, SectionStage);
    }
  }

  lemma ProjectRun(r: seq<Event>, l: seq<Event>, a: seq<Event>, f: seq<Event>, p: seq<Event>)
    requires AllOf(r, ItemStage) && AllOf(l, LinkStage) && AllOf(a, ArchiveStage)
    requires AllOf(f, FeedStage) && AllOf(p, PageStage)
    ensures var e := r + (l + a + f + p);
      && OfStage(e, ItemStage) == r && OfStage(e, LinkStage) == l && OfStage(e, ArchiveStage) == a
      && OfStage(e, FeedStage) == f && OfStage(e, PageStage) == p && OfStage(e, SectionStage) == []
  {
    ProjectAt(r, l, a, f, p, ItemStage);
    ProjectAt(r, l, a, f, p, LinkStage);
    ProjectAt(r, l, a, f, p, ArchiveStage);
    ProjectAt(r, l, a, f, p, FeedStage);
    ProjectAt(r, l, a, f, p, PageStage);
    ProjectAt(r, l, a, f, p, SectionStage);
  }

  lemma ProjectAt(r: seq<Event>, l: seq<Event>, a: seq<Event>, f: seq<Event>, p: seq<Event>, t: Stage)
    requires AllOf(r, ItemStage) && AllOf(l, LinkStage) && AllOf(a, ArchiveStage)
    requires AllOf(f, FeedStage) && AllOf(p, PageStage)
    ensures OfStage(r + (l + a + f + p), t)
         == (if t == ItemStage then r else []) + ((if t == LinkStage then l else [])
            + (if t == ArchiveStage then a else []) + (if t == FeedStage then f else [])
            + (if t == PageStage then p else []))
  {
    OfStageAppend(l, a, t);
    OfStageAppend(l + a, f, t);
    OfStageAppend(l + a + f, p, t);
    OfStageAppend(r, l + a + f + p, t);
    OfStageAll(r, ItemStage, t);
    OfStageAll(l, LinkStage, t);
    OfStageAll(a, ArchiveStage, t);
    OfStageAll(f, FeedStage, t);
    OfStageAll(p, PageStage, t);
  }

  // ---------------------------------------------------------------------------
  // Listing pages

  lemma {:induction false} PageEventsAt(env: Env, all: seq<Item>, pages: seq<Pagination.Page<Item>>, pageCount: nat, k: nat)
    requires k < |pages|
    ensures PageEvents(env, all, pages, pageCount)[k] == PageEvent(env, all, pages[k], pageCount)
    decreases |pages|
  {
    var init := PageEvents(env, all, pages[..|pages| - 1], pageCount);
    var last := PageEvent(env, all, pages[|pages| - 1], pageCount);
    if k < |pages| - 1 {
      PageEventsAt(env, all, pages[..|pages| - 1], pageCount, k);
    }
    AppendAt(init, last, k);
  }

  lemma AppendAt<T>(s: seq<T>, x: T, k: nat)
    requires k <= |s|
    ensures (s + [x])[k] == if k < |s| then s[k] else x
  {
  }

  /** The k-th listing page (from 0) for a page size: the event of page
      number k+1 holding `items[k*size : (k+1)*size]`; `PageEvent` writes it
      to `index.html` or `<k+1>.html` with the page count. */
  predicate PageShapeAt(env: Env, all: seq<Item>, size: nat, count: nat, pes: seq<Event>, k: nat)
    requires k < |pes|
  {
    && k * size < |all|
    && pes[k] == PageEvent(env, all, Pagination.Page(k + 1, all[k * size .. Pagination.Min(k * size + size, |all|)]), count)
  }

  /** With a positive page size there are ceil(len/size) listing pages, each
      as `PageShapeAt` describes, all with that page count. */
  lemma PageStageShape(env: Env, rules: Rules, order: seq<Item>)
    requires PageSize(rules, order) >= 1
    ensures PageStageEvents(env, rules, order).Ok?
    ensures var size := PageSize(rules, order);
      var count := Pagination.CeilDiv(|order|, size);
      var pes := PageStageEvents(env, rules, order).value;
      && |pes| == count
      && forall k :: 0 <= k < |pes| ==> PageShapeAt(env, order, size, count, pes, k)
  {
    var size := PageSize(rules, order);
    var count := Pagination.CeilDiv(|order|, size);
    assert PageStageEvents(env, rules, order) == Ok(PageEvents(env, order, Pagination.PagesFrom(size, order, 1), count));
    PageEventsShape(env, order, size, count);
  }

  lemma PageEventsShape(env: Env, all: seq<Item>, size: nat, count: nat)
    requires size >= 1
    ensures var pes := PageEvents(env, all, Pagination.PagesFrom(size, all, 1), count);
      && |pes| == Pagination.CeilDiv(|all|, size)
      && forall k :: 0 <= k < |pes| ==> PageShapeAt(env, all, size, count, pes, k)
  {
    var pages := Pagination.PagesFrom(size, all, 1);
    Pagination.PagesFromCount(size, all, 1);
    forall k | 0 <= k < |pages|
      ensures PageShapeAt(env, all, size, count, PageEvents(env, all, pages, count), k)
    {
      PageEventsAt(env, all, pages, count, k);
      Pagination.PagesAt(size, all, k);
    }
  }

  /** A negative page size writes no listing page; a zero one fails. */
  lemma PageStageNonPositive(env: Env, rules: Rules, order: seq<Item>)
    requires PageSize(rules, order) <= 0
    ensures PageSize(rules, order) == 0 ==> PageStageEvents(env, rules, order) == Err(ZeroPageSize)
    ensures PageSize(rules, order) < 0 ==> PageStageEvents(env, rules, order) == Ok([])
  {
  }

  /** Without `num_per_page` a non-empty section gets one page, `index.html`,
      listing all items, with a page count of 1. */
  lemma DefaultSinglePage(env: Env, rules: Rules, order: seq<Item>)
    requires rules.numPerPage.None? && order != []
    ensures PageStageEvents(env, rules, order)
         == Ok([Event(PageStage, Render(PathJoin(env.outRoot, "index.html"), [PathJoin(env.root, "list.html")],
                                        PageContext(env, order, 1, 1, order)))])
  {
    var n := |order|;
    assert Pagination.Paginate(n, order) == Ok(Pagination.PagesFrom(n, order, 1));
    assert order[..n] == order && order[n..] == [];
    assert Pagination.PagesFrom(n, order, 1) == [Pagination.Page(1, order)];
    assert Pagination.CeilDiv(n, n) == 1;
    assert PageSize(rules, order) == n && PageCount(n, n) == 1;
    assert PageStageEvents(env, rules, order) == Ok(PageEvents(env, order, [Pagination.Page(1, order)], 1));
    var single := [Pagination.Page(1, order)];
    assert single[..0] == [];
    assert PageEvents(env, order, single, 1) == [PageEvent(env, order, single[0], 1)];
    assert PageFile(1) == "index.html";
  }

  /** Page 1 is `index.html`, every other page `<n>.html`, and different
      pages never share a file. */
  lemma PageFileNames(m: nat, n: nat)
    ensures PageFile(n) == "index.html" <==> n == 1
    ensures PageFile(m) == PageFile(n) ==> m == n
  {
    if n != 1 {
      NotIndex(n);
    }
    if m != 1 {
      NotIndex(m);
    }
    if m != 1 && n != 1 && PageFile(m) == PageFile(n) {
      var dm, dn := Decimal(m), Decimal(n);
      assert |dm| == |dn|;
      assert dm == PageFile(m)[..|dm|] == PageFile(n)[..|dn|] == dn;
      DecimalInjective(m, n);
    }
  }

  lemma NotIndex(n: nat)
    ensures Decimal(n) + ".html" != "index.html"
  {
    DecimalDigits(n);
    var s := Decimal(n) + ".html";
    if |s| == 10 {
      assert s[0] == Decimal(n)[0];
      assert "index.html"[0] == 'i';
    }
  }

  lemma {:induction false} DecimalDigits(n: nat)
    ensures Decimal(n) != [] && IsDigits(Decimal(n))
    decreases n
  {
    if n >= 10 {
      DecimalDigits(n / 10);
    }
  }

  // ---------------------------------------------------------------------------
  // Items and the feed

  /** A content file `<stem>.<ext>` is rendered to `<stem>.html`, trying the
      templates `<root>/<stem>.html` and then `<root>/item.html`. */
  lemma ItemOutputNames(env: Env, stem: string, ext: string, parsed: map<string, Value>)
    requires !AllDots(stem) && '.' !in ext
    ensures var item := LoadItem(stem + "." + ext, parsed);
      ItemEvent(env, item).action
      == Render(PathJoin(env.outRoot, stem + ".html"),
                [PathJoin(env.root, stem + ".html"), PathJoin(env.root, "item.html")],
                ItemContext(env, item))
  {
    StripExtensionOfAdded(stem, ext);
  }

  /** The feed gets the first `num_items` items of the final order (all of
      them when there are fewer; a negative count drops that many from the
      end, as a Python slice does). */
  lemma FeedItems(env: Env, rules: Rules, order: seq<Item>)
    requires rules.feed.Some?
    ensures var n := rules.feed.value.numItems;
      && FeedStageEvents(env, rules, order) == [Event(FeedStage, WriteFeed(PathJoin(env.outRoot, "rss.xml"), Prefix(order, n)))]
      && (0 <= n <= |order| ==> Prefix(order, n) == order[..n])
      && (n >= |order| ==> Prefix(order, n) == order)
  {
  }

  // ---------------------------------------------------------------------------
  // Linkable pages

  lemma {:induction false} ValueEventsHas(env: Env, all: seq<Item>, idx: Linkables.Index, attr: string, vs: seq<string>, v: string)
    requires v in vs
    ensures LinkPage(env, all, idx, attr, v) in ValueEvents(env, all, idx, attr, vs)
    decreases |vs|
  {
    var init := vs[..|vs| - 1];
    if vs[|vs| - 1] != v {
      var i :| 0 <= i < |vs| && vs[i] == v;
      assert init[i] == v;
      ValueEventsHas(env, all, idx, attr, init, v);
    }
  }

  lemma {:induction false} ValueEventsFrom(env: Env, all: seq<Item>, idx: Linkables.Index, attr: string, vs: seq<string>, e: Event)
    returns (v: string)
    requires e in ValueEvents(env, all, idx, attr, vs)
    ensures v in vs && e == LinkPage(env, all, idx, attr, v)
    decreases |vs|
  {
    var init, last := vs[..|vs| - 1], vs[|vs| - 1];
    var rest := ValueEvents(env, all, idx, attr, init);
    assert ValueEvents(env, all, idx, attr, vs) == rest + [LinkPage(env, all, idx, attr, last)];
    if e !in rest {
      InLast(rest, LinkPage(env, all, idx, attr, last), e);
      v := last;
    } else {
      v := ValueEventsFrom(env, all, idx, attr, init, e);
      InInit(vs, v);
    }
  }

  lemma InLast<T>(s: seq<T>, x: T, e: T)
    requires e in s + [x] && e !in s
    ensures e == x
  {
  }

  lemma InInit<T>(s: seq<T>, x: T)
    requires s != [] && x in s[..|s| - 1]
    ensures x in s
  {
    var i :| 0 <= i < |s| - 1 && s[..|s| - 1][i] == x;
    assert s[i] == x;
  }

  lemma {:induction false} LinkEventsHas(env: Env, all: seq<Item>, idx: Linkables.Index, attrs: seq<string>, a: string, v: string)
    requires a in attrs && v in InnerOf(idx, a)
    ensures LinkPage(env, all, idx, a, v) in LinkEvents(env, all, idx, attrs)
    decreases |attrs|
  {
    var init := attrs[..|attrs| - 1];
    if attrs[|attrs| - 1] == a {
      ValueEventsHas(env, all, idx, a, InnerOf(idx, a), v);
      assert AttrEvents(env, all, idx, a) == [LinkDir(env, a)] + ValueEvents(env, all, idx, a, InnerOf(idx, a));
    } else {
      var i :| 0 <= i < |attrs| && attrs[i] == a;
      assert init[i] == a;
      LinkEventsHas(env, all, idx, init, a, v);
    }
  }

  /** Every event of the linkable stage is an attribute's directory or the
      page of one of its values. */
  lemma {:induction false} LinkEventsFrom(env: Env, all: seq<Item>, idx: Linkables.Index, attrs: seq<string>, e: Event)
    returns (a: string, v: Option<string>)
    requires e in LinkEvents(env, all, idx, attrs)
    ensures a in attrs
    ensures v.None? ==> e == LinkDir(env, a)
    ensures v.Some? ==> v.value in InnerOf(idx, a) && e == LinkPage(env, all, idx, a, v.value)
    decreases |attrs|
  {
    var init := attrs[..|attrs| - 1];
    var last := attrs[|attrs| - 1];
    var values := ValueEvents(env, all, idx, last, InnerOf(idx, last));
    if e in LinkEvents(env, all, idx, init) {
      a, v := LinkEventsFrom(env, all, idx, init, e);
      assert a in attrs by {
        var i :| 0 <= i < |init| && init[i] == a;
        assert attrs[i] == a;
      }
    } else if e == LinkDir(env, last) {
      a, v := last, None;
    } else {
      assert e in values;
      var w := ValueEventsFrom(env, all, idx, last, InnerOf(idx, last), e);
      a, v := last, Some(w);
    }
  }

  /** Complete: for every item, linkable attribute `a` and value `v` the item
      lists under `a`, the page of (a, v) is written and lists the item. */
  lemma LinkPageForEveryValue(env: Env, rules: Rules, order: seq<Item>, x: Item, a: string, v: string)
    requires rules.linkableBy.Some? && LinkStageEvents(env, rules, order).Ok?
    requires x in order && a in rules.linkableBy.value
    requires LinkValues(x, a).Ok? && v in LinkValues(x, a).value
    ensures var idx := Linkables.Build(order, rules.linkableBy.value).value;
      && LinkPage(env, order, idx, a, v) in LinkStageEvents(env, rules, order).value
      && x in Linkables.Group(idx, a, v)
  {
    var attrs := rules.linkableBy.value;
    var idx := Linkables.Build(order, attrs).value;
    Linkables.GroupMembers(order, attrs, idx, a, v, x);
    Linkables.BuildValid(order, attrs);
    assert (a, v) in idx.lists;
    assert a in idx.inner && v in idx.inner[a];
    LinkEventsHas(env, order, idx, idx.outer, a, v);
  }

  /** Sound: every event of the linkable stage is the directory of a linkable
      attribute, or the page `<attr>/<value>.html` of a value that some item
      has, listing exactly the items that have it, in section order. */
  lemma LinkStageEvent(env: Env, rules: Rules, order: seq<Item>, e: Event) returns (a: string, v: Option<string>)
    requires rules.linkableBy.Some? && LinkStageEvents(env, rules, order).Ok?
    requires e in LinkStageEvents(env, rules, order).value
    ensures var idx := Linkables.Build(order, rules.linkableBy.value).value;
      && a in rules.linkableBy.value
      && (v.None? ==> e == Event(LinkStage, Mkdir(PathJoin(env.outRoot, a))))
      && (v.Some? ==>
            && e == LinkPage(env, order, idx, a, v.value)
            && e.action.path == PathJoin(PathJoin(env.outRoot, a), v.value + ".html")
            && Linkables.Group(idx, a, v.value) != []
            && forall x :: x in Linkables.Group(idx, a, v.value) <==>
                 x in order && LinkValues(x, a).Ok? && v.value in LinkValues(x, a).value)
  {
    var attrs := rules.linkableBy.value;
    var idx := Linkables.Build(order, attrs).value;
    Linkables.BuildValid(order, attrs);
    a, v := LinkEventsFrom(env, order, idx, idx.outer, e);
    assert a in idx.inner;
    var w := if v.Some? then v.value else idx.inner[a][0];
    assert (a, w) in idx.lists;
    var x := Linkables.Group(idx, a, w)[0];
    Linkables.GroupMembers(order, attrs, idx, a, w, x);
    if v.Some? {
      forall y ensures y in Linkables.Group(idx, a, w) <==> y in order && LinkValues(y, a).Ok? && w in LinkValues(y, a).value {
        Linkables.GroupMembers(order, attrs, idx, a, w, y);
      }
    }
  }

  // ---------------------------------------------------------------------------
  // Archive pages

  /** The directory and the page of one month of a year. */
  predicate MonthWritten(env: Env, all: seq<Item>, events: seq<Event>, year: string, mg: Archive.MonthGroup)
  {
    && ArchiveDir(MonthRoot(env, year, mg.month)) in events
    && ArchivePage(env, MonthRoot(env, year, mg.month), all, [Archive.YearGroup(year, [mg])]) in events
  }

  /** The directory and the page of one year. */
  predicate YearWritten(env: Env, all: seq<Item>, events: seq<Event>, g: Archive.YearGroup)
  {
    && ArchiveDir(YearRoot(env, g.year)) in events
    && ArchivePage(env, YearRoot(env, g.year), all, [g]) in events
  }

  lemma {:induction false} MonthEventsHas(env: Env, all: seq<Item>, year: string, months: seq<Archive.MonthGroup>, n: nat, j: nat, e: Event)
    requires j < n <= |months| && e in MonthPages(env, all, year, months, j)
    ensures e in MonthEvents(env, all, year, months, n)
    decreases n
  {
    if j < n - 1 {
      MonthEventsHas(env, all, year, months, n - 1, j, e);
    }
  }



  lemma YearsEventsHas(env: Env, all: seq<Item>, a: seq<Archive.YearGroup>, n: nat, k: nat, e: Event)
    requires k < n <= |a| && e in YearEvents(env, all, a, k)
    ensures e in YearsEvents(env, all, a, n)
  {
    BlocksHas((k: nat) => if k < |a| then YearEvents(env, all, a, k) else [], n, k, e);
  }

  lemma {:induction false} BlocksHas(f: nat -> seq<Event>, n: nat, k: nat, e: Event)
    requires k < n && e in f(k)
    ensures e in Blocks(f, n)
    decreases n
  {
    if k < n - 1 {
      BlocksHas(f, n - 1, k, e);
    }
  }


  /** For every year of the archive, `archives/<year>/index.html` lists
      exactly that year's entry, and for every month of it,
      `archives/<year>/<mon>/index.html` lists exactly that month's posts;
      the archive's own page lists the whole archive. */
  lemma ArchivePages(env: Env, all: seq<Item>, attr: string, k: nat)
    requires Archive.ArchiveOf(all, attr).Ok? && k < |Archive.ArchiveOf(all, attr).value|
    ensures var a := Archive.ArchiveOf(all, attr).value;
      var events := ArchiveEvents(env, all, a);
      && events[..2] == [ArchiveDir(ArchiveRoot(env)), ArchivePage(env, ArchiveRoot(env), all, a)]
      && YearWritten(env, all, events, a[k])
      && forall j :: 0 <= j < |a[k].months| ==> MonthWritten(env, all, events, a[k].year, a[k].months[j])
  {
    var a := Archive.ArchiveOf(all, attr).value;
    var events := ArchiveEvents(env, all, a);
    var g := a[k];
    Archive.ArchiveYearsDistinct(all, attr);
    Archive.YearEntriesSingle(a, k);
    Archive.ArchiveMonthsDistinct(all, attr, g);
    assert YearItems(a, k) == [g];
    var year := g.year;
    var months := g.months;
    var yearEvents := YearEvents(env, all, a, k);
    assert yearEvents == [ArchiveDir(YearRoot(env, year)), ArchivePage(env, YearRoot(env, year), all, [g])]
                         + MonthEvents(env, all, year, months, |months|);
    YearsEventsHas(env, all, a, |a|, k, yearEvents[0]);
    YearsEventsHas(env, all, a, |a|, k, yearEvents[1]);
    forall j | 0 <= j < |months| ensures MonthWritten(env, all, events, year, months[j]) {
      Archive.MonthEntriesSingle(months, j);
      var m := months[j].month;
      var dir := ArchiveDir(MonthRoot(env, year, m));
      var page := ArchivePage(env, MonthRoot(env, year, m), all, [Archive.YearGroup(year, [months[j]])]);
      assert MonthPages(env, all, year, months, j) == [dir, page];
      MonthEventsHas(env, all, year, months, |months|, j, dir);
      MonthEventsHas(env, all, year, months, |months|, j, page);
      assert dir in yearEvents && page in yearEvents;
      YearsEventsHas(env, all, a, |a|, k, dir);
      YearsEventsHas(env, all, a, |a|, k, page);
    }
  }

  /** Where an archive-stage event comes from: the archive's own directory
      or page, the k-th year's, or the j-th month of the k-th year's. */
  datatype ArchiveSpot = RootSpot | YearSpot(k: nat) | MonthSpot(k: nat, j: nat)

  /** The events written at `spot` of the archive `a`: the archive's
      directory or its page listing the whole archive, a year's directory or
      its page listing exactly that year's entry, or a month's directory or
      its page listing exactly that month's posts under its year. */
  predicate SpotEvent(env: Env, all: seq<Item>, a: seq<Archive.YearGroup>, spot: ArchiveSpot, e: Event)
  {
    match spot
    case RootSpot =>
      e == ArchiveDir(ArchiveRoot(env)) || e == ArchivePage(env, ArchiveRoot(env), all, a)
    case YearSpot(k) =>
      && k < |a|
      && (e == ArchiveDir(YearRoot(env, a[k].year)) || e == ArchivePage(env, YearRoot(env, a[k].year), all, [a[k]]))
    case MonthSpot(k, j) =>
      && k < |a| && j < |a[k].months|
      && var year := a[k].year;
         var mg := a[k].months[j];
         (e == ArchiveDir(MonthRoot(env, year, mg.month))
          || e == ArchivePage(env, MonthRoot(env, year, mg.month), all, [Archive.YearGroup(year, [mg])]))
  }

  /** Sound: every event of the archive stage is written at some spot of the
      archive, as `SpotEvent` describes. */
  lemma ArchiveStageEvent(env: Env, all: seq<Item>, attr: string, e: Event) returns (spot: ArchiveSpot)
    requires Archive.ArchiveOf(all, attr).Ok?
    requires e in ArchiveEvents(env, all, Archive.ArchiveOf(all, attr).value)
    ensures SpotEvent(env, all, Archive.ArchiveOf(all, attr).value, spot, e)
  {
    var a := Archive.ArchiveOf(all, attr).value;
    if e == ArchiveDir(ArchiveRoot(env)) || e == ArchivePage(env, ArchiveRoot(env), all, a) {
      return RootSpot;
    }
    assert e in YearsEvents(env, all, a, |a|);
    var k := BlocksFrom((k: nat) => if k < |a| then YearEvents(env, all, a, k) else [], |a|, e);
    Archive.ArchiveYearsDistinct(all, attr);
    Archive.ArchiveMonthsDistinct(all, attr, a[k]);
    spot := YearEventSpot(env, all, a, k, e);
  }

  lemma YearEventSpot(env: Env, all: seq<Item>, a: seq<Archive.YearGroup>, k: nat, e: Event) returns (spot: ArchiveSpot)
    requires k < |a| && Distinct(Archive.Years(a)) && Distinct(Archive.MonthKeys(a[k].months))
    requires e in YearEvents(env, all, a, k)
    ensures SpotEvent(env, all, a, spot, e)
  {
    var g := a[k];
    Archive.YearEntriesSingle(a, k);
    if e == ArchiveDir(YearRoot(env, g.year)) || e == ArchivePage(env, YearRoot(env, g.year), all, [g]) {
      return YearSpot(k);
    }
    var j := MonthEventSpot(env, all, g.year, g.months, e);
    return MonthSpot(k, j);
  }

  lemma MonthEventSpot(env: Env, all: seq<Item>, year: string, months: seq<Archive.MonthGroup>, e: Event) returns (j: nat)
    requires Distinct(Archive.MonthKeys(months))
    requires e in MonthEvents(env, all, year, months, |months|)
    ensures j < |months|
    ensures e == ArchiveDir(MonthRoot(env, year, months[j].month))
         || e == ArchivePage(env, MonthRoot(env, year, months[j].month), all, [Archive.YearGroup(year, [months[j]])])
  {
    j := MonthEventsFrom(env, all, year, months, |months|, e);
    Archive.MonthEntriesSingle(months, j);
  }

  lemma {:induction false} BlocksFrom(f: nat -> seq<Event>, n: nat, e: Event) returns (k: nat)
    requires e in Blocks(f, n)
    ensures k < n && e in f(k)
    decreases n
  {
    assert n != 0;
    if e in f(n - 1) {
      k := n - 1;
    } else {
      k := BlocksFrom(f, n - 1, e);
    }
  }

  lemma {:induction false} MonthEventsFrom(env: Env, all: seq<Item>, year: string, months: seq<Archive.MonthGroup>, n: nat, e: Event)
    returns (j: nat)
    requires n <= |months| && e in MonthEvents(env, all, year, months, n)
    ensures j < n && e in MonthPages(env, all, year, months, j)
    decreases n
  {
    assert n != 0;
    if e in MonthPages(env, all, year, months, n - 1) {
      j := n - 1;
    } else {
      j := MonthEventsFrom(env, all, year, months, n - 1, e);
    }
  }

  // ---------------------------------------------------------------------------
  // Template contexts

  /** In an item's context the item's own attributes (with its slug) win over
      the extra context, which wins over `root`. */
  lemma ItemContextLookup(env: Env, item: Item, k: string)
    ensures Lookup(ItemContext(env, item), k)
         == if k in item then Some(Attr(item[k]))
            else if k in env.extra then Some(Attr(env.extra[k]))
            else if k == "root" then Some(Text(env.root))
            else None
  {
    var spread := [env.extra, item];
    assert spread[..1] == [env.extra];
    assert LookupSpread(spread, k) == if k in item then Some(Attr(item[k])) else LookupSpread([env.extra], k);
    LookupWithExtra([("root", Text(env.root))], env.extra, k);
    LookupFixedStep([], ("root", Text(env.root)), k);
    assert [] + [("root", Text(env.root))] == [("root", Text(env.root))];
  }

  lemma LookupFixedStep(fixed: seq<(string, Ctx)>, entry: (string, Ctx), k: string)
    ensures LookupFixed(fixed + [entry], k) == if entry.0 == k then Some(entry.1) else LookupFixed(fixed, k)
  {
    assert (fixed + [entry])[..|fixed|] == fixed;
  }

  /** `{fixed entries..., **extra}`: the extra context wins, then the last
      fixed entry with the key. */
  lemma LookupWithExtra(fixed: seq<(string, Ctx)>, extra: map<string, Value>, k: string)
    ensures Lookup(Context(fixed, [extra]), k) == if k in extra then Some(Attr(extra[k])) else LookupFixed(fixed, k)
  {
    var spread := [extra];
    assert spread[..0] == [] && spread[0] == extra;
    assert LookupSpread(spread, k) == if k in extra then Some(Attr(extra[k])) else LookupSpread([], k);
  }

  lemma Lookup3(e0: (string, Ctx), e1: (string, Ctx), e2: (string, Ctx), extra: map<string, Value>, k: string)
    ensures Lookup(Context([e0, e1, e2], [extra]), k)
         == if k in extra then Some(Attr(extra[k]))
            else if e2.0 == k then Some(e2.1) else if e1.0 == k then Some(e1.1) else if e0.0 == k then Some(e0.1)
            else None
  {
    LookupWithExtra([e0, e1, e2], extra, k);
    LookupFixedStep([], e0, k);
    LookupFixedStep([e0], e1, k);
    LookupFixedStep([e0, e1], e2, k);
    assert [] + [e0] == [e0] && [e0] + [e1] == [e0, e1] && [e0, e1] + [e2] == [e0, e1, e2];
  }

  lemma Lookup4(e0: (string, Ctx), e1: (string, Ctx), e2: (string, Ctx), e3: (string, Ctx), extra: map<string, Value>, k: string)
    ensures Lookup(Context([e0, e1, e2, e3], [extra]), k)
         == if k in extra then Some(Attr(extra[k]))
            else if e3.0 == k then Some(e3.1) else if e2.0 == k then Some(e2.1)
            else if e1.0 == k then Some(e1.1) else if e0.0 == k then Some(e0.1)
            else None
  {
    LookupWithExtra([e0, e1, e2, e3], extra, k);
    LookupFixedStep([e0, e1, e2], e3, k);
    assert [e0, e1, e2] + [e3] == [e0, e1, e2, e3];
    Lookup3(e0, e1, e2, map[], k);
    LookupWithExtra([e0, e1, e2], map[], k);
  }

  lemma Lookup5(e0: (string, Ctx), e1: (string, Ctx), e2: (string, Ctx), e3: (string, Ctx), e4: (string, Ctx),
                extra: map<string, Value>, k: string)
    ensures Lookup(Context([e0, e1, e2, e3, e4], [extra]), k)
         == if k in extra then Some(Attr(extra[k]))
            else if e4.0 == k then Some(e4.1) else if e3.0 == k then Some(e3.1) else if e2.0 == k then Some(e2.1)
            else if e1.0 == k then Some(e1.1) else if e0.0 == k then Some(e0.1)
            else None
  {
    LookupWithExtra([e0, e1, e2, e3, e4], extra, k);
    LookupFixedStep([e0, e1, e2, e3], e4, k);
    assert [e0, e1, e2, e3] + [e4] == [e0, e1, e2, e3, e4];
    Lookup4(e0, e1, e2, e3, map[], k);
    LookupWithExtra([e0, e1, e2, e3], map[], k);
  }

  /** A linkable page lists its group under the last component of the
      section path; the extra context overrides any entry. */
  lemma LinkContextLookup(env: Env, all: seq<Item>, value: string, group: seq<Item>, k: string)
    ensures Lookup(LinkContext(env, all, value, group), k)
         == if k in env.extra then Some(Attr(env.extra[k]))
            else if k == LastComponent(env.root) then Some(Listing(group))
            else if k == "all_items" then Some(Listing(all))
            else if k == "context" then Some(Text(Label(value)))
            else if k == "root" then Some(Text(env.root))
            else None
  {
    Lookup4(("root", Text(env.root)), ("context", Text(Label(value))), ("all_items", Listing(all)),
            (LastComponent(env.root), Listing(group)), env.extra, k);
  }

  /** An archive page lists its entries under the whole section path; the
      extra context overrides any entry. */
  lemma ArchiveContextLookup(env: Env, all: seq<Item>, entries: seq<Archive.YearGroup>, k: string)
    ensures Lookup(ArchiveContext(env, all, entries), k)
         == if k in env.extra then Some(Attr(env.extra[k]))
            else if k == env.root then Some(Dated(entries))
            else if k == "all_items" then Some(Listing(all))
            else if k == "root" then Some(Text(env.root))
            else None
  {
    Lookup3(("root", Text(env.root)), ("all_items", Listing(all)), (env.root, Dated(entries)), env.extra, k);
  }

  /** A listing page lists its slice under the last component of the section
      path, with its number and the page count; the extra context overrides
      any entry. */
  lemma PageContextLookup(env: Env, all: seq<Item>, page: nat, pageCount: nat, items: seq<Item>, k: string)
    ensures Lookup(PageContext(env, all, page, pageCount, items), k)
         == if k in env.extra then Some(Attr(env.extra[k]))
            else if k == LastComponent(env.root) then Some(Listing(items))
            else if k == "page_count" then Some(Number(pageCount))
            else if k == "page" then Some(Number(page))
            else if k == "all_items" then Some(Listing(all))
            else if k == "root" then Some(Text(env.root))
            else None
  {
    Lookup5(("root", Text(env.root)), ("all_items", Listing(all)), ("page", Number(page)),
            ("page_count", Number(pageCount)), (LastComponent(env.root), Listing(items)), env.extra, k);
  }
}
