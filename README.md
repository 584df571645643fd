# transcribe, modelled in Dafny

transcribe turns a tree of YAML content files into static HTML through Django
templates. The program walks the content directory. For each directory that
holds files, it loads every file as an *item*: a mapping of attributes, plus a
`slug`, which is the file name without its extension. It then runs
`output_all` on the directory's items. `output_all` writes:

- one page per item;
- and, when the configuration's `meta` has rules for the directory (the
  *section*), more output in a fixed order:
  1. optionally, the items are sorted by an `order_by` attribute, largest
     value (newest date, last string) first;
  2. *linkable* pages, one per value of the `linkable_by` attributes;
  3. a year/month *archive* by the `archive_by` timestamp;
  4. an RSS *feed* of the first `num_items` items;
  5. the numbered *listing* pages, `num_per_page` items each.

The run's configuration is built from three layers. Built-in defaults are
overridden by a configuration module, which is overridden by the command
line. Two template filters, `remove_newlines` and `dedent`, are registered
for the templates.

The model has these modules:

- `Output`, the heart of the model:
  - Everything `output_all` writes becomes an `Event` in the append-only `log`
    of a `Site` object. An event is a directory, a template rendered with a
    context, or the feed.
  - `Output.Section` is the functional specification of one run. It gives the
    events, the final item order and the outcome.
  - `Site.OutputAll` is the imperative version. It sorts and reverses the
    caller's `array` in place, as `all_items.sort()` / `reverse()` do, and is
    proved to write exactly `Section`'s events.
- `OutputFacts`: what a run guarantees.
  - Stage order, and when a run stops.
  - What each stage writes: page file names, which items each page lists, and
    what each template context holds.
- `Pagination` (`paginate`).
- `Ordering`: the stable sort followed by `reverse`.
- `Linkables` and `Archive`: the bucketing of `output_linkables` and
  `output_archive`.
- `Buckets`: the nested `defaultdict(list)` with its insertion order.
- `Items`: slugs, attribute access, and sort keys. A string value's key is
  its rank among the section's strings, which orders them as Python does.
- `Strings`:
  - `os.path.join`, `basename` and `splitext`;
  - `str(n)`;
  - `%b`.
- `TemplateTags`: the two filters.
- `Config` (`generate_config`).

Exceptions that abort a run become `Fail(error)` / `Err(error)` values
(`Common.Error`). Whatever was written before the exception stays in the log.

## Model

| member | source | states |
|---|---|---|
| TemplateTags.NewlinesToSpaces | template_tags.py:10 | `replace('\n', ' ')` keeps the length and turns exactly the newlines into spaces |
| TemplateTags.RemoveNewlinesSpec | template_tags.py:8-10 | the filtered text has no newline and no trailing space; each kept character is the input's, with newlines turned into spaces; only spaces or newlines are cut from the end |
| TemplateTags.RemoveNewlinesIdempotent | template_tags.py:8-10 | applying `remove_newlines` twice gives the same as once |
| TemplateTags.LStripSpacesSplits | template_tags.py:18 | `lstrip(' ')` removes only leading spaces and keeps a suffix that does not start with a space |
| TemplateTags.SplitLines | template_tags.py:17 | no line produced by `splitlines` contains a newline |
| TemplateTags.JoinSplitLines | template_tags.py:17-19 | splitting text that does not end in a newline, then joining it with `"\n"`, gives the text back |
| TemplateTags.SplitJoinLines | template_tags.py:19 | `"\n".join` of newline-free lines splits back into exactly those lines |
| TemplateTags.Dedent | template_tags.py:14-19 | the loop's result is the join of one stripped line per input line |
| TemplateTags.DedentLines | template_tags.py:14-19 | dedented text splits back into exactly as many lines as the input had, in order; each is the input line minus its leading spaces and starts with no space |
| Strings.StrLtTransitive | transcribe.py:106 | Python's string order, used to sort the year strings, is transitive |
| Strings.StrLtTotal | transcribe.py:106 | two distinct strings are always ordered one way or the other |
| Strings.DecimalRoundTrip | transcribe.py:216 | `str(n)` is a non-empty digit string with no leading zero that reads back as `n` |
| Strings.DecimalOrderSameWidth | transcribe.py:94 | for numbers with the same number of digits, string order is numeric order |
| Strings.LastComponent | transcribe.py:159 | `split('/')[-1]` is the suffix after the last '/' and contains no '/' |
| Strings.StripExtensionSplits | transcribe.py:336 | `splitext(name)[0]` is a prefix of the name; what is cut off is empty or a single extension ('.' followed by no other '.'); leading dots are never cut |
| Strings.StripExtensionOfAdded | transcribe.py:336 | `splitext(stem + '.' + ext)[0] == stem` whenever `stem` has a non-dot character and `ext` has no dot |
| Strings.MonthAbbrevInjective | transcribe.py:124-125 | distinct months get distinct lower-case `%b` names |
| Items.LoadItem | transcribe.py:335-336 | a loaded item has the slug `splitext(file_name)[0]`, and every other parsed attribute unchanged |
| Items.Get | transcribe.py:93 | `item[attr]` yields the value exactly when the key is present, and a KeyError otherwise; `LinkValues` and `StampOf` read attributes through it |
| Items.CheckOrderable | transcribe.py:182 | the sort succeeds iff every item has `order_by` and all its values have one comparable kind (numbers and booleans, strings, or timestamps); otherwise it raises KeyError (missing attribute) or TypeError (unorderable values) |
| Items.RankOrder | transcribe.py:182 | the integer sort key orders any two items of the section exactly as Python's `<` orders their values (strings by code point), both for smaller and for equal |
| Items.LinkValues | transcribe.py:147 | iterating an attribute yields a list's elements, a mapping's keys in insertion order, or a string's characters; a missing attribute raises KeyError and any other value TypeError |
| Items.StampOf | transcribe.py:93-95 | the archive attribute yields a timestamp exactly when it holds one; otherwise a KeyError (missing) or an AttributeError (not a timestamp) |
| Items.YearStringOrder | transcribe.py:94-106 | for four-digit years, the `%Y` strings the archive sorts by compare exactly as the years do, so the year list is chronological |
| Buckets.AppendList | transcribe.py:143-148 | `d[k][l].append(v)` adds `v` at the end of list (k, l) and changes no other list |
| Buckets.AppendValid | transcribe.py:143-148 | appending preserves the dictionary's shape: keys listed once, and a non-empty list for exactly the listed pairs |
| Buckets.DistinctPermutation | transcribe.py:106 | a rearrangement of a list without repetitions has none either |
| Pagination.Paginate | transcribe.py:219-222 | a zero page size raises ValueError; a negative one gives no pages |
| Pagination.PaginateCorrect | transcribe.py:219-222 | for a positive size the pages are numbered 1, 2, … and concatenate back to the input in order; all but the last are full and the last is non-empty; there are ceil(len/size) pages, none for an empty list |
| Pagination.PagesAt | transcribe.py:221-222 | page k (from 0) is numbered k+1 and holds `items[k*size:(k+1)*size]` |
| Pagination.CeilDivIsCeiling | transcribe.py:208-209 | the page count is the least c with c·size ≥ len |
| Pagination.PaginateExamples | test/test_paginate.py:13-21 | the test's examples: five items in pages of 2, two items in pages of 10, the empty list |
| Ordering.SortAscendingCorrect | transcribe.py:182 | the sort yields a permutation of the items in ascending key order |
| Ordering.SortAscendingStable | transcribe.py:182 | the sort is stable: items with equal keys keep their relative order |
| Ordering.OrderDescendingCorrect | transcribe.py:181-183 | sort followed by reverse yields a permutation in non-increasing key order, with the items of each key in the reverse of their input order |
| Ordering.OrderDescendingFirstIsLargest | transcribe.py:181-183 | after sort and reverse, the first item has the largest key |
| Ordering.SortInPlace | transcribe.py:182 | `all_items.sort(key=…)` leaves the array in the stable ascending order |
| Ordering.ReverseInPlace | transcribe.py:183 | `all_items.reverse()` leaves the array reversed |
| Linkables.BuildOk | transcribe.py:145-148 | bucketing fails exactly when some linkable attribute of some item is missing or not iterable |
| Linkables.BuildValid | transcribe.py:143-148 | the built dictionary is well formed |
| Linkables.BuildGroup | transcribe.py:145-148 | the list under (attr, value) holds each item, in section order, once per listing of the attribute and per occurrence of the value |
| Linkables.GroupMembers | transcribe.py:145-148 | an item is listed under (attr, value) iff it is a section item, attr is linkable, and value is among its values of attr |
| Linkables.BuildErrorSticks | transcribe.py:145-148 | the first failing item decides the error; later items do not matter |
| Linkables.Collect | transcribe.py:143-148 | the nested loops compute `Build` |
| Linkables.AddOne | transcribe.py:146-148 | the loop over the link attributes of one item computes `AddItem`, stopping at the first attribute that is missing or not iterable |
| Linkables.AppendValues | transcribe.py:147-148 | the innermost loop appends the item under each of its values in turn (`AppendAll`) |
| Archive.MonthOrdinalOrder | transcribe.py:95-105 | months compare as the dates `date(year, month, 1)`, by year and then by month |
| Archive.FileOk | transcribe.py:92-96 | filing fails exactly when some item has no timestamp under the archive attribute |
| Archive.FileLists | transcribe.py:92-96 | the list under (year, month) is the items filed there, in section order |
| Archive.Collect | transcribe.py:91-96 | the filing loop computes `File` |
| Archive.SortYearsCorrect | transcribe.py:106 | sorting the year entries yields a permutation with the year strings strictly increasing |
| Archive.SortYearsPermutes | transcribe.py:106 | the year sort keeps every entry, as a permutation, whatever the years |
| Archive.Arrange | transcribe.py:98-106 | the arranging loop computes `Arranged` |
| Archive.CollectMonths | transcribe.py:100-102 | the inner loop lists one month entry per month of the year, in first-use order, each with that month's posts |
| Archive.ArrangedYears | transcribe.py:98-106 | `sorted_archive` has one entry per filed year, strictly increasing as strings |
| Archive.YearEntryMonths | transcribe.py:100-105 | each year's months are sorted by date, each month once, each with its list |
| Archive.ArchiveOfOk | transcribe.py:87-106 | `output_archive` raises exactly when some item lacks a timestamp |
| Archive.ArchivePosts | transcribe.py:92-106 | each month entry holds exactly the posts filed under it, in section order, and at least one |
| Archive.ArchivePostsFiled | transcribe.py:92-106 | a post appears in a month entry iff it is a section item dated in that year and month |
| Archive.ArchiveCovers | transcribe.py:92-106 | no item is lost: each appears in the month of its own date |
| Archive.ArchiveMonthYear | transcribe.py:94-96 | each month sits under the `%Y` string of its own year |
| Archive.ArchiveYearsDistinct | transcribe.py:115-118 | the year directories never clash |
| Archive.ArchiveMonthsDistinct | transcribe.py:123-128 | within a year, the month directory names never clash, and no month appears twice |
| Archive.YearMonthsDiffer | transcribe.py:123-128 | two month entries of one year are for different calendar months |
| Archive.YearEntriesSingle | transcribe.py:117 | a year page's list comprehension picks exactly that year's entry |
| Archive.MonthEntriesSingle | transcribe.py:126-127 | a month page's list comprehension picks exactly that month's entry |
| Output.Prefix | transcribe.py:168 | `items[:n]` takes the first n items, or all of them when there are fewer; a negative n drops items from the end |
| Output.Loaded | transcribe.py:334-337 | the section's items are the loaded files, in order, each with its slug |
| Output.Site.OutputItem | transcribe.py:76-84 | `output_item` appends one render of the item's context to `<slug>.html`, trying the templates `<root>/<slug>.html` and then `<root>/item.html` |
| Output.Site.OutputLinkables | transcribe.py:140-163 | writes nothing and raises exactly when bucketing fails; otherwise writes a directory per attribute and a page per value, in the dictionary's order |
| Output.Site.WriteLinkables | transcribe.py:150-163 | the writing loop appends exactly `LinkEvents` |
| Output.Site.OutputArchive | transcribe.py:87-137 | writes nothing and raises exactly when filing fails; otherwise writes exactly `ArchiveEvents` |
| Output.Site.WriteArchive | transcribe.py:108-137 | the archive root, its page, then each year's events |
| Output.Site.WriteYear | transcribe.py:115-137 | a year's directory and page, then its months' directories and pages |
| Output.Site.OutputFeed | transcribe.py:166-170 | appends the feed of the first `num_items` items to `rss.xml` |
| Output.Site.OutputAll | transcribe.py:173-216 | appends exactly `Section`'s events, leaves the caller's array in `Section`'s order, and returns its outcome |
| Output.Site.OutputStages | transcribe.py:184-216 | the stages after the sort append exactly `AfterSort`'s events |
| Output.Site.WritePages | transcribe.py:202-216 | the page loop appends one listing page per page |
| Output.Site.OutputSection | transcribe.py:326-340 | one directory of the walk: creates the output directory (except for `.`), loads the files with their slugs, and runs `output_all` only when there is at least one file |
| OutputFacts.SectionStaged | transcribe.py:175-216 | every item is rendered first, in order; with no rules for the section nothing else happens; otherwise events come in stage order: items, linkables, archive, feed, pages |
| OutputFacts.AfterSortStaged | transcribe.py:184-216 | after the sort, events come in the order linkables, archive, feed, pages |
| OutputFacts.SectionOrder | transcribe.py:181-183 | without `order_by` the order is unchanged; with it, the result is a permutation with non-increasing keys and the items of each key reversed; values that cannot be compared end the run right after the items are rendered |
| OutputFacts.SortedByValue | transcribe.py:181-183 | after the sort and the reverse, no item's `order_by` value is smaller (by Python's `<`) than the value of an item after it |
| OutputFacts.TwoItemsOrder | transcribe.py:181-183 | two items of one comparable kind whose values ascend are accepted and swapped |
| OutputFacts.SlugOrder | transcribe.py:182 | with `order_by: 'slug'`, items loaded from `<a>.yaml` and `<b>.yaml`, `a` before `b` as strings, are accepted and put in the order `b`, `a` |
| OutputFacts.SectionOutcome | transcribe.py:173-216 | `output_all` ends without an exception iff the section has no rules or its rules accept the items |
| OutputFacts.AfterSortOutcome | transcribe.py:184-201 | the later stages succeed iff the linkable attributes are iterable, the archive dates are timestamps, and the page size is not zero |
| OutputFacts.PermutedAccepts | transcribe.py:184-201 | whether the stages succeed does not depend on the order of the items |
| OutputFacts.SectionWrites | transcribe.py:175-216 | in a successful run, each stage writes exactly its own stage's events and nothing else is written |
| OutputFacts.AfterSortWrites | transcribe.py:184-216 | when the stages after the sort succeed, each of them writes exactly its own events and none writes an item page |
| OutputFacts.PageStageShape | transcribe.py:200-216 | with a positive page size, there are ceil(len/size) listing pages; page k+1 lists `items[k*size:(k+1)*size]` with that page count |
| OutputFacts.PageStageNonPositive | transcribe.py:200-202 | a zero `num_per_page` raises; a negative one writes no listing page |
| OutputFacts.DefaultSinglePage | transcribe.py:200-216 | without `num_per_page`, a non-empty section gets one page, `index.html`, listing all items, with page 1 of 1 |
| OutputFacts.PageFileNames | transcribe.py:214-216 | page 1 is `index.html`, every other page `<n>.html`, and different pages never share a file |
| OutputFacts.ItemOutputNames | transcribe.py:76-84 | a content file `<stem>.<ext>` is rendered to `<stem>.html` under the output root, from `<root>/<stem>.html` or else `<root>/item.html` |
| OutputFacts.FeedItems | transcribe.py:166-168 | the feed receives the first `num_items` items of the final order, all of them when there are fewer |
| OutputFacts.LinkPageForEveryValue | transcribe.py:145-163 | for every item, linkable attribute and value of it, the page for that value is written and lists the item |
| OutputFacts.LinkStageEvent | transcribe.py:150-163 | every event of the linkable stage is one of two things: an attribute's directory, or the page `<attr>/<value>.html` for a value some item has, listing exactly the items that have it |
| OutputFacts.ArchivePages | transcribe.py:108-137 | `archives/index.html` lists the whole archive; each `archives/<year>/index.html` lists exactly that year's entry; each `archives/<year>/<mon>/index.html` lists exactly that month's entry |
| OutputFacts.ArchiveStageEvent | transcribe.py:108-137 | every event of the archive stage is the archive's directory or its page listing the whole archive, a year's directory or its page listing exactly that year's entry, or a month's directory or its page listing exactly that month's entry |
| OutputFacts.ItemContextLookup | transcribe.py:82 | in an item's context, the item's attributes (slug included) win over the extra context, which wins over `root` |
| OutputFacts.LinkContextLookup | transcribe.py:155-161 | a linkable page's context holds its group under the last path component, plus `all_items`, the heading `context` and `root`; the extra context overrides each of them |
| OutputFacts.ArchiveContextLookup | transcribe.py:110-111 | an archive page's context holds the entries under the whole section path, plus `all_items` and `root`; the extra context overrides each of them |
| OutputFacts.PageContextLookup | transcribe.py:203-212 | a listing page's context holds its slice under the last path component, plus `page`, `page_count`, `all_items` and `root`; the extra context overrides each of them |
| Config.Defaults | transcribe.py:28-35 | the six default keys, with paths under the working directory |
| Config.AccumulateContext | transcribe.py:237-242 | running the action once per `--context` flag yields `ContextAfter` |
| Config.ContextAfter | transcribe.py:237-242 | the context is set exactly when at least one flag was given |
| Config.ContextAfterKeys | transcribe.py:237-242 | the accumulated context's keys are exactly the keys of the flags |
| Config.ContextAfterLast | transcribe.py:237-242 | each key holds the value of the last flag that names it |
| Config.DropUnset | transcribe.py:267-269 | options whose value is None are dropped; the others keep their value |
| Config.ArgConfKeys | transcribe.py:248-269 | an option reaches the configuration iff it was given, `--config-file` included |
| Config.GenerateConfig | transcribe.py:244-284 | the result is the defaults, updated by the configuration module's keys only when `--config-file` is given, then by the given options; the module is looked up by the file's base name without `.py` (and loaded as `transcribe_config`) |
| Config.LayeredLookup | transcribe.py:281-282 | a command-line key wins, then a configuration-module key, then the default; the keys are those of all three |
| Config.ModuleNameOfPython | transcribe.py:273-275 | `dir/name.py` is looked up as `name` (and loaded as `transcribe_config`); a name without `.py` is kept |
| Config.NoArgumentsGiveDefaults | test/test_generate_configuration.py:15-17 | with no arguments the configuration is the defaults |
| Config.FileOverridesDefaults | test/test_generate_configuration.py:19-25 | a key set by the configuration module replaces the default |
| Config.CommandLineOverridesFile | test/test_generate_configuration.py:27-33 | `--output` replaces what the configuration module sets |
| Config.CommandLineOverridesDefaults | test/test_generate_configuration.py:35-40 | `--content foo` changes that key and nothing else |
| Config.ContextFlagsAccumulate | test/test_generate_configuration.py:42-54 | three `--context` flags collect into one mapping that replaces the default context |
| Config.ContextFlagsReplaceFileContext | transcribe.py:281-282 | once a `--context` flag is given, the configuration module's context is replaced as a whole, not merged |
| Config.ConfigFileKept | transcribe.py:267-282 | the configuration file's path ends up as the key `config_file` of the configuration |
| Config.Module.GenerateConfigAsWritten | transcribe.py:244-282 | as written: the merge updates the module-level defaults, which become the result |
| Config.SecondCallKeepsFirstOptions | transcribe.py:244-282 | as written, a call with `--output bar` followed by a call with no arguments still yields the output `bar` |

## Left out

- Template rendering: Django's template lookup and rendering are foreign code. A page is modelled as the list of candidate templates plus the context it is rendered with. A missing template (TemplateDoesNotExist) is not modelled.
- File system: `os.mkdir`, `open`, `recreate_dir` and `copy_static_content` are not modelled. Writes and directories are events in a log. Errors such as an existing directory or an unwritable file are not modelled.
- `os.walk` in `main`: the walk itself is not modelled. `Site.OutputSection` models one directory of it, given its relative path and its files' parsed contents.
- YAML parsing and `_timestamp_loader` are not modelled. Parsed values are `Items.Value`, and timestamps carry their calendar date and the instant they denote.
- `argparse`, `imp.find_module`/`load_module` and `json.loads` are not modelled. `Config.Args` is the parsed command line, `fileConf` is the module's `TRANSCRIBE_CONFIG`, and `Config.Json` stands for decoded values. `os.path.dirname` is left out with the import; only the module name is modelled.
- Output of `RssFeed` beyond which items the feed receives: feed metadata, item fields, and the KeyErrors missing fields would raise. A section's `feed` rules always carry `num_items`; a missing `num_items` (KeyError) is not modelled.
- Items.CheckOrderable: orders integers, booleans (as 0 and 1), strings and timestamps. Floats are not modelled: a float is `Opaque` and is reported as unorderable, where Python compares it with integers and booleans. Lists, which Python compares element by element, are reported as unorderable, because `Items.Value` has only lists of strings and their lexicographic order is not modelled.
- Output.Site.OutputAll: when the sort fails because two values cannot be compared (`Unorderable`), the model leaves the caller's array as it was. CPython's `list.sort` may stop at the failed comparison with the list partly rearranged, still a permutation of the items. The timsort steps that decide that arrangement are not modelled. A missing `order_by` attribute (`MissingAttribute`) fails before anything moves, so that case is exact.
- OutputFacts.SectionOrder: states `run.order == items` after an `Unorderable` failure, for the same reason as `Output.Site.OutputAll`; Python guarantees only that the list is a permutation of the items.
- Output.Site.OutputArchive: writes year pages in ascending year-string order and month pages in ascending date order. Python iterates a `set` there, whose order is unspecified. Which pages are written and what each holds does not depend on that order.
- TemplateTags.SplitLines: splits at '\n' only. `str.splitlines` also splits at '\r', '\v', '\f' and other separators.
- Linkable values that are not strings (numbers inside a list) would make `attr_value + '.html'` raise a TypeError. `Items.Value` only has lists of strings, so this case does not arise.
- The page count (`math.ceil(float(n) / size)`) and the page number (`int(i / size) + 1` in `paginate`) are computed in the source through floating-point division. Both are modelled with exact integer division, which agrees with them for all list lengths below 2^53.
- Concurrency, logging and the `DEBUG` flag are not modelled.
- The module-level `DEFAULT_CONF` aliasing: `Config.GenerateConfig` merges into a fresh copy of the defaults. The as-written behaviour is modelled separately; see Findings.

## Findings

| source | as written | input that shows it | evidently intended | confidence | as-written member | corrected member |
|---|---|---|---|---|---|---|
| transcribe.py:244 | `config = DEFAULT_CONF` binds the module-level defaults, so the `update` calls change them for every later call | `generate_config(['--output', 'bar'])` followed by `generate_config([])` in one process: the second result still has the output `bar` | every call starts from the built-in defaults (`DEFAULT_CONF.copy()`) | medium, not executed | Config.SecondCallKeepsFirstOptions | Config.NoArgumentsGiveDefaults |
