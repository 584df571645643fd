/** Items as loaded from content files: a mapping from attribute name to
    value, with the `slug` added at load time. The YAML parser is outside the
    model; what it produces is described by `Value`. */
module Items {
  import opened Common
  import opened Strings

  type Year = y: int | 1 <= y <= 9999 witness 1
  type Month = m: int | 1 <= m <= 12 witness 1
  type Day = d: int | 1 <= d <= 31 witness 1

  /** A timezone-aware datetime: its calendar date in its own offset, and the
      instant it denotes (seconds on the UTC time line), which is what Python
      compares when it orders aware datetimes. */
  datatype Timestamp = Timestamp(year: Year, month: Month, day: Day, instant: int)

  /** An attribute value as the content parser yields it. A nested mapping
      is kept as its keys in insertion order, which is all that iterating it
      yields. `Opaque` stands for any other YAML value (nulls, floats). */
  datatype Value =
    | Num(n: int)
    | Bool(b: bool)
    | Str(s: string)
    | StrList(xs: seq<string>)
    | Mapping(keys: seq<string>)
    | Stamp(t: Timestamp)
    | Opaque

  type Item = map<string, Value>

  const SlugKey := "slug"

  predicate HasSlug(item: Item)
  {
    SlugKey in item && item[SlugKey].Str?
  }

  function Slug(item: Item): string
    requires HasSlug(item)
  {
    item[SlugKey].s
  }

  /** `content['slug'] = os.path.splitext(file_name)[0]`: the parsed mapping
      gains (or has replaced) its slug, the file name without extension. */
  function LoadItem(fileName: string, parsed: map<string, Value>): (item: Item)
    ensures HasSlug(item) && Slug(item) == StripExtension(fileName)
    ensures item.Keys == parsed.Keys + {SlugKey}
    ensures forall k :: k in parsed && k != SlugKey ==> item[k] == parsed[k]
  {
    parsed[SlugKey := Str(StripExtension(fileName))]
  }

  /** `item[attr]`, a KeyError when the attribute is missing. */
  function Get(item: Item, attr: string): (r: Result<Value>)
    ensures r.Ok? <==> attr in item
    ensures r.Ok? ==> r.value == item[attr]
    ensures r.Err? ==> r.error == MissingAttribute(attr)
  {
    if attr in item then Ok(item[attr]) else Err(MissingAttribute(attr))
  }

  // ---------------------------------------------------------------------------
  // Sort keys for `order_by`.

  /** The integer rank Python's comparison of the value agrees with, for the
      numeric kinds: integers, booleans (a `bool` is the `int` 0 or 1), and
      timestamps by their instant. */
  function RankOf(v: Value): Option<int>
  {
    match v
    case Num(n) => Some(n)
    case Bool(b) => Some(if b then 1 else 0)
    case Stamp(t) => Some(t.instant)
    case _ => None
  }

  /** An integer or a boolean, which Python compares with each other. */
  predicate IsNumber(v: Value)
  {
    v.Num? || v.Bool?
  }

  /** Values the model lets Python compare with each other. */
  predicate SameKind(v: Value, w: Value)
  {
    (IsNumber(v) && IsNumber(w)) || (v.Str? && w.Str?) || (v.Stamp? && w.Stamp?)
  }

  /** Python's `v < w` on two values of one kind; false across kinds, where
      Python raises instead. */
  predicate ValueLt(v: Value, w: Value)
  {
    if v.Str? && w.Str? then StrLt(v.s, w.s)
    else SameKind(v, w) && RankOf(v).value < RankOf(w).value
  }

  /** What `all_items.sort(key=lambda v: v[attr])` checks: every item has the
      attribute (the key function runs on all items first), and, as soon as
      two items must be compared, the values are mutually comparable. */
  function CheckOrderable(items: seq<Item>, attr: string): (r: Outcome)
    ensures r.Pass? <==>
      (forall i :: 0 <= i < |items| ==> attr in items[i])
      && (|items| >= 2 ==> forall i :: 0 <= i < |items| ==> SameKind(items[i][attr], items[0][attr]))
    ensures r.Fail? && (forall i :: 0 <= i < |items| ==> attr in items[i]) ==> r.error == Unorderable(attr)
    ensures r.Fail? && !(forall i :: 0 <= i < |items| ==> attr in items[i]) ==> r.error == MissingAttribute(attr)
  {
    if exists i :: 0 <= i < |items| && attr !in items[i] then Fail(MissingAttribute(attr))
    else if |items| >= 2 && exists i :: 0 <= i < |items| && !SameKind(items[i][attr], items[0][attr])
    then Fail(Unorderable(attr))
    else Pass
  }

  /** The string values `attr` takes among `items`. */
  function StrValues(items: seq<Item>, attr: string): set<string>
  {
    set i | 0 <= i < |items| && attr in items[i] && items[i][attr].Str? :: items[i][attr].s
  }

  /** How many of the strings `vals` come before `s`: an integer stand-in for
      `s` that orders the strings of `vals` as Python's `<` does. */
  function StrRank(vals: set<string>, s: string): nat
  {
    |set u | u in vals && StrLt(u, s)|
  }

  /** The sort key of an item among `items` once `CheckOrderable` has passed:
      a number's or a timestamp's rank, or a string's rank among the strings
      of the section. */
  function Rank(items: seq<Item>, item: Item, attr: string): int
  {
    if attr !in item then 0
    else if item[attr].Str? then StrRank(StrValues(items, attr), item[attr].s)
    else if RankOf(item[attr]).Some? then RankOf(item[attr]).value
    else 0
  }

  /** The key orders two items of the section exactly as Python's `<` orders
      their values: smaller key iff smaller value, equal key iff neither is
      smaller. */
  lemma RankOrder(items: seq<Item>, attr: string, x: Item, y: Item)
    requires x in items && y in items && attr in x && attr in y
    requires SameKind(x[attr], y[attr])
    ensures Rank(items, x, attr) < Rank(items, y, attr) <==> ValueLt(x[attr], y[attr])
    ensures Rank(items, x, attr) == Rank(items, y, attr) <==> !ValueLt(x[attr], y[attr]) && !ValueLt(y[attr], x[attr])
  {
    if x[attr].Str? {
      var vals := StrValues(items, attr);
      var v, w := x[attr].s, y[attr].s;
      var i :| 0 <= i < |items| && items[i] == x;
      var j :| 0 <= j < |items| && items[j] == y;
      assert v in vals && w in vals;
      if StrLt(v, w) {
        StrRankBelow(vals, v, w);
      } else if StrLt(w, v) {
        StrRankBelow(vals, w, v);
      } else if v != w {
        StrLtTotal(v, w);
      }
    }
  }

  /** A string before another in `vals` has a smaller rank. */
  lemma StrRankBelow(vals: set<string>, v: string, w: string)
    requires v in vals && StrLt(v, w)
    ensures StrRank(vals, v) < StrRank(vals, w)
  {
    var below := set u | u in vals && StrLt(u, v);
    var belowW := set u | u in vals && StrLt(u, w);
    forall u | u in below ensures u in belowW {
      StrLtTransitive(u, v, w);
    }
    StrLtIrreflexive(v);
    assert v in belowW - below;
    assert belowW == below + (belowW - below);
    assert below * (belowW - below) == {};
  }

  // ---------------------------------------------------------------------------
  // Values of a linkable attribute: `for attr_value in content[attr]`.

  /** A list yields its elements; a mapping its keys; a string, being
      iterable, its characters; anything else cannot be iterated. */
  function LinkValues(item: Item, attr: string): (r: Result<seq<string>>)
    ensures r.Err? <==> attr !in item || !(item[attr].StrList? || item[attr].Mapping? || item[attr].Str?)
    ensures r.Err? ==> r.error == if attr in item then NotIterable(attr) else MissingAttribute(attr)
    ensures r.Ok? && item[attr].StrList? ==> r.value == item[attr].xs
    ensures r.Ok? && item[attr].Mapping? ==> r.value == item[attr].keys
    ensures r.Ok? && item[attr].Str? ==>
      |r.value| == |item[attr].s| && forall i :: 0 <= i < |r.value| ==> r.value[i] == [item[attr].s[i]]
  {
    match Get(item, attr)
    case Err(e) => Err(e)
    case Ok(v) =>
      match v
      case StrList(xs) => Ok(xs)
      case Mapping(keys) => Ok(keys)
      case Str(s) => Ok(seq(|s|, i requires 0 <= i < |s| => [s[i]]))
      case _ => Err(NotIterable(attr))
  }

  // ---------------------------------------------------------------------------
  // The archive attribute: `date.strftime('%Y')`, `date.month`.

  function StampOf(item: Item, attr: string): (r: Result<Timestamp>)
    ensures r.Ok? <==> attr in item && item[attr].Stamp?
    ensures r.Ok? ==> r.value == item[attr].t
    ensures r.Err? ==> r.error == if attr in item then NotTimestamp(attr) else MissingAttribute(attr)
  {
    match Get(item, attr)
    case Err(e) => Err(e)
    case Ok(v) => if v.Stamp? then Ok(v.t) else Err(NotTimestamp(attr))
  }

  /** `strftime('%Y')`: the year in decimal, as glibc writes it (no padding). */
  function YearString(y: Year): string
  {
    Decimal(y)
  }

  /** For four-digit years, the string order in which the archive sorts its
      years is chronological order. */
  lemma YearStringOrder(y: Year, z: Year)
    requires 1000 <= y && 1000 <= z
    ensures StrLt(YearString(y), YearString(z)) <==> y < z
  {
    FourDigits(y);
    FourDigits(z);
    DecimalOrderSameWidth(y, z);
  }

  lemma FourDigits(n: nat)
    requires 1000 <= n < 10000
    ensures |Decimal(n)| == 4
  {
    assert |Decimal(n / 1000)| == 1;
    assert n / 100 / 10 == n / 1000 && |Decimal(n / 100)| == 2;
    assert n / 10 / 10 == n / 100 && |Decimal(n / 10)| == 3;
  }
}
