/** The bucketing half of `output_linkables`: for every item, every linkable
    attribute and every value in that item's attribute, the item is appended
    to `linkables[attr][value]` (a nested `defaultdict(list)`, which keeps
    the order in which keys were first used). */
module Linkables {
  import opened Common
  import opened Items
  import opened Buckets

  /** `linkables`: attributes in first-use order, each attribute's values in
      first-use order, and the items listed under each (attribute, value). */
  type Index = Nested<string, string, Item>

  function Group(idx: Index, a: string, v: string): seq<Item>
  {
    List(idx, a, v)
  }

  /** `for attr_value in vs: linkables[a][attr_value].append(it)`. */
  function AppendAll(idx: Index, a: string, vs: seq<string>, it: Item): Index
    decreases |vs|
  {
    if vs == [] then idx else Append(AppendAll(idx, a, vs[..|vs| - 1], it), a, vs[|vs| - 1], it)
  }

  /** `for attr in attrs: for attr_value in it[attr]: ...`, failing on the
      first attribute that is missing or not iterable. */
  function AddItem(idx: Index, attrs: seq<string>, it: Item): Result<Index>
    decreases |attrs|
  {
    if attrs == [] then Ok(idx)
    else
      var prev :- AddItem(idx, attrs[..|attrs| - 1], it);
      var vs :- LinkValues(it, attrs[|attrs| - 1]);
      Ok(AppendAll(prev, attrs[|attrs| - 1], vs, it))
  }

  /** The dictionary after the loop over all items. */
  function Build(items: seq<Item>, attrs: seq<string>): Result<Index>
    decreases |items|
  {
    if items == [] then Ok(Empty())
    else
      var prev :- Build(items[..|items| - 1], attrs);
      AddItem(prev, attrs, items[|items| - 1])
  }

  // ---------------------------------------------------------------------------
  // The independent description of each group.

  /** How often the loops append `it` to group (a, v): once per listing of
      `a` in `attrs` times once per occurrence of `v` in its value list. */
  function Occurrences(it: Item, attrs: seq<string>, a: string, v: string): nat
  {
    if a in attrs && LinkValues(it, a).Ok? then Count(attrs, a) * Count(LinkValues(it, a).value, v) else 0
  }

  /** Each item, in section order, repeated as often as the loops append it. */
  function Expected(items: seq<Item>, attrs: seq<string>, a: string, v: string): seq<Item>
    decreases |items|
  {
    if items == [] then []
    else Expected(items[..|items| - 1], attrs, a, v) + Repeat(items[|items| - 1], Occurrences(items[|items| - 1], attrs, a, v))
  }

  /** Every listed attribute of every item can be iterated. */
  predicate AllIterable(items: seq<Item>, attrs: seq<string>)
  {
    forall i, k :: 0 <= i < |items| && 0 <= k < |attrs| ==> LinkValues(items[i], attrs[k]).Ok?
  }

  // ---------------------------------------------------------------------------
  // Lemmas

  lemma {:induction false} AppendAllGroup(idx: Index, a: string, vs: seq<string>, it: Item, b: string, w: string)
    ensures Group(AppendAll(idx, a, vs, it), b, w) == Group(idx, b, w) + Repeat(it, if a == b then Count(vs, w) else 0)
    decreases |vs|
  {
    if vs != [] {
      var init := vs[..|vs| - 1];
      AppendAllGroup(idx, a, init, it, b, w);
      AppendList(AppendAll(idx, a, init, it), a, vs[|vs| - 1], it, b, w);
    }
  }

  lemma {:induction false} AppendAllValid(idx: Index, a: string, vs: seq<string>, it: Item)
    requires Valid(idx)
    ensures Valid(AppendAll(idx, a, vs, it))
    decreases |vs|
  {
    if vs != [] {
      AppendAllValid(idx, a, vs[..|vs| - 1], it);
      AppendValid(AppendAll(idx, a, vs[..|vs| - 1], it), a, vs[|vs| - 1], it);
    }
  }

  lemma {:induction false} AddItemGroup(idx: Index, attrs: seq<string>, it: Item, b: string, w: string)
    requires AddItem(idx, attrs, it).Ok?
    ensures Group(AddItem(idx, attrs, it).value, b, w) == Group(idx, b, w) + Repeat(it, Occurrences(it, attrs, b, w))
    decreases |attrs|
  {
    if attrs != [] {
      var init, a := attrs[..|attrs| - 1], attrs[|attrs| - 1];
      var prev := AddItem(idx, init, it).value;
      AddItemGroup(idx, init, it, b, w);
      var vs := LinkValues(it, a).value;
      AppendAllGroup(prev, a, vs, it, b, w);
      var n0 := Occurrences(it, init, b, w);
      var n1 := if a == b then Count(vs, w) else 0;
      OccurrencesStep(it, attrs, b, w);
      assert Repeat(it, n0) + Repeat(it, n1) == Repeat(it, n0 + n1);
    }
  }

  lemma OccurrencesStep(it: Item, attrs: seq<string>, b: string, w: string)
    requires attrs != [] && LinkValues(it, attrs[|attrs| - 1]).Ok?
    ensures var init, a := attrs[..|attrs| - 1], attrs[|attrs| - 1];
      Occurrences(it, attrs, b, w)
      == Occurrences(it, init, b, w) + (if a == b then Count(LinkValues(it, a).value, w) else 0)
  {
    var init, a := attrs[..|attrs| - 1], attrs[|attrs| - 1];
    assert Count(attrs, b) == Count(init, b) + (if a == b then 1 else 0);
    assert attrs == init + [a];
    if b in attrs && LinkValues(it, b).Ok? {
      var c := Count(LinkValues(it, b).value, w);
      if b !in init {
        CountAbsent(init, b);
      }
      assert (Count(init, b) + (if a == b then 1 else 0)) * c == Count(init, b) * c + (if a == b then c else 0);
    }
  }

  lemma {:induction false} AddItemValid(idx: Index, attrs: seq<string>, it: Item)
    requires AddItem(idx, attrs, it).Ok?
    requires Valid(idx)
    ensures Valid(AddItem(idx, attrs, it).value)
    decreases |attrs|
  {
    if attrs != [] {
      var init, a := attrs[..|attrs| - 1], attrs[|attrs| - 1];
      AddItemValid(idx, init, it);
      AppendAllValid(AddItem(idx, init, it).value, a, LinkValues(it, a).value, it);
    }
  }

  lemma ProductPositive(m: nat, n: nat)
    ensures m * n > 0 <==> m > 0 && n > 0
  {
    if m > 0 && n > 0 {
      assert m * n >= n;
    }
  }

  /** The loops fail exactly when some listed attribute of some item is
      missing or cannot be iterated. */
  lemma {:induction false} BuildOk(items: seq<Item>, attrs: seq<string>)
    ensures Build(items, attrs).Ok? <==> AllIterable(items, attrs)
    decreases |items|
  {
    if items != [] {
      var init, it := items[..|items| - 1], items[|items| - 1];
      BuildOk(init, attrs);
      AllIterableStep(items, attrs);
      if Build(init, attrs).Ok? {
        AddItemOk(Build(init, attrs).value, attrs, it);
      }
    }
  }

  /** Every item can be iterated exactly when all but the last can and the
      last can too. */
  lemma AllIterableStep(items: seq<Item>, attrs: seq<string>)
    requires items != []
    ensures AllIterable(items, attrs) <==>
      AllIterable(items[..|items| - 1], attrs) && forall k :: 0 <= k < |attrs| ==> LinkValues(items[|items| - 1], attrs[k]).Ok?
  {
    var init, it := items[..|items| - 1], items[|items| - 1];
    assert forall i :: 0 <= i < |init| ==> init[i] == items[i];
    if AllIterable(init, attrs) && forall k :: 0 <= k < |attrs| ==> LinkValues(it, attrs[k]).Ok? {
      forall i, k | 0 <= i < |items| && 0 <= k < |attrs| ensures LinkValues(items[i], attrs[k]).Ok? {
        if i < |init| { assert items[i] == init[i]; }
      }
    }
  }

  /** When they succeed, the dictionary they build is well formed. */
  lemma {:induction false} BuildValid(items: seq<Item>, attrs: seq<string>)
    requires Build(items, attrs).Ok?
    ensures Valid(Build(items, attrs).value)
    decreases |items|
  {
    if items != [] {
      var init, it := items[..|items| - 1], items[|items| - 1];
      BuildValid(init, attrs);
      AddItemValid(Build(init, attrs).value, attrs, it);
    }
  }

  /** Group (a, v) of the built dictionary is exactly `Expected`: each item in
      section order, once per listing of `a` and per occurrence of `v`. */
  lemma {:induction false} BuildGroup(items: seq<Item>, attrs: seq<string>, a: string, v: string)
    requires Build(items, attrs).Ok?
    ensures Group(Build(items, attrs).value, a, v) == Expected(items, attrs, a, v)
    decreases |items|
  {
    if items != [] {
      var init, it := items[..|items| - 1], items[|items| - 1];
      BuildGroup(init, attrs, a, v);
      AddItemGroup(Build(init, attrs).value, attrs, it, a, v);
    }
  }

  lemma {:induction false} AddItemOk(idx: Index, attrs: seq<string>, it: Item)
    ensures AddItem(idx, attrs, it).Ok? <==> forall k :: 0 <= k < |attrs| ==> LinkValues(it, attrs[k]).Ok?
    decreases |attrs|
  {
    if attrs != [] {
      var init := attrs[..|attrs| - 1];
      AddItemOk(idx, init, it);
      if AddItem(idx, init, it).Ok? {
        assert AddItem(idx, attrs, it).Ok? <==> LinkValues(it, attrs[|attrs| - 1]).Ok?;
      }
      IterableStep(attrs, it);
    }
  }

  predicate Iterable(it: Item, attrs: seq<string>)
  {
    forall k :: 0 <= k < |attrs| ==> LinkValues(it, attrs[k]).Ok?
  }

  /** Every listed attribute can be iterated exactly when all but the last
      can and the last can too. */
  lemma IterableStep(attrs: seq<string>, it: Item)
    requires attrs != []
    ensures Iterable(it, attrs) <==> Iterable(it, attrs[..|attrs| - 1]) && LinkValues(it, attrs[|attrs| - 1]).Ok?
  {
    var init := attrs[..|attrs| - 1];
    assert forall k :: 0 <= k < |init| ==> init[k] == attrs[k];
  }

  lemma {:induction false} ExpectedMembers(items: seq<Item>, attrs: seq<string>, a: string, v: string, x: Item)
    ensures x in Expected(items, attrs, a, v) <==> x in items && Occurrences(x, attrs, a, v) > 0
    decreases |items|
  {
    if items != [] {
      var init, last := items[..|items| - 1], items[|items| - 1];
      ExpectedMembers(init, attrs, a, v, x);
      assert items == init + [last];
      var rep := Repeat(last, Occurrences(last, attrs, a, v));
      assert x in rep <==> x == last && Occurrences(last, attrs, a, v) > 0 by {
        if x in rep { var k :| 0 <= k < |rep| && rep[k] == x; }
        if x == last && Occurrences(last, attrs, a, v) > 0 { assert rep[0] == x; }
      }
    }
  }

  /** An item is in the page of (a, v) exactly when it is one of the section's
      items, `a` is a linkable attribute and `v` is among its values of `a`. */
  lemma GroupMembers(items: seq<Item>, attrs: seq<string>, idx: Index, a: string, v: string, x: Item)
    requires Build(items, attrs) == Ok(idx)
    ensures x in Group(idx, a, v) <==>
      x in items && a in attrs && LinkValues(x, a).Ok? && v in LinkValues(x, a).value
  {
    BuildGroup(items, attrs, a, v);
    ExpectedMembers(items, attrs, a, v, x);
    if x in items && a in attrs && LinkValues(x, a).Ok? {
      CountPresent(attrs, a);
      var vs := LinkValues(x, a).value;
      if v in vs {
        CountPresent(vs, v);
      } else {
        CountAbsent(vs, v);
      }
      ProductPositive(Count(attrs, a), Count(vs, v));
    }
  }

  // ---------------------------------------------------------------------------
  // The loops themselves.

  lemma {:induction false} AddItemErrorSticks(idx: Index, attrs: seq<string>, it: Item, m: nat)
    requires m <= |attrs| && AddItem(idx, attrs[..m], it).Err?
    ensures AddItem(idx, attrs, it) == AddItem(idx, attrs[..m], it)
    decreases |attrs| - m
  {
    if m < |attrs| {
      assert attrs[..m + 1][..m] == attrs[..m];
      AddItemErrorSticks(idx, attrs, it, m + 1);
    } else {
      assert attrs[..m] == attrs;
    }
  }

  lemma {:induction false} BuildErrorSticks(items: seq<Item>, attrs: seq<string>, m: nat)
    requires m <= |items| && Build(items[..m], attrs).Err?
    ensures Build(items, attrs) == Build(items[..m], attrs)
    decreases |items| - m
  {
    if m < |items| {
      assert items[..m + 1][..m] == items[..m];
      BuildErrorSticks(items, attrs, m + 1);
    } else {
      assert items[..m] == items;
    }
  }

  /** The nested loops of `output_linkables` that fill the dictionary. */
  method Collect(items: seq<Item>, attrs: seq<string>) returns (r: Result<Index>)
    ensures r == Build(items, attrs)
  {
    var idx: Index := Empty();
    for i := 0 to |items|
      invariant Build(items[..i], attrs) == Ok(idx)
    {
      assert items[..i + 1][..i] == items[..i];
      var added := AddOne(idx, attrs, items[i]);
      if added.Err? {
        BuildErrorSticks(items, attrs, i + 1);
        return added;
      }
      idx := added.value;
    }
    assert items[..|items|] == items;
    return Ok(idx);
  }

  /** The loop over the link attributes for one item. */
  method AddOne(idx: Index, attrs: seq<string>, content: Item) returns (r: Result<Index>)
    ensures r == AddItem(idx, attrs, content)
  {
    var cur := idx;
    for k := 0 to |attrs|
      invariant AddItem(idx, attrs[..k], content) == Ok(cur)
    {
      var attr := attrs[k];
      assert attrs[..k + 1][..k] == attrs[..k];
      var values := LinkValues(content, attr);
      if values.Err? {
        AddItemErrorSticks(idx, attrs, content, k + 1);
        return Err(values.error);
      }
      cur := AppendValues(cur, attr, values.value, content);
    }
    assert attrs[..|attrs|] == attrs;
    return Ok(cur);
  }

  /** The innermost loop: `content` is appended under each value in turn. */
  method AppendValues(idx: Index, attr: string, values: seq<string>, content: Item) returns (r: Index)
    ensures r == AppendAll(idx, attr, values, content)
  {
    r := idx;
    for j := 0 to |values|
      invariant r == AppendAll(idx, attr, values[..j], content)
    {
      assert values[..j + 1][..j] == values[..j];
      r := Append(r, attr, values[j], content);
    }
    assert values[..|values|] == values;
  }
}
