/** `all_items.sort(key=k)` followed by `all_items.reverse()`: Python's sort
    is stable and ascending, so the combination orders by descending key and
    puts items with equal keys in the reverse of their original order. */
module Ordering {

  /** Inserts `x` before the first element whose key is at least `x`'s. */
  function Insert<T>(x: T, s: seq<T>, key: T -> int): (r: seq<T>)
    decreases |s|
  {
    if s == [] || key(x) <= key(s[0]) then [x] + s
    else [s[0]] + Insert(x, s[1..], key)
  }

  /** Stable ascending sort (insertion sort: each element goes before the
      equal-keyed elements that follow it in the input). */
  function SortAscending<T>(xs: seq<T>, key: T -> int): seq<T>
    decreases |xs|
  {
    if xs == [] then [] else Insert(xs[0], SortAscending(xs[1..], key), key)
  }

  function Reverse<T>(s: seq<T>): (r: seq<T>)
    ensures |r| == |s|
    ensures forall i :: 0 <= i < |s| ==> r[i] == s[|s| - 1 - i]
    decreases |s|
  {
    if s == [] then [] else Reverse(s[1..]) + [s[0]]
  }

  /** The order `output_all` leaves the section's items in. */
  function OrderDescending<T>(xs: seq<T>, key: T -> int): seq<T>
  {
    Reverse(SortAscending(xs, key))
  }

  /** The elements with key `k`, in order. */
  function WithKey<T>(s: seq<T>, key: T -> int, k: int): seq<T>
    decreases |s|
  {
    if s == [] then []
    else (if key(s[0]) == k then [s[0]] else []) + WithKey(s[1..], key, k)
  }

  predicate Ascending<T>(s: seq<T>, key: T -> int)
  {
    forall i, j :: 0 <= i < j < |s| ==> key(s[i]) <= key(s[j])
  }

  predicate Descending<T>(s: seq<T>, key: T -> int)
  {
    forall i, j :: 0 <= i < j < |s| ==> key(s[i]) >= key(s[j])
  }

  // ---------------------------------------------------------------------------
  // Insertion

  lemma {:induction false} InsertPermutes<T>(x: T, s: seq<T>, key: T -> int)
    ensures multiset(Insert(x, s, key)) == multiset(s) + multiset{x}
    decreases |s|
  {
    if s != [] && key(x) > key(s[0]) {
      InsertPermutes(x, s[1..], key);
      assert s == [s[0]] + s[1..];
    }
  }

  lemma {:induction false} InsertAscending<T>(x: T, s: seq<T>, key: T -> int)
    requires Ascending(s, key)
    ensures Ascending(Insert(x, s, key), key)
    decreases |s|
  {
    if s == [] || key(x) <= key(s[0]) {
      ConsAscending(x, s, key);
    } else {
      var r := Insert(x, s[1..], key);
      InsertAscending(x, s[1..], key);
      InsertPermutes(x, s[1..], key);
      FirstBelowInserted(x, s, r, key);
      ConsAscending(s[0], r, key);
    }
  }

  /** The first of an ascending list is at most every element of the list
      that inserts a larger element into its rest. */
  lemma FirstBelowInserted<T>(x: T, s: seq<T>, r: seq<T>, key: T -> int)
    requires Ascending(s, key) && s != [] && key(x) > key(s[0])
    requires multiset(r) == multiset(s[1..]) + multiset{x}
    ensures forall j :: 0 <= j < |r| ==> key(s[0]) <= key(r[j])
  {
    forall j | 0 <= j < |r| ensures key(s[0]) <= key(r[j]) {
      assert r[j] in multiset(r);
      if r[j] != x {
        assert r[j] in multiset(s[1..]);
        var m :| 0 <= m < |s[1..]| && s[1..][m] == r[j];
        assert s[1 + m] == r[j];
      }
    }
  }

  lemma ConsAscending<T>(x: T, s: seq<T>, key: T -> int)
    requires Ascending(s, key)
    requires forall j :: 0 <= j < |s| ==> key(x) <= key(s[j])
    ensures Ascending([x] + s, key)
  {
    var r := [x] + s;
    forall i, j | 0 <= i < j < |r| ensures key(r[i]) <= key(r[j]) {
      assert r[j] == s[j - 1];
      if i > 0 { assert r[i] == s[i - 1]; }
    }
  }


  /** Inserting `x` adds it in front of the elements that share its key. */
  lemma {:induction false} InsertWithKey<T>(x: T, s: seq<T>, key: T -> int, k: int)
    ensures key(x) == k ==> WithKey(Insert(x, s, key), key, k) == [x] + WithKey(s, key, k)
    ensures key(x) != k ==> WithKey(Insert(x, s, key), key, k) == WithKey(s, key, k)
    decreases |s|
  {
    var r := Insert(x, s, key);
    if s == [] || key(x) <= key(s[0]) {
      assert r[0] == x && r[1..] == s;
    } else {
      assert r[0] == s[0] && r[1..] == Insert(x, s[1..], key);
      InsertWithKey(x, s[1..], key, k);
      var head := if key(s[0]) == k then [s[0]] else [];
      assert WithKey(r, key, k) == head + WithKey(r[1..], key, k);
      assert WithKey(s, key, k) == head + WithKey(s[1..], key, k);
      if key(x) == k {
        assert head == [];
      }
    }
  }


  // ---------------------------------------------------------------------------
  // Sorting

  lemma {:induction false} SortAscendingCorrect<T>(xs: seq<T>, key: T -> int)
    ensures Ascending(SortAscending(xs, key), key)
    ensures multiset(SortAscending(xs, key)) == multiset(xs)
    decreases |xs|
  {
    if xs != [] {
      SortAscendingCorrect(xs[1..], key);
      InsertAscending(xs[0], SortAscending(xs[1..], key), key);
      InsertPermutes(xs[0], SortAscending(xs[1..], key), key);
      assert xs == [xs[0]] + xs[1..];
    }
  }

  /** The sort is stable: the items sharing any one key keep their order. */
  lemma {:induction false} SortAscendingStable<T>(xs: seq<T>, key: T -> int, k: int)
    ensures WithKey(SortAscending(xs, key), key, k) == WithKey(xs, key, k)
    decreases |xs|
  {
    if xs != [] {
      SortAscendingStable(xs[1..], key, k);
      InsertWithKey(xs[0], SortAscending(xs[1..], key), key, k);
    }
  }

  lemma {:induction false} WithKeyAppend<T>(s: seq<T>, t: seq<T>, key: T -> int, k: int)
    ensures WithKey(s + t, key, k) == WithKey(s, key, k) + WithKey(t, key, k)
    decreases |s|
  {
    if s == [] {
      assert s + t == t;
    } else {
      var head := if key(s[0]) == k then [s[0]] else [];
      assert (s + t)[0] == s[0] && (s + t)[1..] == s[1..] + t;
      assert WithKey(s + t, key, k) == head + WithKey(s[1..] + t, key, k);
      WithKeyAppend(s[1..], t, key, k);
      assert WithKey(s, key, k) == head + WithKey(s[1..], key, k);
      assert head + (WithKey(s[1..], key, k) + WithKey(t, key, k))
          == (head + WithKey(s[1..], key, k)) + WithKey(t, key, k);
    }
  }

  lemma {:induction false} WithKeyReverse<T>(s: seq<T>, key: T -> int, k: int)
    ensures WithKey(Reverse(s), key, k) == Reverse(WithKey(s, key, k))
    decreases |s|
  {
    if s != [] {
      WithKeyReverse(s[1..], key, k);
      WithKeyAppend(Reverse(s[1..]), [s[0]], key, k);
      var head := if key(s[0]) == k then [s[0]] else [];
      var tail := WithKey(s[1..], key, k);
      assert WithKey([s[0]], key, k) == head;
      assert Reverse(head + tail) == Reverse(tail) + head;
    }
  }

  lemma ReversePermutes<T>(s: seq<T>)
    ensures multiset(Reverse(s)) == multiset(s)
  {
    if s != [] {
      ReversePermutes(s[1..]);
      assert s == [s[0]] + s[1..];
    }
  }

  /** After `sort` and `reverse`: the same items, keys non-increasing, and the
      items of each key in the reverse of their input order. */
  lemma OrderDescendingCorrect<T>(xs: seq<T>, key: T -> int)
    ensures var r := OrderDescending(xs, key);
      && multiset(r) == multiset(xs)
      && Descending(r, key)
      && forall k :: WithKey(r, key, k) == Reverse(WithKey(xs, key, k))
  {
    var sorted := SortAscending(xs, key);
    SortAscendingCorrect(xs, key);
    ReversePermutes(sorted);
    forall k ensures WithKey(Reverse(sorted), key, k) == Reverse(WithKey(xs, key, k)) {
      WithKeyReverse(sorted, key, k);
      SortAscendingStable(xs, key, k);
    }
  }

  /** The first item after ordering carries the largest key of the section. */
  lemma OrderDescendingFirstIsLargest<T>(xs: seq<T>, key: T -> int)
    requires xs != []
    ensures var r := OrderDescending(xs, key);
      r != [] && forall x :: x in xs ==> key(x) <= key(r[0])
  {
    var r := OrderDescending(xs, key);
    OrderDescendingCorrect(xs, key);
    assert |r| == |xs| by {
      assert |multiset(r)| == |multiset(xs)|;
    }
    forall x | x in xs ensures key(x) <= key(r[0]) {
      assert x in multiset(r);
      var j :| 0 <= j < |r| && r[j] == x;
      if j > 0 {}
    }
  }

  // ---------------------------------------------------------------------------
  // In place, on the caller's list

  /** `a.sort(key=key)`: the library sort leaves the stable ascending order. */
  method SortInPlace<T>(a: array<T>, key: T -> int)
    modifies a
    ensures a[..] == SortAscending(old(a[..]), key)
  {
    var sorted := SortAscending(a[..], key);
    SortAscendingCorrect(a[..], key);
    assert |sorted| == |multiset(sorted)| == |multiset(a[..])| == a.Length;
    forall i | 0 <= i < a.Length {
      a[i] := sorted[i];
    }
  }

  /** `a.reverse()`: swaps from both ends towards the middle. */
  method ReverseInPlace<T>(a: array<T>)
    modifies a
    ensures a[..] == Reverse(old(a[..]))
  {
    var i := 0;
    while i < a.Length - 1 - i
      invariant 0 <= i <= a.Length - i
      invariant forall k :: 0 <= k < i ==> a[k] == old(a[a.Length - 1 - k]) && a[a.Length - 1 - k] == old(a[k])
      invariant forall k :: i <= k < a.Length - i ==> a[k] == old(a[k])
    {
      a[i], a[a.Length - 1 - i] := a[a.Length - 1 - i], a[i];
      i := i + 1;
    }
    assert forall k :: 0 <= k < a.Length ==> a[k] == old(a[..])[a.Length - 1 - k];
  }
}
