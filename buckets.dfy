/** `collections.defaultdict(lambda: collections.defaultdict(list))`, the
    two-level dictionary both `output_linkables` and `output_archive` fill
    with `d[k][l].append(v)`. Python dictionaries iterate in the order keys
    were first inserted, so the model keeps that order explicitly. */
module Buckets {

  /** Outer keys in first-use order, each outer key's inner keys in first-use
      order, and the list stored under each pair. */
  datatype Nested<K(==), L(==), V> = Nested(
    outer: seq<K>,
    inner: map<K, seq<L>>,
    lists: map<(K, L), seq<V>>)

  function Empty<K(==), L(==), V>(): Nested<K, L, V>
  {
    Nested([], map[], map[])
  }

  /** `d[k][l]` as a read that does not insert: the empty list when absent. */
  function List<K(==), L(==), V>(d: Nested<K, L, V>, k: K, l: L): seq<V>
  {
    if (k, l) in d.lists then d.lists[(k, l)] else []
  }

  function InnerOf<K(==), L(==), V>(d: Nested<K, L, V>, k: K): seq<L>
  {
    if k in d.inner then d.inner[k] else []
  }

  predicate Distinct<T(==)>(s: seq<T>)
  {
    forall i, j :: 0 <= i < j < |s| ==> s[i] != s[j]
  }

  /** The shape `d[k][l].append(v)` keeps: each outer key listed once, each
      inner key listed once under its outer key, and a non-empty list for
      exactly the listed pairs. */
  ghost predicate Valid<K(!new), L(!new), V>(d: Nested<K, L, V>)
  {
    && Distinct(d.outer)
    && (forall k :: k in d.inner <==> k in d.outer)
    && (forall k :: k in d.inner ==> Distinct(d.inner[k]) && d.inner[k] != [])
    && (forall k, l :: (k, l) in d.lists <==> k in d.inner && l in d.inner[k])
    && (forall p :: p in d.lists ==> d.lists[p] != [])
  }

  /** `d[k][l].append(v)`: missing keys are created at the end of their order. */
  function Append<K(==), L(==), V>(d: Nested<K, L, V>, k: K, l: L, v: V): Nested<K, L, V>
  {
    var ls := InnerOf(d, k);
    Nested(
      if k in d.inner then d.outer else d.outer + [k],
      d.inner[k := if l in ls then ls else ls + [l]],
      d.lists[(k, l) := List(d, k, l) + [v]])
  }

  lemma AppendList<K, L, V>(d: Nested<K, L, V>, k: K, l: L, v: V, k': K, l': L)
    ensures List(Append(d, k, l, v), k', l') == List(d, k', l') + (if k == k' && l == l' then [v] else [])
  {
  }

  lemma AppendValid<K(!new), L(!new), V>(d: Nested<K, L, V>, k: K, l: L, v: V)
    requires Valid(d)
    ensures Valid(Append(d, k, l, v))
  {
    var r := Append(d, k, l, v);
    if k !in d.inner {
      assert forall x :: x in d.outer ==> x != k;
    }
    forall k', l' ensures (k', l') in r.lists <==> k' in r.inner && l' in r.inner[k'] {
      if k' == k && l' != l {
        assert (k', l') in d.lists <==> l' in InnerOf(d, k);
      }
    }
  }

  // ---------------------------------------------------------------------------
  // Sequence helpers for describing the lists.

  function Count<T(==)>(s: seq<T>, x: T): nat
    decreases |s|
  {
    if s == [] then 0 else Count(s[..|s| - 1], x) + (if s[|s| - 1] == x then 1 else 0)
  }

  function Repeat<T>(x: T, n: nat): (r: seq<T>)
    ensures |r| == n && forall i :: 0 <= i < n ==> r[i] == x
  {
    seq(n, _ => x)
  }

  lemma {:induction false} CountAbsent<T>(s: seq<T>, x: T)
    requires x !in s
    ensures Count(s, x) == 0
    decreases |s|
  {
    if s != [] {
      assert forall y :: y in s[..|s| - 1] ==> y in s;
      CountAbsent(s[..|s| - 1], x);
    }
  }

  lemma {:induction false} CountPresent<T>(s: seq<T>, x: T)
    requires x in s
    ensures Count(s, x) > 0
    decreases |s|
  {
    if s[|s| - 1] != x {
      var k :| 0 <= k < |s| && s[k] == x;
      assert s[..|s| - 1][k] == x;
      CountPresent(s[..|s| - 1], x);
    }
  }

  lemma {:induction false} DistinctCounts<T>(s: seq<T>, v: T)
    requires Distinct(s)
    ensures multiset(s)[v] <= 1
    decreases |s|
  {
    if s != [] {
      var init := s[..|s| - 1];
      assert s == init + [s[|s| - 1]];
      DistinctCounts(init, v);
      assert forall k :: 0 <= k < |init| ==> init[k] == s[k] != s[|s| - 1];
    }
  }

  /** A rearrangement of a list without repetitions has none either. */
  lemma DistinctPermutation<T>(s: seq<T>, t: seq<T>)
    requires Distinct(s) && multiset(s) == multiset(t)
    ensures Distinct(t)
  {
    forall i, j | 0 <= i < j < |t| ensures t[i] != t[j] {
      DistinctCounts(s, t[i]);
      if t[i] == t[j] {
        TwiceCounted(t, i, j);
      }
    }
  }

  lemma TwiceCounted<T>(t: seq<T>, i: nat, j: nat)
    requires i < j < |t| && t[i] == t[j]
    ensures multiset(t)[t[i]] >= 2
  {
    assert t == t[..j] + t[j..];
    assert t[i] in t[..j] && t[j] in t[j..];
  }
}
