/** `paginate(size, items)`: (page number, slice) pairs over `range(0, len(items), size)`. */
module Pagination {
  import opened Common

  datatype Page<T> = Page(number: nat, items: seq<T>)

  function Min(a: int, b: int): int { if a <= b then a else b }

  /** Pages of `size` items cut from the front of `xs`, numbered from `first`. */
  function PagesFrom<T>(size: nat, xs: seq<T>, first: nat): seq<Page<T>>
    requires size >= 1
    decreases |xs|
  {
    if xs == [] then []
    else
      var n := Min(size, |xs|);
      [Page(first, xs[..n])] + PagesFrom(size, xs[n..], first + 1)
  }

  /** A zero step makes `range` raise ValueError; a negative step gives an
      empty range, hence no pages. */
  function Paginate<T>(size: int, xs: seq<T>): (r: Result<seq<Page<T>>>)
    ensures r.Err? <==> size == 0
    ensures r.Err? ==> r.error == ZeroPageSize
    ensures size < 0 ==> r == Ok([])
  {
    if size == 0 then Err(ZeroPageSize)
    else if size < 0 then Ok([])
    else Ok(PagesFrom(size, xs, 1))
  }

  /** `int(math.ceil(float(n) / size))` for a positive size. */
  function CeilDiv(n: nat, size: nat): nat
    requires size >= 1
    decreases n
  {
    if n == 0 then 0 else if n <= size then 1 else 1 + CeilDiv(n - size, size)
  }

  /** `CeilDiv` is the ceiling of the quotient: the least c with c * size >= n. */
  lemma {:induction false} CeilDivIsCeiling(n: nat, size: nat)
    requires size >= 1
    ensures var c := CeilDiv(n, size);
      c * size >= n && (c == 0 || (c - 1) * size < n)
    decreases n
  {
    if n > size {
      var c' := CeilDiv(n - size, size);
      CeilDivIsCeiling(n - size, size);
      assert (c' + 1) * size == c' * size + size;
      assert c' * size == (c' - 1) * size + size;
    }
  }

  function Flatten<T>(pages: seq<Page<T>>): seq<T>
    decreases |pages|
  {
    if pages == [] then [] else pages[0].items + Flatten(pages[1..])
  }

  /** There are ceil(|xs|/size) pages. */
  lemma {:induction false} PagesFromCount<T>(size: nat, xs: seq<T>, first: nat)
    requires size >= 1
    ensures |PagesFrom(size, xs, first)| == CeilDiv(|xs|, size)
    decreases |xs|
  {
    if xs != [] {
      var n := Min(size, |xs|);
      PagesFromCount(size, xs[n..], first + 1);
    }
  }

  /** Pages are numbered consecutively from `first`; all but the last are
      full and the last is non-empty. */
  lemma {:induction false} PagesFromShape<T>(size: nat, xs: seq<T>, first: nat)
    requires size >= 1
    ensures var pages := PagesFrom(size, xs, first);
      && (forall i :: 0 <= i < |pages| ==> pages[i].number == first + i)
      && (forall i :: 0 <= i < |pages| - 1 ==> |pages[i].items| == size)
      && (pages != [] ==> 1 <= |pages[|pages| - 1].items| <= size)
    decreases |xs|
  {
    if xs != [] {
      var n := Min(size, |xs|);
      PagesFromShape(size, xs[n..], first + 1);
      var rest := PagesFrom(size, xs[n..], first + 1);
      assert PagesFrom(size, xs, first) == [Page(first, xs[..n])] + rest;
      if |xs| > size {
        assert xs[n..] != [];
      }
    }
  }

  /** The start of page i: i * size, computed by repeated addition. */
  function Offset(i: nat, size: nat): nat
  {
    if i == 0 then 0 else Offset(i - 1, size) + size
  }

  lemma {:induction false} OffsetIsProduct(i: nat, size: nat)
    ensures Offset(i, size) == i * size
  {
    if i > 0 {
      OffsetIsProduct(i - 1, size);
      assert (i - 1) * size + size == i * size;
    }
  }

  lemma {:induction false} PagesFromOffsets<T>(size: nat, xs: seq<T>, first: nat, i: nat)
    requires size >= 1
    requires i < |PagesFrom(size, xs, first)|
    ensures Offset(i, size) < |xs|
    ensures PagesFrom(size, xs, first)[i].items == xs[Offset(i, size) .. Min(Offset(i, size) + size, |xs|)]
    decreases i
  {
    assert xs != [];
    var n := Min(size, |xs|);
    var rest := xs[n..];
    var tail := PagesFrom(size, rest, first + 1);
    assert PagesFrom(size, xs, first) == [Page(first, xs[..n])] + tail;
    if i == 0 {
      assert Offset(0, size) == 0;
    } else {
      var j := i - 1;
      assert PagesFrom(size, xs, first)[i] == tail[j];
      PagesFromOffsets(size, rest, first + 1, j);
      var off := Offset(j, size);
      assert Offset(i, size) == off + size;
      assert n == size;
      var hi := Min(off + size, |rest|);
      assert tail[j].items == rest[off .. hi];
      assert off <= hi <= |rest|;
      SliceOfSlice(xs, size, off, hi);
      assert size + hi == Min(Offset(i, size) + size, |xs|);
    }
  }

  lemma SliceOfSlice<T>(xs: seq<T>, a: nat, lo: nat, hi: nat)
    requires a <= |xs| && lo <= hi <= |xs| - a
    ensures xs[a..][lo..hi] == xs[a + lo .. a + hi]
  {
  }

  /** Page k holds `items[(k-1)*size : k*size]`, as the generator slices it. */
  lemma PagesFromSlices<T>(size: nat, xs: seq<T>, first: nat, i: nat)
    requires size >= 1
    requires i < |PagesFrom(size, xs, first)|
    ensures i * size < |xs|
    ensures PagesFrom(size, xs, first)[i].items == xs[i * size .. Min(i * size + size, |xs|)]
  {
    PagesFromOffsets(size, xs, first, i);
    OffsetIsProduct(i, size);
  }

  /** Page k (from 0) is numbered k + 1 and holds `items[k*size : (k+1)*size]`. */
  lemma PagesAt<T>(size: nat, xs: seq<T>, k: nat)
    requires size >= 1 && k < |PagesFrom(size, xs, 1)|
    ensures k * size < |xs|
    ensures PagesFrom(size, xs, 1)[k] == Page(k + 1, xs[k * size .. Min(k * size + size, |xs|)])
  {
    PagesFromShape(size, xs, 1);
    PagesFromSlices(size, xs, 1, k);
  }

  lemma {:induction false} FlattenPagesFrom<T>(size: nat, xs: seq<T>, first: nat)
    requires size >= 1
    ensures Flatten(PagesFrom(size, xs, first)) == xs
    decreases |xs|
  {
    if xs != [] {
      var n := Min(size, |xs|);
      FlattenPagesFrom(size, xs[n..], first + 1);
      assert xs == xs[..n] + xs[n..];
    }
  }

  /** What `test_paginate.py` checks, for every positive size: pages are
      numbered 1, 2, ... consecutively; together they give back the input in
      order; every page but the last is full, the last is non-empty; and their
      number is ceil(len/size), zero for the empty list. */
  lemma PaginateCorrect<T>(size: int, xs: seq<T>)
    requires size >= 1
    ensures Paginate(size, xs).Ok?
    ensures var pages := Paginate(size, xs).value;
      && |pages| == CeilDiv(|xs|, size)
      && (xs == [] <==> pages == [])
      && Flatten(pages) == xs
      && (forall i :: 0 <= i < |pages| ==> pages[i].number == i + 1)
      && (forall i :: 0 <= i < |pages| - 1 ==> |pages[i].items| == size)
      && (pages != [] ==> 1 <= |pages[|pages| - 1].items| <= size)
  {
    PagesFromCount(size, xs, 1);
    PagesFromShape(size, xs, 1);
    FlattenPagesFrom(size, xs, 1);
  }

  /** The examples of `test_paginate.py`. */
  lemma PaginateExamples()
    ensures Paginate<int>(2, [1, 2, 3, 4, 5]) == Ok([Page(1, [1, 2]), Page(2, [3, 4]), Page(3, [5])])
    ensures Paginate<int>(10, [1, 2]) == Ok([Page(1, [1, 2])])
    ensures Paginate<int>(3, []) == Ok([])
  {
    var xs := [1, 2, 3, 4, 5];
    assert xs[..2] == [1, 2] && xs[2..] == [3, 4, 5];
    assert [3, 4, 5][..2] == [3, 4] && [3, 4, 5][2..] == [5];
    assert [5][..1] == [5] && [5][1..] == [];
    var p3 := PagesFrom(2, [5], 3);
    assert p3 == [Page(3, [5])];
    var p2 := PagesFrom(2, [3, 4, 5], 2);
    assert p2 == [Page(2, [3, 4])] + p3;
    var p1 := PagesFrom(2, xs, 1);
    assert p1 == [Page(1, [1, 2])] + p2;
    assert Paginate(2, xs) == Ok(p1);
    assert p1 == [Page(1, [1, 2]), Page(2, [3, 4]), Page(3, [5])];
    assert Paginate<int>(2, [1, 2, 3, 4, 5]) == Ok(p1);
    var ys := [1, 2];
    assert ys[..2] == ys && ys[2..] == [];
    assert PagesFrom(10, ys, 1) == [Page(1, ys)] + PagesFrom(10, [], 2);
    assert PagesFrom(10, ys, 1) == [Page(1, [1, 2])];
    assert Paginate(10, ys) == Ok(PagesFrom(10, ys, 1));
  }
}
