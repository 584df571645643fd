/** String helpers the program relies on: Python's string ordering, decimal
    rendering of integers, POSIX path joining, `os.path.splitext` and the
    `%b` month abbreviation. */
module Strings {

  // ---------------------------------------------------------------------------
  // Python's `<` on str: lexicographic by code point, a proper prefix first.

  predicate StrLt(a: string, b: string)
  {
    if a == [] then b != []
    else if b == [] then false
    else if a[0] != b[0] then a[0] < b[0]
    else StrLt(a[1..], b[1..])
  }

  lemma {:induction false} StrLtIrreflexive(a: string)
    ensures !StrLt(a, a)
  {
    if a != [] {
      StrLtIrreflexive(a[1..]);
    }
  }

  lemma {:induction false} StrLtTransitive(a: string, b: string, c: string)
    requires StrLt(a, b) && StrLt(b, c)
    ensures StrLt(a, c)
  {
    if a != [] && b != [] && c != [] && a[0] == b[0] && b[0] == c[0] {
      StrLtTransitive(a[1..], b[1..], c[1..]);
    }
  }

  /** Any two distinct strings are ordered one way or the other. */
  lemma {:induction false} StrLtTotal(a: string, b: string)
    requires a != b
    ensures StrLt(a, b) || StrLt(b, a)
  {
    if a != [] && b != [] && a[0] == b[0] {
      assert a == [a[0]] + a[1..] && b == [b[0]] + b[1..];
      StrLtTotal(a[1..], b[1..]);
    }
  }

  // ---------------------------------------------------------------------------
  // `str(n)` for a natural number, and its inverse.

  function DigitChar(d: nat): (c: char)
    requires d < 10
    ensures '0' <= c <= '9' && c as int - '0' as int == d
  {
    (d + '0' as int) as char
  }

  predicate IsDigits(s: string)
  {
    forall i :: 0 <= i < |s| ==> '0' <= s[i] <= '9'
  }

  function Decimal(n: nat): (s: string)
    decreases n
  {
    if n < 10 then [DigitChar(n)] else Decimal(n / 10) + [DigitChar(n % 10)]
  }

  function ParseDecimal(s: string): int
    decreases |s|
  {
    if s == [] then 0
    else ParseDecimal(s[..|s| - 1]) * 10 + (s[|s| - 1] as int - '0' as int)
  }

  /** `str(n)` is a non-empty run of digits with no leading zero, and reading it back gives `n`. */
  lemma {:induction false} DecimalRoundTrip(n: nat)
    ensures Decimal(n) != [] && IsDigits(Decimal(n))
    ensures |Decimal(n)| > 1 ==> Decimal(n)[0] != '0'
    ensures ParseDecimal(Decimal(n)) == n
    decreases n
  {
    if n >= 10 {
      DecimalRoundTrip(n / 10);
      var s := Decimal(n);
      assert s[..|s| - 1] == Decimal(n / 10);
    }
  }

  lemma DecimalInjective(a: nat, b: nat)
    requires Decimal(a) == Decimal(b)
    ensures a == b
  {
    DecimalRoundTrip(a);
    DecimalRoundTrip(b);
  }

  /** Among numbers written with the same number of digits, string order is numeric order. */
  lemma {:induction false} DecimalOrderSameWidth(a: nat, b: nat)
    requires |Decimal(a)| == |Decimal(b)|
    ensures StrLt(Decimal(a), Decimal(b)) <==> a < b
    decreases a
  {
    if a < 10 || b < 10 {
      if a >= 10 { DecimalRoundTrip(a / 10); }
      if b >= 10 { DecimalRoundTrip(b / 10); }
      assert a < 10 && b < 10;
    } else {
      DecimalRoundTrip(a / 10);
      DecimalRoundTrip(b / 10);
      DecimalOrderSameWidth(a / 10, b / 10);
      var x, y := Decimal(a / 10), Decimal(b / 10);
      StrLtAppendDigit(x, y, DigitChar(a % 10), DigitChar(b % 10));
      if x == y { DecimalInjective(a / 10, b / 10); }
    }
  }

  lemma {:induction false} StrLtAppendDigit(x: string, y: string, c: char, d: char)
    requires |x| == |y|
    ensures StrLt(x + [c], y + [d]) <==> StrLt(x, y) || (x == y && c < d)
    decreases |x|
  {
    if x != [] {
      if x[0] == y[0] {
        assert (x + [c])[1..] == x[1..] + [c];
        assert (y + [d])[1..] == y[1..] + [d];
        StrLtAppendDigit(x[1..], y[1..], c, d);
        if x[1..] == y[1..] {
          assert x == [x[0]] + x[1..] && y == [y[0]] + y[1..];
        }
      }
    }
  }

  // ---------------------------------------------------------------------------
  // POSIX `os.path.join(a, b)` and `p.split('/')[-1]`.

  function PathJoin(a: string, b: string): (p: string)
  {
    if b != [] && b[0] == '/' then b
    else if a == [] || a[|a| - 1] == '/' then a + b
    else a + "/" + b
  }

  /** The text after the last '/', the whole string if it has none. */
  function LastComponent(p: string): (r: string)
    ensures '/' !in r
    ensures |r| <= |p| && r == p[|p| - |r|..]
    ensures |r| < |p| ==> p[|p| - |r| - 1] == '/'
    decreases |p|
  {
    if p == [] || p[|p| - 1] == '/' then []
    else
      var r := LastComponent(p[..|p| - 1]);
      SuffixExtend(p, r);
      r + [p[|p| - 1]]
  }

  /** A suffix of `p` without its last character, extended by that character,
      is a suffix of `p`. */
  lemma SuffixExtend(p: string, r: string)
    requires p != [] && |r| <= |p| - 1 && r == p[..|p| - 1][|p| - 1 - |r|..]
    ensures r + [p[|p| - 1]] == p[|p| - |r| - 1..]
  {
  }

  // ---------------------------------------------------------------------------
  // `os.path.splitext(name)[0]` for a bare file name (no '/'), as `main` uses
  // it to derive an item's slug. The extension starts at the last '.', unless
  // everything before that dot is dots (a leading-dot name such as ".draft").

  function LastDot(s: string): (r: Dot)
    ensures r.DotAt? ==> 0 <= r.index < |s| && s[r.index] == '.' && '.' !in s[r.index + 1..]
    ensures r.NoDot? ==> '.' !in s
    decreases |s|
  {
    if s == [] then NoDot
    else if s[|s| - 1] == '.' then DotAt(|s| - 1)
    else
      var r := LastDot(s[..|s| - 1]);
      assert s == s[..|s| - 1] + [s[|s| - 1]];
      r
  }

  datatype Dot = NoDot | DotAt(index: nat)

  predicate AllDots(s: string)
  {
    forall i :: 0 <= i < |s| ==> s[i] == '.'
  }

  function StripExtension(name: string): (stem: string)
  {
    match LastDot(name)
    case NoDot => name
    case DotAt(d) => if AllDots(name[..d]) then name else name[..d]
  }

  /** The stem is a prefix of the name; what is cut off is empty or one
      extension: a '.' followed by no other '.'; and a stem never loses
      its last non-dot character. */
  lemma StripExtensionSplits(name: string)
    ensures var stem := StripExtension(name);
      && |stem| <= |name| && stem == name[..|stem|]
      && (|stem| < |name| ==> name[|stem|] == '.' && '.' !in name[|stem| + 1..] && !AllDots(stem))
      && ('.' !in name ==> stem == name)
  {
  }

  /** Adding an extension to a name that has a non-dot character is undone. */
  lemma {:induction false} StripExtensionOfAdded(stem: string, ext: string)
    requires !AllDots(stem)
    requires '.' !in ext
    ensures StripExtension(stem + "." + ext) == stem
  {
    var name := stem + "." + ext;
    LastDotBeforeExtension(stem, ext);
    assert name[..|stem|] == stem;
  }

  lemma {:induction false} LastDotBeforeExtension(stem: string, ext: string)
    requires '.' !in ext
    ensures LastDot(stem + "." + ext) == DotAt(|stem|)
    decreases |ext|
  {
    if ext != [] {
      var shorter := ext[..|ext| - 1];
      assert (stem + "." + ext)[..|stem + "." + ext| - 1] == stem + "." + shorter;
      assert ext[|ext| - 1] in ext;
      assert forall c :: c in shorter ==> c in ext;
      LastDotBeforeExtension(stem, shorter);
    }
  }

  // ---------------------------------------------------------------------------
  // `date.strftime('%b').lower()` in the C locale.

  function MonthAbbrev(month: int): (s: string)
    requires 1 <= month <= 12
    ensures |s| == 3
    ensures forall i :: 0 <= i < 3 ==> 'a' <= s[i] <= 'z'
  {
    ["jan", "feb", "mar", "apr", "may", "jun",
     "jul", "aug", "sep", "oct", "nov", "dec"][month - 1]
  }

  lemma MonthAbbrevInjective(m: int, n: int)
    requires 1 <= m <= 12 && 1 <= n <= 12
    requires MonthAbbrev(m) == MonthAbbrev(n)
    ensures m == n
  {
  }
}
