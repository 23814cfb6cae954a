/**
 * The java.lang.String and stream operations the column-file reader relies on:
 * splitting on a delimiter (with and without trailing empty fields), joining,
 * decimal digits, lexicographic order and sorting a set of names.
 */
module Strings {
  import opened Wrappers

  /** The elements of a sequence, as a set. */
  function Elems<T(==)>(xs: seq<T>): set<T> {
    set x | x in xs
  }

  /** One element longer prefix, one more element. */
  lemma ElemsOfLonger<T>(xs: seq<T>, pos: nat)
    requires pos < |xs|
    ensures xs[..pos + 1] == xs[..pos] + [xs[pos]]
    ensures Elems(xs[..pos + 1]) == Elems(xs[..pos]) + {xs[pos]}
  {
    assert xs[..pos + 1] == xs[..pos] + [xs[pos]];
  }

  /** No value occurs twice. */
  predicate Distinct<T(==)>(xs: seq<T>) {
    forall i, j :: 0 <= i < j < |xs| ==> xs[i] != xs[j]
  }

  /** Index of the first occurrence of `x` in `xs`. */
  function IndexOf<T(==)>(xs: seq<T>, x: T): (i: nat)
    requires x in xs
    ensures i < |xs| && xs[i] == x && x !in xs[..i]
  {
    if xs[0] == x then 0 else 1 + IndexOf(xs[1..], x)
  }

  /** A sequence without repetitions has as many elements as its set. */
  lemma {:induction false} DistinctCardinality<T>(xs: seq<T>)
    requires Distinct(xs)
    ensures |Elems(xs)| == |xs|
  {
    if xs != [] {
      DistinctCardinality(xs[1..]);
      assert Elems(xs) == {xs[0]} + Elems(xs[1..]);
      assert xs[0] !in Elems(xs[1..]);
    }
  }

  /** A sequence has no repetitions exactly when no value occurs in it more than once. */
  lemma {:induction false} DistinctMultiset<T>(xs: seq<T>)
    ensures Distinct(xs) <==> forall x :: multiset(xs)[x] <= 1
  {
    if xs != [] {
      var t := xs[1..];
      DistinctMultiset(t);
      assert xs == [xs[0]] + t;
      assert multiset(xs) == multiset{xs[0]} + multiset(t);
      if Distinct(xs) {
        assert Distinct(t) by {
          forall i, j | 0 <= i < j < |t| ensures t[i] != t[j] {
            assert t[i] == xs[i + 1] && t[j] == xs[j + 1];
          }
        }
        assert xs[0] !in t by {
          forall i | 0 <= i < |t| ensures t[i] != xs[0] {
            assert t[i] == xs[i + 1];
          }
        }
      } else {
        var i, j :| 0 <= i < j < |xs| && xs[i] == xs[j];
        if i == 0 {
          assert xs[j] == t[j - 1];
          assert multiset(xs)[xs[0]] >= 2;
        } else {
          assert t[i - 1] == t[j - 1];
          assert !Distinct(t);
          var x :| multiset(t)[x] > 1;
          assert multiset(xs)[x] > 1;
        }
      }
    }
  }

  // ---------------------------------------------------------------------------
  // Splitting on a literal delimiter

  /** `d` occurs in `s` starting at index `j`. */
  predicate OccursAt(s: string, d: string, j: int) {
    0 <= j && j + |d| <= |s| && s[j..j + |d|] == d
  }

  /** `d` occurs nowhere in `s`. */
  ghost predicate Free(s: string, d: string) {
    forall j :: !OccursAt(s, d, j)
  }

  /** The first occurrence of `d` in `s` at or after index `i`. */
  function FindFrom(s: string, d: string, i: nat): (r: Option<nat>)
    requires d != [] && i <= |s|
    ensures r.Some? ==> i <= r.value && OccursAt(s, d, r.value)
    ensures r.Some? ==> forall j :: i <= j < r.value ==> !OccursAt(s, d, j)
    ensures r.None? ==> forall j :: i <= j ==> !OccursAt(s, d, j)
    decreases |s| - i
  {
    if i + |d| > |s| then None
    else if OccursAt(s, d, i) then Some(i)
    else FindFrom(s, d, i + 1)
  }

  /**
   * `s.split(d, -1)`: every field, trailing empty ones included, so a string
   * holding k separate occurrences of `d` gives k + 1 fields.
   */
  function Split(s: string, d: string): (r: seq<string>)
    requires d != []
    ensures |r| >= 1
    decreases |s|
  {
    match FindFrom(s, d, 0)
    case None => [s]
    case Some(i) => [s[..i]] + Split(s[i + |d|..], d)
  }

  /** Where `d` first occurs, Split cuts off the first field. */
  lemma SplitFirst(s: string, d: string, i: nat)
    requires d != [] && FindFrom(s, d, 0) == Some(i)
    ensures Split(s, d) == [s[..i]] + Split(s[i + |d|..], d)
  {
  }

  /** `String.join(sep, xs)` (and `Collectors.joining(sep)`). */
  function Join(xs: seq<string>, sep: string): string
    decreases |xs|
  {
    if |xs| == 0 then ""
    else if |xs| == 1 then xs[0]
    else xs[0] + sep + Join(xs[1..], sep)
  }

  /** Joining a first field onto the rest puts one separator between them. */
  lemma JoinCons(x: string, rest: seq<string>, sep: string)
    requires |rest| >= 1
    ensures Join([x] + rest, sep) == x + sep + Join(rest, sep)
  {
    assert ([x] + rest)[1..] == rest;
  }

  /** Splitting loses nothing: the fields joined by the delimiter give back the line. */
  lemma {:induction false} JoinSplit(s: string, d: string)
    requires d != []
    ensures Join(Split(s, d), d) == s
    decreases |s|
  {
    match FindFrom(s, d, 0)
    case None =>
      assert Split(s, d) == [s];
    case Some(i) =>
      var rest := s[i + |d|..];
      calc {
        Join(Split(s, d), d);
        { SplitFirst(s, d, i); }
        Join([s[..i]] + Split(rest, d), d);
        { JoinCons(s[..i], Split(rest, d), d); }
        s[..i] + d + Join(Split(rest, d), d);
        { JoinSplit(rest, d); }
        s[..i] + d + rest;
        { ThreeSlices(s, i, i + |d|); }
        s;
      }
  }

  /** A sequence is its three slices put back together. */
  lemma ThreeSlices<T>(s: seq<T>, i: nat, j: nat)
    requires i <= j <= |s|
    ensures s == s[..i] + s[i..j] + s[j..]
  {
    assert s[..j] == s[..i] + s[i..j];
    assert s == s[..j] + s[j..];
  }

  /** No field contains the delimiter. */
  lemma {:induction false} SplitFieldsFree(s: string, d: string)
    requires d != []
    ensures forall k :: 0 <= k < |Split(s, d)| ==> Free(Split(s, d)[k], d)
    decreases |s|
  {
    match FindFrom(s, d, 0)
    case None =>
      assert Split(s, d) == [s];
    case Some(i) =>
      var rest := s[i + |d|..];
      SplitFieldsFree(rest, d);
      forall j ensures !OccursAt(s[..i], d, j) {
        if OccursAt(s[..i], d, j) {
          assert s[..i][j..j + |d|] == s[j..j + |d|];
          assert OccursAt(s, d, j);
        }
      }
      assert Split(s, d) == [s[..i]] + Split(rest, d);
  }

  /** Removes the empty strings at the end of `xs`. */
  function DropTrailingEmpty(xs: seq<string>): (r: seq<string>)
    ensures r <= xs
    ensures r == [] || r[|r| - 1] != ""
    ensures forall k :: |r| <= k < |xs| ==> xs[k] == ""
    decreases |xs|
  {
    if |xs| > 0 && xs[|xs| - 1] == "" then DropTrailingEmpty(xs[..|xs| - 1]) else xs
  }

  /**
   * `s.split(d)` (limit 0): like Split, but trailing empty fields are dropped,
   * except that a string in which `d` does not occur is returned whole, even
   * when it is empty.
   */
  function SplitDroppingTrailing(s: string, d: string): (r: seq<string>)
    requires d != []
  {
    var all := Split(s, d);
    if |all| == 1 then all else DropTrailingEmpty(all)
  }

  /** The header split differs from the data split only by dropped empty fields at the end. */
  lemma SplitDroppingTrailingIsPrefix(s: string, d: string)
    requires d != []
    ensures SplitDroppingTrailing(s, d) <= Split(s, d)
    ensures forall k :: |SplitDroppingTrailing(s, d)| <= k < |Split(s, d)| ==> Split(s, d)[k] == ""
    ensures Free(s, d) ==> SplitDroppingTrailing(s, d) == [s]
  {
    if Free(s, d) {
      match FindFrom(s, d, 0)
      case None =>
      case Some(i) =>
        assert false;
    }
  }

  // ---------------------------------------------------------------------------
  // Decimal digits

  predicate IsDigit(c: char) {
    '0' <= c <= '9'
  }

  predicate AllDigits(s: string) {
    forall i :: 0 <= i < |s| ==> IsDigit(s[i])
  }

  function DigitChar(d: nat): (c: char)
    requires d < 10
    ensures IsDigit(c)
  {
    ('0' as int + d) as char
  }

  function DigitValue(c: char): nat
    requires IsDigit(c)
  {
    c as int - '0' as int
  }

  /** Decimal representation of `n`, without sign or leading zeros. */
  function NatToString(n: nat): (s: string)
    ensures |s| >= 1 && AllDigits(s)
    decreases n
  {
    if n < 10 then [DigitChar(n)] else NatToString(n / 10) + [DigitChar(n % 10)]
  }

  /** Value of a string of decimal digits (leading zeros allowed). */
  function DigitsValue(s: string): nat
    requires AllDigits(s)
    decreases |s|
  {
    if s == [] then 0 else DigitsValue(s[..|s| - 1]) * 10 + DigitValue(s[|s| - 1])
  }

  /**
   * `Integer.parseUnsignedInt` restricted to what the model covers: a
   * non-empty string of decimal digits is accepted, anything else is refused.
   */
  function ParseUnsigned(s: string): Option<nat> {
    if s != [] && AllDigits(s) then Some(DigitsValue(s)) else None
  }

  /** Parsing undoes printing. */
  lemma {:induction false} ParseNatToString(n: nat)
    ensures ParseUnsigned(NatToString(n)) == Some(n)
    decreases n
  {
    var s := NatToString(n);
    if n < 10 {
      assert s == [DigitChar(n)];
      assert DigitsValue(s[..0]) == 0;
      assert DigitValue(s[0]) == n;
      assert DigitsValue(s) == n;
    } else {
      ParseNatToString(n / 10);
      assert s[..|s| - 1] == NatToString(n / 10);
      assert DigitValue(s[|s| - 1]) == n % 10;
    }
  }

  /** `k` zero digits. */
  function ZeroPad(k: nat): (z: string)
    ensures |z| == k && AllDigits(z)
  {
    seq(k, _ => '0')
  }

  /** Number of leading zeros of a digit string that are not its last digit. */
  function LeadingZeros(d: string): (k: nat)
    ensures d != [] ==> k < |d|
    decreases |d|
  {
    if |d| <= 1 || d[0] != '0' then 0 else 1 + LeadingZeros(d[1..])
  }

  /** Leading zeros do not change a value. */
  lemma {:induction false} ZeroPadValue(k: nat, d: string)
    requires AllDigits(d)
    ensures AllDigits(ZeroPad(k) + d) && DigitsValue(ZeroPad(k) + d) == DigitsValue(d)
    decreases |d|, k
  {
    var s := ZeroPad(k) + d;
    assert AllDigits(s) by {
      forall i | 0 <= i < |s| ensures IsDigit(s[i]) {
        if i >= k { assert s[i] == d[i - k]; }
      }
    }
    if d == [] {
      assert s == ZeroPad(k);
      if k > 0 {
        assert s[..k - 1] == ZeroPad(k - 1) + [];
        ZeroPadValue(k - 1, []);
      }
    } else {
      var front := d[..|d| - 1];
      assert s[..|s| - 1] == ZeroPad(k) + front;
      ZeroPadValue(k, front);
    }
  }

  /**
   * A digit string without a leading zero (or a single digit) is the
   * printing of its value; with a non-zero first digit that value is positive.
   */
  lemma {:induction false} UnpaddedPrinted(d: string)
    requires d != [] && AllDigits(d) && (d[0] != '0' || |d| == 1)
    ensures NatToString(DigitsValue(d)) == d
    ensures d[0] != '0' ==> DigitsValue(d) > 0
    decreases |d|
  {
    var front, last := d[..|d| - 1], d[|d| - 1];
    if |d| == 1 {
      assert front == [];
      assert DigitsValue(d) == DigitValue(last);
      assert DigitChar(DigitValue(last)) == last;
    } else {
      assert front[0] == d[0];
      UnpaddedPrinted(front);
      var v := DigitsValue(d);
      assert v == DigitsValue(front) * 10 + DigitValue(last);
      assert v / 10 == DigitsValue(front) && v % 10 == DigitValue(last);
      assert DigitChar(DigitValue(last)) == last;
      assert d == front + [last];
    }
  }

  /** Every digit string is its value printed after its leading zeros. */
  lemma {:induction false} PaddedDigits(d: string)
    requires d != [] && AllDigits(d)
    ensures d == ZeroPad(LeadingZeros(d)) + NatToString(DigitsValue(d))
    decreases |d|
  {
    if |d| <= 1 || d[0] != '0' {
      UnpaddedPrinted(d);
      assert ZeroPad(0) == [];
    } else {
      var rest := d[1..];
      PaddedDigits(rest);
      assert d == ZeroPad(1) + rest;
      ZeroPadValue(1, rest);
      assert ZeroPad(1 + LeadingZeros(rest)) == ZeroPad(1) + ZeroPad(LeadingZeros(rest));
    }
  }

  // ---------------------------------------------------------------------------
  // Lexicographic order (String.compareTo(...) <= 0) and sorting

  /** `a` is not after `b` in lexicographic order. */
  predicate NotAfter(a: string, b: string)
    decreases |a|
  {
    |a| == 0 || (|b| > 0 && (a[0] < b[0] || (a[0] == b[0] && NotAfter(a[1..], b[1..]))))
  }

  lemma {:induction false} NotAfterReflexive(a: string)
    ensures NotAfter(a, a)
    decreases |a|
  {
    if |a| > 0 {
      NotAfterReflexive(a[1..]);
    }
  }

  lemma {:induction false} NotAfterTotal(a: string, b: string)
    ensures NotAfter(a, b) || NotAfter(b, a)
    decreases |a|
  {
    if |a| > 0 && |b| > 0 && a[0] == b[0] {
      NotAfterTotal(a[1..], b[1..]);
    }
  }

  lemma {:induction false} NotAfterAntisymmetric(a: string, b: string)
    requires NotAfter(a, b) && NotAfter(b, a)
    ensures a == b
    decreases |a|
  {
    if |a| > 0 && |b| > 0 {
      NotAfterAntisymmetric(a[1..], b[1..]);
      assert a == [a[0]] + a[1..] && b == [b[0]] + b[1..];
    }
  }

  lemma {:induction false} NotAfterTransitive(a: string, b: string, c: string)
    requires NotAfter(a, b) && NotAfter(b, c)
    ensures NotAfter(a, c)
    decreases |a|
  {
    if |a| > 0 && |b| > 0 && |c| > 0 && a[0] == b[0] && b[0] == c[0] {
      NotAfterTransitive(a[1..], b[1..], c[1..]);
    }
  }

  /** `m` comes first among the strings of `s`. */
  predicate IsLeast(m: string, s: set<string>) {
    m in s && forall x :: x in s ==> NotAfter(m, x)
  }

  /** Every non-empty finite set of strings has a least element. */
  lemma {:induction false} LeastExists(s: set<string>)
    requires s != {}
    ensures exists m :: IsLeast(m, s)
    decreases |s|
  {
    var y :| y in s;
    if s == {y} {
      NotAfterReflexive(y);
      assert IsLeast(y, s);
    } else {
      LeastExists(s - {y});
      var m :| IsLeast(m, s - {y});
      NotAfterTotal(m, y);
      if NotAfter(m, y) {
        assert IsLeast(m, s);
      } else {
        forall x | x in s ensures NotAfter(y, x) {
          if x == y {
            NotAfterReflexive(y);
          } else {
            NotAfterTransitive(y, m, x);
          }
        }
        assert IsLeast(y, s);
      }
    }
  }

  /** The least element of a set is unique. */
  lemma LeastUnique(s: set<string>)
    ensures forall m, m' :: IsLeast(m, s) && IsLeast(m', s) ==> m == m'
  {
    forall m, m' | IsLeast(m, s) && IsLeast(m', s) ensures m == m' {
      NotAfterAntisymmetric(m, m');
    }
  }

  /** Strictly increasing in lexicographic order. */
  predicate Ascending(xs: seq<string>) {
    forall i, j :: 0 <= i < j < |xs| ==> NotAfter(xs[i], xs[j]) && xs[i] != xs[j]
  }

  /** `s.stream().sorted()`: the elements of `s` in ascending order. */
  function SortedSeq(s: set<string>): (r: seq<string>)
    ensures Ascending(r) && Elems(r) == s && |r| == |s|
    decreases |s|
  {
    if s == {} then []
    else
      LeastExists(s);
      LeastUnique(s);
      var m :| IsLeast(m, s);
      var rest := SortedSeq(s - {m});
      LeastFirst(m, rest, s);
      [m] + rest
  }

  /** Putting the least element in front of the ascending rest keeps it ascending. */
  lemma LeastFirst(m: string, rest: seq<string>, s: set<string>)
    requires IsLeast(m, s) && Ascending(rest) && Elems(rest) == s - {m} && |rest| == |s - {m}|
    ensures Ascending([m] + rest) && Elems([m] + rest) == s && |[m] + rest| == |s|
  {
    var r := [m] + rest;
    forall i, j | 0 <= i < j < |r| ensures NotAfter(r[i], r[j]) && r[i] != r[j] {
      assert r[j] == rest[j - 1];
      if i > 0 {
        assert r[i] == rest[i - 1];
      } else {
        assert r[j] in s - {m};
      }
    }
    assert Elems(r) == {m} + Elems(rest);
  }

  /** Two ascending sequences with the same elements are equal, so the sorted list depends only on the set. */
  lemma {:induction false} AscendingUnique(xs: seq<string>, ys: seq<string>)
    requires Ascending(xs) && Ascending(ys) && Elems(xs) == Elems(ys)
    ensures xs == ys
    decreases |xs|
  {
    DistinctCardinality(xs);
    DistinctCardinality(ys);
    if xs != [] {
      assert xs[0] in Elems(ys) && ys[0] in Elems(xs);
      var i :| 0 <= i < |ys| && ys[i] == xs[0];
      var j :| 0 <= j < |xs| && xs[j] == ys[0];
      if xs[0] != ys[0] {
        assert i > 0 && j > 0;
        assert NotAfter(ys[0], ys[i]) && NotAfter(xs[0], xs[j]);
        NotAfterAntisymmetric(xs[0], ys[0]);
      }
      assert Elems(xs[1..]) == Elems(xs) - {xs[0]} by {
        forall x | x in Elems(xs[1..]) ensures x != xs[0] {
          var k :| 0 <= k < |xs[1..]| && xs[1..][k] == x;
          assert xs[k + 1] == x;
        }
      }
      assert Elems(ys[1..]) == Elems(ys) - {ys[0]} by {
        forall y | y in Elems(ys[1..]) ensures y != ys[0] {
          var k :| 0 <= k < |ys[1..]| && ys[1..][k] == y;
          assert ys[k + 1] == y;
        }
      }
      AscendingUnique(xs[1..], ys[1..]);
      assert xs == [xs[0]] + xs[1..] && ys == [ys[0]] + ys[1..];
    }
  }
}
