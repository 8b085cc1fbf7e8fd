/**
 * Character and string helpers shared by the C# and the Python parts:
 * ASCII upper-casing (standing in for `ToUpperInvariant`), ordinal
 * case-insensitive equality, decimal rendering of integers (C# and
 * Python string interpolation of an integer) and the code-point
 * lexicographic order Python's `sorted` uses on `str`.
 */
module Text {

  predicate IsLower(c: char) {
    'a' <= c <= 'z'
  }

  predicate IsDigit(c: char) {
    '0' <= c <= '9'
  }

  /** Simple upper-case mapping, ASCII letters only. */
  function UpperChar(c: char): (u: char)
    ensures !IsLower(u)
    ensures IsLower(c) ==> u as int == c as int - 32
    ensures !IsLower(c) ==> u == c
  {
    if IsLower(c) then (c as int - 32) as char else c
  }

  function Upper(s: string): (r: string)
    ensures |r| == |s|
    ensures forall i :: 0 <= i < |s| ==> r[i] == UpperChar(s[i])
  {
    seq(|s|, i requires 0 <= i < |s| => UpperChar(s[i]))
  }

  /** Upper-casing leaves no lower-case letter behind and changes nothing else. */
  lemma UpperNormalises(s: string)
    ensures forall i :: 0 <= i < |s| ==> !IsLower(Upper(s)[i])
    ensures forall i :: 0 <= i < |s| && !IsLower(s[i]) ==> Upper(s)[i] == s[i]
    ensures Upper(Upper(s)) == Upper(s)
  {
  }

  /** `StringComparison.OrdinalIgnoreCase` equality. */
  predicate EqualsIgnoreCase(a: string, b: string) {
    Upper(a) == Upper(b)
  }

  /** Ordinal case-insensitive equality is a character-by-character comparison. */
  lemma EqualsIgnoreCaseCharwise(a: string, b: string)
    ensures EqualsIgnoreCase(a, b) <==>
            |a| == |b| && forall i :: 0 <= i < |a| ==> UpperChar(a[i]) == UpperChar(b[i])
  {
    if |a| == |b| && forall i :: 0 <= i < |a| ==> UpperChar(a[i]) == UpperChar(b[i]) {
      assert forall i :: 0 <= i < |a| ==> Upper(a)[i] == Upper(b)[i];
    }
  }

  // ---------------------------------------------------------------------
  // Decimal rendering of integers

  function DigitChar(d: nat): (c: char)
    requires d < 10
    ensures IsDigit(c)
  {
    "0123456789"[d]
  }

  function DigitValue(c: char): nat
    requires IsDigit(c)
  {
    c as int - '0' as int
  }

  /** The decimal digits of `n`, most significant first, no leading zero. */
  function NatToString(n: nat): (r: string)
    ensures |r| > 0
    ensures forall i :: 0 <= i < |r| ==> IsDigit(r[i])
    ensures r[0] == '0' ==> n == 0
    decreases n
  {
    if n < 10 then [DigitChar(n)] else NatToString(n / 10) + [DigitChar(n % 10)]
  }

  /** The number a string of decimal digits denotes. */
  function DigitsValue(s: string): nat
    requires forall i :: 0 <= i < |s| ==> IsDigit(s[i])
  {
    if s == [] then 0 else DigitsValue(s[..|s| - 1]) * 10 + DigitValue(s[|s| - 1])
  }

  /** Reading back the rendered digits gives the number: rendering loses nothing. */
  lemma {:induction false} NatToStringRoundTrip(n: nat)
    ensures DigitsValue(NatToString(n)) == n
    decreases n
  {
    var r := NatToString(n);
    if n >= 10 {
      NatToStringRoundTrip(n / 10);
      assert r[..|r| - 1] == NatToString(n / 10);
    }
  }

  /** Rendering is injective: two numbers never print alike. */
  lemma NatToStringInjective(m: nat, n: nat)
    ensures NatToString(m) == NatToString(n) ==> m == n
  {
    NatToStringRoundTrip(m);
    NatToStringRoundTrip(n);
  }

  /** An integer in decimal with a leading `-` when negative (Python `str(int)`). */
  function IntToString(i: int): (r: string)
    ensures |r| > 0
    ensures i < 0 <==> r[0] == '-'
    ensures i >= 0 ==> r == NatToString(i)
    ensures i < 0 ==> r[1..] == NatToString(-i)
  {
    if i < 0 then "-" + NatToString(-i) else NatToString(i)
  }

  // ---------------------------------------------------------------------
  // Code-point lexicographic order (Python's `<` on `str`)

  predicate LexLe(a: string, b: string)
    decreases |a|
  {
    |a| == 0 || (|b| > 0 && (a[0] < b[0] || (a[0] == b[0] && LexLe(a[1..], b[1..]))))
  }

  predicate LexLt(a: string, b: string) {
    LexLe(a, b) && a != b
  }

  lemma {:induction false} LexLeTotal(a: string, b: string)
    ensures LexLe(a, b) || LexLe(b, a)
    decreases |a|
  {
    if |a| > 0 && |b| > 0 && a[0] == b[0] {
      LexLeTotal(a[1..], b[1..]);
    }
  }

  lemma {:induction false} LexLeAntisymmetric(a: string, b: string)
    ensures LexLe(a, b) && LexLe(b, a) ==> a == b
    decreases |a|
  {
    if LexLe(a, b) && LexLe(b, a) && |a| > 0 {
      LexLeAntisymmetric(a[1..], b[1..]);
      assert a == [a[0]] + a[1..] && b == [b[0]] + b[1..];
    }
  }

  lemma {:induction false} LexLeTransitive(a: string, b: string, c: string)
    ensures LexLe(a, b) && LexLe(b, c) ==> LexLe(a, c)
    decreases |a|
  {
    if LexLe(a, b) && LexLe(b, c) && |a| > 0 {
      LexLeTransitive(a[1..], b[1..], c[1..]);
    }
  }

  lemma {:induction false} LexLeReflexive(a: string)
    ensures LexLe(a, a)
    decreases |a|
  {
    if |a| > 0 {
      LexLeReflexive(a[1..]);
    }
  }

  /** The lesser of `x` and `m` is below `x` and below everything above `m`. */
  lemma MinBelow(x: string, m: string, y: string)
    requires y == x || LexLe(m, y)
    ensures LexLe(if LexLe(x, m) then x else m, y)
  {
    LexLeTotal(x, m);
    if LexLe(x, m) {
      if y == x {
        LexLeReflexive(x);
      } else {
        LexLeTransitive(x, m, y);
      }
    }
  }

  /** If `m` is below everything in `s` except perhaps `x`, then `s` has a least element. */
  lemma LeastAfterAdding(s: set<string>, x: string, m: string)
    requires x in s && m in s
    requires forall y :: y in s && y != x ==> LexLe(m, y)
    ensures exists least :: least in s && forall y :: y in s ==> LexLe(least, y)
  {
    var least := if LexLe(x, m) then x else m;
    forall y | y in s ensures LexLe(least, y) {
      MinBelow(x, m, y);
    }
  }

  /** A non-empty finite set of strings has a least element. */
  lemma {:induction false} LeastExists(s: set<string>)
    requires s != {}
    ensures exists m :: m in s && forall y :: y in s ==> LexLe(m, y)
    decreases |s|
  {
    var x :| x in s;
    var rest := s - {x};
    if rest == {} {
      LexLeReflexive(x);
      assert s == {x};
    } else {
      LeastExists(rest);
      var m :| m in rest && forall y :: y in rest ==> LexLe(m, y);
      assert forall y :: y in s && y != x ==> y in rest;
      LeastAfterAdding(s, x, m);
    }
  }

  /** The least string of a non-empty set. */
  function Least(s: set<string>): (m: string)
    requires s != {}
    ensures m in s
    ensures forall y :: y in s ==> LexLe(m, y)
  {
    LeastExists(s);
    assert forall a, b :: LexLe(a, b) && LexLe(b, a) ==> a == b by {
      forall a, b ensures LexLe(a, b) && LexLe(b, a) ==> a == b {
        LexLeAntisymmetric(a, b);
      }
    }
    var m :| m in s && forall y :: y in s ==> LexLe(m, y);
    m
  }

  /** Python's `sorted(s)` of a set of strings: every element once, ascending. */
  function SortedStrings(s: set<string>): (r: seq<string>)
    ensures |r| == |s|
    ensures forall x :: x in r <==> x in s
    ensures forall i, j :: 0 <= i < j < |r| ==> LexLt(r[i], r[j])
    decreases |s|
  {
    if s == {} then []
    else
      var m := Least(s);
      var rest := SortedStrings(s - {m});
      SortedCons(s, m, rest);
      [m] + rest
  }

  /** Everything left after removing the least element lies strictly above it. */
  lemma LeastBeforeRest(s: set<string>, m: string, rest: seq<string>, y: string)
    requires forall z :: z in s ==> LexLe(m, z)
    requires forall x :: x in rest <==> x in s - {m}
    requires y in rest
    ensures LexLt(m, y)
  {
    assert y in s - {m};
  }

  /** An ascending sequence stays ascending behind an element strictly below all of it. */
  lemma SortedAfterLeast(m: string, rest: seq<string>)
    requires forall y :: y in rest ==> LexLt(m, y)
    requires forall i, j :: 0 <= i < j < |rest| ==> LexLt(rest[i], rest[j])
    ensures forall i, j :: 0 <= i < j < |[m] + rest| ==> LexLt(([m] + rest)[i], ([m] + rest)[j])
  {
    var r := [m] + rest;
    forall i, j | 0 <= i < j < |r| ensures LexLt(r[i], r[j]) {
      assert r[j] == rest[j - 1];
      if i == 0 {
        assert rest[j - 1] in rest;
      } else {
        assert r[i] == rest[i - 1];
      }
    }
  }

  /** The least element followed by the others in ascending order lists the whole set in ascending order. */
  lemma SortedCons(s: set<string>, m: string, rest: seq<string>)
    requires m in s && forall y :: y in s ==> LexLe(m, y)
    requires |rest| == |s - {m}|
    requires forall x :: x in rest <==> x in s - {m}
    requires forall i, j :: 0 <= i < j < |rest| ==> LexLt(rest[i], rest[j])
    ensures |[m] + rest| == |s|
    ensures forall x :: x in [m] + rest <==> x in s
    ensures forall i, j :: 0 <= i < j < |[m] + rest| ==> LexLt(([m] + rest)[i], ([m] + rest)[j])
  {
    var r := [m] + rest;
    assert |s - {m}| == |s| - 1;
    forall x ensures x in r <==> x in s {
      assert x in r <==> x == m || x in rest;
    }
    forall y | y in rest ensures LexLt(m, y) {
      LeastBeforeRest(s, m, rest, y);
    }
    SortedAfterLeast(m, rest);
  }
}
