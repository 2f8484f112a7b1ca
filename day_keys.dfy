/**
 * Day keys and the string order the screens sort them by.
 *
 * The store keys every day record, and the gallery keys every photo day, by
 * an ISO 8601 extended calendar date `YYYY-MM-DD` (section 4.1.2.2 of
 * ISO 8601:2004). The screens compare and sort these keys as strings:
 * `localeCompare`, the default `sort()` and `<=`. For keys made of ASCII
 * digits and hyphens all three are the character-by-character order `Le`.
 */
module DayKeys {

  /** JavaScript string order on ASCII text: lexicographic by character. */
  predicate Le(a: string, b: string)
  {
    a == [] || (b != [] && (a[0] < b[0] || (a[0] == b[0] && Le(a[1..], b[1..]))))
  }

  lemma {:induction false} LeReflexive(a: string)
    ensures Le(a, a)
  {
    if a != [] {
      LeReflexive(a[1..]);
    }
  }

  lemma {:induction false} LeTotal(a: string, b: string)
    ensures Le(a, b) || Le(b, a)
  {
    if a != [] && b != [] && a[0] == b[0] {
      LeTotal(a[1..], b[1..]);
    }
  }

  lemma {:induction false} LeTransitive(a: string, b: string, c: string)
    requires Le(a, b) && Le(b, c)
    ensures Le(a, c)
  {
    if a != [] && b != [] && c != [] && a[0] == b[0] && b[0] == c[0] {
      LeTransitive(a[1..], b[1..], c[1..]);
    }
  }

  lemma {:induction false} LeAntisymmetric(a: string, b: string)
    requires Le(a, b) && Le(b, a)
    ensures a == b
  {
    if a != [] && b != [] {
      LeAntisymmetric(a[1..], b[1..]);
      assert a == [a[0]] + a[1..] && b == [b[0]] + b[1..];
    }
  }

  /** Comparing two strings whose first parts have equal length: the first parts
      decide unless they are equal, and then the rest decides. */
  lemma {:induction false} LeAppend(p: string, s: string, q: string, t: string)
    requires |p| == |q|
    ensures Le(p + s, q + t) <==> if p == q then Le(s, t) else Le(p, q)
  {
    if p == [] {
      assert p + s == s && q + t == t;
    } else {
      assert (p + s)[0] == p[0] && (q + t)[0] == q[0];
      assert (p + s)[1..] == p[1..] + s && (q + t)[1..] == q[1..] + t;
      LeAppend(p[1..], s, q[1..], t);
      if p[0] == q[0] {
        assert p == q <==> p[1..] == q[1..] by {
          assert p == [p[0]] + p[1..] && q == [q[0]] + q[1..];
        }
      }
    }
  }

  // ---------------------------------------------------------------------------
  // Sorting by a string key

  /** Ascending in `key` under `Le`. */
  ghost predicate SortedBy<T>(s: seq<T>, key: T -> string)
  {
    forall i, j :: 0 <= i < j < |s| ==> Le(key(s[i]), key(s[j]))
  }

  lemma SortedPrepend<T>(x: T, s: seq<T>, key: T -> string)
    requires SortedBy(s, key)
    requires forall y :: y in s ==> Le(key(x), key(y))
    ensures SortedBy([x] + s, key)
  {
    var r := [x] + s;
    forall i, j | 0 <= i < j < |r| ensures Le(key(r[i]), key(r[j])) {
      if i > 0 {
        assert r[i] == s[i - 1] && r[j] == s[j - 1];
      } else {
        assert r[j] in s;
      }
    }
  }

  /** In a sorted sequence the first key is a lower bound of every key. */
  lemma SortedHeadIsLeast<T>(x: T, s: seq<T>, key: T -> string)
    requires SortedBy(s, key) && s != [] && Le(key(x), key(s[0]))
    ensures forall y :: y in s ==> Le(key(x), key(y))
  {
    forall y | y in s ensures Le(key(x), key(y)) {
      var j :| 0 <= j < |s| && s[j] == y;
      if j > 0 {
        LeTransitive(key(x), key(s[0]), key(y));
      }
    }
  }

  /** One insertion step: `x` goes before the first element whose key it does
      not exceed, so earlier elements stay ahead of later ones with equal keys. */
  function Insert<T(==)>(x: T, s: seq<T>, key: T -> string): (r: seq<T>)
    requires SortedBy(s, key)
    ensures SortedBy(r, key)
    ensures multiset(r) == multiset(s) + multiset{x}
  {
    if s == [] then [x]
    else if Le(key(x), key(s[0])) then
      SortedHeadIsLeast(x, s, key);
      SortedPrepend(x, s, key);
      [x] + s
    else
      var rest := Insert(x, s[1..], key);
      LeTotal(key(x), key(s[0]));
      assert s == [s[0]] + s[1..];
      assert forall y :: y in rest ==> Le(key(s[0]), key(y)) by {
        forall y | y in rest ensures Le(key(s[0]), key(y)) {
          assert y in multiset(rest);
          if y != x {
            assert y in multiset(s[1..]);
            var j :| 0 <= j < |s[1..]| && s[1..][j] == y;
            assert s[j + 1] == y;
          }
        }
      }
      SortedPrepend(s[0], rest, key);
      [s[0]] + rest
  }

  /** A stable sort by `key` (JavaScript's `Array.prototype.sort` is stable). */
  function SortBy<T(==)>(s: seq<T>, key: T -> string): (r: seq<T>)
    ensures SortedBy(r, key)
    ensures multiset(r) == multiset(s)
    ensures |r| == |s|
  {
    if s == [] then []
    else
      assert s == [s[0]] + s[1..];
      Insert(s[0], SortBy(s[1..], key), key)
  }

  /** After sorting, the first element has the least key and the last the greatest. */
  lemma SortedEnds<T>(s: seq<T>, key: T -> string)
    requires SortedBy(s, key) && s != []
    ensures forall y :: y in s ==> Le(key(s[0]), key(y))
    ensures forall y :: y in s ==> Le(key(y), key(s[|s| - 1]))
  {
    forall y | y in s ensures Le(key(s[0]), key(y)) && Le(key(y), key(s[|s| - 1])) {
      var j :| 0 <= j < |s| && s[j] == y;
      LeReflexive(key(y));
    }
  }

  // ---------------------------------------------------------------------------
  // Digits and the YYYY-MM-DD shape

  predicate IsDigit(c: char) { '0' <= c <= '9' }

  function Digit(c: char): (d: int)
    requires IsDigit(c)
    ensures 0 <= d <= 9
  {
    c as int - '0' as int
  }

  predicate AllDigits(s: string) { forall i :: 0 <= i < |s| ==> IsDigit(s[i]) }

  function Pow10(n: nat): (r: nat)
    ensures r >= 1
  {
    if n == 0 then 1 else 10 * Pow10(n - 1)
  }

  /** The decimal value of a digit string, most significant digit first. */
  function DigitsValue(s: string): (v: nat)
    requires AllDigits(s)
    ensures v < Pow10(|s|)
  {
    if s == [] then 0
    else
      var p, rest := Pow10(|s| - 1), DigitsValue(s[1..]);
      assert (Digit(s[0]) + 1) * p <= 10 * p;
      Digit(s[0]) * p + rest
  }

  /** A smaller leading digit makes a smaller number, whatever follows it. */
  lemma LeadingDigitDecides(da: int, db: int, p: int, va: int, vb: int)
    requires 0 <= da < db && p >= 1 && 0 <= va < p && 0 <= vb
    ensures da * p + va < db * p + vb
  {
    assert (da + 1) * p <= db * p;
  }

  /** For digit strings of one width, string order is numeric order. */
  lemma {:induction false} DigitsOrder(a: string, b: string)
    requires AllDigits(a) && AllDigits(b) && |a| == |b|
    ensures Le(a, b) <==> DigitsValue(a) <= DigitsValue(b)
  {
    if a != [] {
      var p := Pow10(|a| - 1);
      var da, db := Digit(a[0]), Digit(b[0]);
      var va, vb := DigitsValue(a[1..]), DigitsValue(b[1..]);
      assert DigitsValue(a) == da * p + va && DigitsValue(b) == db * p + vb;
      if da < db {
        LeadingDigitDecides(da, db, p, va, vb);
      } else if db < da {
        LeadingDigitDecides(db, da, p, vb, va);
      } else {
        DigitsOrder(a[1..], b[1..]);
      }
    }
  }

  /** Digit strings of one width with equal values are equal. */
  lemma DigitsInjective(a: string, b: string)
    requires AllDigits(a) && AllDigits(b) && |a| == |b|
    requires DigitsValue(a) == DigitsValue(b)
    ensures a == b
  {
    DigitsOrder(a, b);
    DigitsOrder(b, a);
    LeAntisymmetric(a, b);
  }

  /** `YYYY-MM-DD`: four digits, hyphen, two digits, hyphen, two digits. */
  predicate IsKeyShape(k: string)
  {
    |k| == 10 && AllDigits(k[..4]) && k[4] == '-' && AllDigits(k[5..7]) && k[7] == '-' && AllDigits(k[8..])
  }

  function YearOf(k: string): int requires IsKeyShape(k) { DigitsValue(k[..4]) }
  function MonthOf(k: string): int requires IsKeyShape(k) { DigitsValue(k[5..7]) }
  function DayOfMonthOf(k: string): int requires IsKeyShape(k) { DigitsValue(k[8..]) }

  /** Lexicographic order on (year, month, day) triples. */
  predicate TripleLe(y1: int, m1: int, d1: int, y2: int, m2: int, d2: int)
  {
    y1 < y2 || (y1 == y2 && (m1 < m2 || (m1 == m2 && d1 <= d2)))
  }

  /** Two fixed-width fields compared as strings agree with their values compared
      as numbers. */
  lemma FieldCompare(p: string, s: string, q: string, t: string)
    requires AllDigits(p) && AllDigits(q) && |p| == |q|
    ensures Le(p + s, q + t) <==>
              DigitsValue(p) < DigitsValue(q) || (DigitsValue(p) == DigitsValue(q) && Le(s, t))
  {
    LeAppend(p, s, q, t);
    DigitsOrder(p, q);
    if DigitsValue(p) == DigitsValue(q) {
      DigitsInjective(p, q);
    }
  }

  /** Comparing two `YYYY-MM-DD` keys as strings compares their (year, month,
      day) fields in that order. */
  lemma KeyOrder(a: string, b: string)
    requires IsKeyShape(a) && IsKeyShape(b)
    ensures Le(a, b) <==> TripleLe(YearOf(a), MonthOf(a), DayOfMonthOf(a),
                                   YearOf(b), MonthOf(b), DayOfMonthOf(b))
  {
    assert a == a[..4] + a[4..] && b == b[..4] + b[4..];
    FieldCompare(a[..4], a[4..], b[..4], b[4..]);
    assert a[4..][1..] == a[5..] && b[4..][1..] == b[5..];
    assert a[5..] == a[5..7] + a[7..] && b[5..] == b[5..7] + b[7..];
    FieldCompare(a[5..7], a[7..], b[5..7], b[7..]);
    assert a[7..][1..] == a[8..] && b[7..][1..] == b[8..];
    DigitsOrder(a[8..], b[8..]);
  }
}
