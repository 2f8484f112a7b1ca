/**
 * Small vocabulary shared by the three screens: an optional value, a
 * JavaScript number that may be NaN, `Math.round`, clamping, and the few
 * sequence operations (`filter`, `slice(-n)`, a numeric `reduce`) that the
 * screens apply to the store snapshot.
 */
module Common {

  datatype Option<T> = None | Some(value: T)

  /** A JavaScript number as far as these screens need one: a real value or NaN.
      Infinities never arise in the model (no division by zero is reachable). */
  datatype Number = Num(value: real) | NaN {
    /** JavaScript truthiness of a number: 0 and NaN are falsy. */
    predicate Truthy() { Num? && value != 0.0 }
  }

  /** JavaScript truthiness of an optional number that is never NaN: present
      and nonzero. */
  predicate Present(x: Option<real>) { x.Some? && x.value != 0.0 }

  /** `Math.round`: the nearest integer, halves rounded upward. */
  function Round(x: real): (r: int)
    ensures x - 0.5 < r as real <= x + 0.5
  {
    (x + 0.5).Floor
  }

  lemma RoundOfInteger(n: int)
    ensures Round(n as real) == n
  {
  }

  /** `Math.round` never reverses the order of its arguments. */
  lemma RoundMonotone(x: real, y: real)
    requires x <= y
    ensures Round(x) <= Round(y)
  {
  }

  function Abs(x: real): (r: real)
    ensures r >= 0.0 && (r == x || r == -x)
  {
    if x < 0.0 then -x else x
  }

  /** `Math.min(hi, Math.max(lo, x))`. */
  function Clamp(x: real, lo: real, hi: real): (r: real)
    requires lo <= hi
    ensures lo <= r <= hi
    ensures lo <= x <= hi ==> r == x
    ensures x < lo ==> r == lo
    ensures x > hi ==> r == hi
  {
    if x < lo then lo else if x > hi then hi else x
  }

  /** A quotient whose numerator reaches its positive divisor is at least one. */
  lemma RatioAtLeastOne(x: real, d: real)
    requires x >= d > 0.0
    ensures x / d >= 1.0
  {
    var q := x / d;
    assert q * d == x;
  }

  lemma QuotientNonNegative(x: real, d: real)
    requires x >= 0.0 && d > 0.0
    ensures x / d >= 0.0
  {
    var q := x / d;
    assert q * d == x;
  }

  /** Multiplying a quotient back by its divisor restores the dividend. */
  lemma QuotientTimesDivisor(x: real, d: real)
    requires d != 0.0
    ensures (x / d) * d == x
  {
  }

  /** Dividing by a positive number keeps order. */
  lemma DivideMonotone(x: real, y: real, d: real)
    requires x <= y && d > 0.0
    ensures x / d <= y / d
  {
    assert y / d - x / d == (y - x) / d;
  }

  /** `Array.prototype.filter` with a pure predicate. */
  function Filter<T(==)>(s: seq<T>, keep: T -> bool): (r: seq<T>)
    ensures |r| <= |s|
    ensures forall i :: 0 <= i < |r| ==> r[i] in s && keep(r[i])
    ensures forall i :: 0 <= i < |s| && keep(s[i]) ==> s[i] in r
  {
    if s == [] then []
    else if keep(s[0]) then [s[0]] + Filter(s[1..], keep)
    else Filter(s[1..], keep)
  }

  /** Filtering distributes over concatenation: it keeps the order of what it
      keeps. */
  lemma {:induction false} FilterAppend<T>(a: seq<T>, b: seq<T>, keep: T -> bool)
    ensures Filter(a + b, keep) == Filter(a, keep) + Filter(b, keep)
  {
    if a == [] {
      assert a + b == b;
    } else {
      assert (a + b)[1..] == a[1..] + b;
      FilterAppend(a[1..], b, keep);
    }
  }

  /** A kept value survives as often as it occurs, any other not at all. */
  lemma {:induction false} FilterMultiset<T>(s: seq<T>, keep: T -> bool)
    ensures forall x :: multiset(Filter(s, keep))[x] == if keep(x) then multiset(s)[x] else 0
  {
    if s != [] {
      assert s == [s[0]] + s[1..];
      FilterMultiset(s[1..], keep);
    }
  }

  /** The positions of a sequence whose element passes `keep`. */
  function Positions<T>(s: seq<T>, keep: T -> bool): set<int>
  {
    set i | 0 <= i < |s| && keep(s[i])
  }

  /** Appending one element adds its position exactly when it passes. */
  lemma PositionsSnoc<T>(t: seq<T>, x: T, keep: T -> bool)
    ensures Positions(t + [x], keep) == Positions(t, keep) + (if keep(x) then {|t|} else {})
  {
    assert forall i :: 0 <= i < |t| ==> (t + [x])[i] == t[i];
  }

  /** The filtered sequence has one element per position that passes. */
  lemma {:induction false} FilterCount<T>(s: seq<T>, keep: T -> bool)
    ensures |Filter(s, keep)| == |Positions(s, keep)|
  {
    if s != [] {
      var t, x := s[..|s| - 1], s[|s| - 1];
      assert s == t + [x];
      FilterAppend(t, [x], keep);
      assert [x][1..] == [];
      FilterCount(t, keep);
      PositionsSnoc(t, x, keep);
      assert |t| !in Positions(t, keep);
    }
  }

  /** `Array.prototype.slice(-n)`: the last `n` elements, or all of them. */
  function LastN<T>(s: seq<T>, n: nat): (r: seq<T>)
    ensures |r| == if |s| < n then |s| else n
    ensures r == s[|s| - |r|..]
  {
    if |s| <= n then s else s[|s| - n..]
  }

  /** A `reduce((acc, x) => acc + f(x), 0)` over a sequence, summing front to back. */
  function SumOf<T>(s: seq<T>, f: T -> real): real
  {
    if s == [] then 0.0 else SumOf(s[..|s| - 1], f) + f(s[|s| - 1])
  }

  /** Every summand non-negative makes the sum non-negative. */
  lemma {:induction false} SumOfNonNegative<T>(s: seq<T>, f: T -> real)
    requires forall i :: 0 <= i < |s| ==> f(s[i]) >= 0.0
    ensures SumOf(s, f) >= 0.0
  {
    if s != [] {
      SumOfNonNegative(s[..|s| - 1], f);
    }
  }
}
