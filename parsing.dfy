/**
 * The text-to-number conversions the screens apply to what the user types:
 * `String.prototype.replace(',', '.')`, `parseFloat` and `Number`.
 *
 * Both readers accept one decimal grammar here: an optional sign, digits, and
 * an optional '.' followed by digits, with at least one digit in all. This is
 * a restriction of JavaScript's grammar (no whitespace, exponent, `Infinity`
 * or hexadecimal form). `parseFloat` reads the longest prefix in that grammar
 * and ignores the rest. `Number` accepts only a string that is entirely one
 * such number, and reads the empty string as 0.
 */
module Parsing {
  import opened Common
  import opened DayKeys

  /** Where the first comma of `s` is, or `|s|` when there is none. */
  function CommaIndex(s: string): (i: nat)
    ensures i <= |s| && ',' !in s[..i]
    ensures i < |s| ==> s[i] == ','
    ensures i == |s| <==> ',' !in s
  {
    if s == [] || s[0] == ',' then 0
    else
      var i := 1 + CommaIndex(s[1..]);
      assert s[..i] == [s[0]] + s[1..][..i - 1];
      assert s == [s[0]] + s[1..];
      i
  }

  /** A comma after comma-free text is the first comma. */
  lemma FirstCommaAt(p: string, t: string)
    requires ',' !in p
    ensures CommaIndex(p + [','] + t) == |p|
  {
    var s := p + [','] + t;
    assert s[|p|] == ',';
    assert s[..|p|] == p;
  }

  /** `s.replace(',', '.')` with a string pattern. */
  function ReplaceFirstComma(s: string): (r: string)
    ensures |r| == |s|
  {
    if s == [] then []
    else if s[0] == ',' then "." + s[1..]
    else [s[0]] + ReplaceFirstComma(s[1..])
  }

  /** Only the first comma becomes a point; every other character, later commas
      included, is kept. */
  lemma ReplacesOnlyFirstComma(s: string)
    ensures ',' !in s ==> ReplaceFirstComma(s) == s
    ensures ',' in s ==> var i := CommaIndex(s); ReplaceFirstComma(s) == s[..i] + "." + s[i + 1..]
  {
    if ',' in s {
      FirstCommaReplaced(s);
    } else {
      CommaFreeUnchanged(s);
    }
  }

  lemma FirstCommaReplaced(s: string)
    requires ',' in s
    ensures var i := CommaIndex(s); ReplaceFirstComma(s) == s[..i] + "." + s[i + 1..]
  {
    var i := CommaIndex(s);
    var p, t := s[..i], s[i + 1..];
    SplitAt(s, i);
    ReplaceAfterCommaFree(p, t);
  }

  /** A sequence is its part before index `i`, the element at `i`, and the rest. */
  lemma SplitAt<T>(s: seq<T>, i: nat)
    requires i < |s|
    ensures s == s[..i] + [s[i]] + s[i + 1..]
  {
  }

  lemma {:induction false} CommaFreeUnchanged(s: string)
    requires ',' !in s
    ensures ReplaceFirstComma(s) == s
  {
    if s != [] {
      assert s[0] in s;
      assert s[1..] == s[|s| - (|s| - 1)..];
      assert forall c :: c in s[1..] ==> c in s;
      CommaFreeUnchanged(s[1..]);
    }
  }

  lemma {:induction false} ReplaceAfterCommaFree(p: string, t: string)
    requires ',' !in p
    ensures ReplaceFirstComma(p + [','] + t) == p + "." + t
  {
    if p == [] {
      assert p + [','] + t == [','] + t;
    } else {
      var s, q := p + [','] + t, p[1..];
      assert p[0] in p;
      assert forall c :: c in q ==> c in p;
      ReplaceAfterCommaFree(q, t);
      assert s[0] == p[0] != ',';
      assert s[1..] == q + [','] + t;
      assert ReplaceFirstComma(s) == [p[0]] + ReplaceFirstComma(q + [','] + t);
      assert [p[0]] + (q + "." + t) == p + "." + t;
    }
  }

  /** The number of digits at the front of `s`. */
  function LeadingDigits(s: string): (n: nat)
    ensures n <= |s| && AllDigits(s[..n])
    ensures n == |s| || !IsDigit(s[n])
  {
    if s == [] || !IsDigit(s[0]) then 0
    else
      var n := 1 + LeadingDigits(s[1..]);
      assert forall i :: 0 < i < n ==> s[..n][i] == s[1..][..n - 1][i - 1];
      n
  }

  /** The value of the digits after a decimal point: each digit is worth a
      tenth of the one before it. */
  function Fraction(fs: string): (v: real)
    requires AllDigits(fs)
    ensures 0.0 <= v < 1.0
  {
    if fs == [] then 0.0 else (Digit(fs[0]) as real + Fraction(fs[1..])) / 10.0
  }

  /** What a reader found at the front of a string: nothing, or the value and
      how many characters it spans. */
  datatype Scan = NoNumber | Read(value: real, length: nat)

  /** The longest prefix of `s` in the unsigned decimal grammar, or NoNumber
      when `s` does not start with one. */
  function ScanUnsigned(s: string): (r: Scan)
    ensures r.Read? ==> 0 < r.length <= |s| && r.value >= 0.0
  {
    var n := LeadingDigits(s);
    if n < |s| && s[n] == '.' then ScanAfterPoint(s[..n], s[n + 1..])
    else if n == 0 then NoNumber
    else Read(DigitsValue(s[..n]) as real, n)
  }

  /** Integer digits `ds` have been read and a point follows; `rest` is what
      comes after the point. */
  function ScanAfterPoint(ds: string, rest: string): (r: Scan)
    requires AllDigits(ds)
    ensures r.Read? ==> r.length == |ds| + 1 + LeadingDigits(rest) && r.value >= 0.0
  {
    var f := LeadingDigits(rest);
    if ds == [] && f == 0 then NoNumber
    else Read(DigitsValue(ds) as real + Fraction(rest[..f]), |ds| + 1 + f)
  }

  /** The longest prefix of `s` in the decimal grammar, or NoNumber when `s`
      does not start with a number. */
  function ScanDecimal(s: string): (r: Scan)
    ensures r.Read? ==> 0 < r.length <= |s|
  {
    var signLen := if |s| > 0 && (s[0] == '+' || s[0] == '-') then 1 else 0;
    var sc := ScanUnsigned(s[signLen..]);
    if sc.NoNumber? then NoNumber
    else
      var value := if signLen == 1 && s[0] == '-' then -sc.value else sc.value;
      Read(value, signLen + sc.length)
  }

  /** `parseFloat(s)`. */
  function ParseFloat(s: string): (r: Number)
    ensures r.Num? <==> ScanDecimal(s).Read?
  {
    match ScanDecimal(s)
    case NoNumber => NaN
    case Read(v, _) => Num(v)
  }

  /** `Number(s)` for a string. */
  function NumberOf(s: string): (r: Number)
    ensures s == [] ==> r == Num(0.0)
    ensures s != [] && r.Num? ==> ScanDecimal(s).Read? && ScanDecimal(s).length == |s|
  {
    if s == [] then Num(0.0)
    else match ScanDecimal(s)
      case Read(v, n) => if n == |s| then Num(v) else NaN
      case NoNumber => NaN
  }

  // ---------------------------------------------------------------------------
  // The grammar, stated apart from the scanner

  /** The sign written in front of a literal. */
  datatype Sign = NoSign | Plus | Minus

  /** A literal of the decimal grammar by its parts: the sign, the integer
      digits, whether a point is written, and the fraction digits. */
  datatype Literal = Literal(sign: Sign, ds: string, point: bool, fs: string)

  /** Digits on both sides of the point, fraction digits only after a point,
      and at least one digit in all: `5`, `5.`, `.5` and `-5.25` qualify, `.`
      and `-` do not. */
  predicate WellFormed(l: Literal)
  {
    AllDigits(l.ds) && AllDigits(l.fs) && (l.point || l.fs == []) && (l.ds != [] || l.fs != [])
  }

  function SignText(sg: Sign): string
  {
    match sg
    case NoSign => ""
    case Plus => "+"
    case Minus => "-"
  }

  /** How the literal is written. */
  function Text(l: Literal): string
  {
    SignText(l.sign) + l.ds + (if l.point then "." + l.fs else "")
  }

  /** The value the literal denotes. */
  function ValueOf(l: Literal): real
    requires WellFormed(l)
  {
    var magnitude := DigitsValue(l.ds) as real + Fraction(l.fs);
    if l.sign == Minus then -magnitude else magnitude
  }

  /** Digits at the front of a text are all counted. */
  lemma {:induction false} LeadingDigitsCover(a: string, u: string)
    requires AllDigits(a) && a <= u
    ensures LeadingDigits(u) >= |a|
  {
    if a != [] {
      assert u[0] == a[0] && IsDigit(a[0]);
      assert a[1..] <= u[1..];
      LeadingDigitsCover(a[1..], u[1..]);
    }
  }

  /** What the scanner reads is a literal of the grammar, and it reads that
      literal's value. */
  lemma ScanReadsLiteral(s: string)
    requires ScanDecimal(s).Read?
    ensures var r := ScanDecimal(s);
            exists l :: WellFormed(l) && Text(l) == s[..r.length] && ValueOf(l) == r.value
  {
    var sg, u := ScanSign(s);
    var unsigned := UnsignedLiteral(u);
    var l := Signed(unsigned, sg);
    PrefixOfConcat(SignText(sg), u, ScanUnsigned(u).length);
    assert WellFormed(l) && Text(l) == s[..ScanDecimal(s).length] && ValueOf(l) == ScanDecimal(s).value;
  }

  /** Giving an unsigned literal a sign puts the sign's text in front and
      negates the value for a minus. */
  lemma Signed(unsigned: Literal, sg: Sign) returns (l: Literal)
    requires unsigned.sign == NoSign && WellFormed(unsigned)
    ensures l == unsigned.(sign := sg) && WellFormed(l)
    ensures Text(l) == SignText(sg) + Unsigned(unsigned)
    ensures ValueOf(l) == if sg == Minus then -ValueOf(unsigned) else ValueOf(unsigned)
  {
    l := unsigned.(sign := sg);
  }

  /** The scanner takes an optional sign and scans the rest unsigned. */
  lemma ScanSign(s: string) returns (sg: Sign, u: string)
    requires ScanDecimal(s).Read?
    ensures s == SignText(sg) + u && ScanUnsigned(u).Read?
    ensures ScanDecimal(s).length == |SignText(sg)| + ScanUnsigned(u).length
    ensures ScanDecimal(s).value == if sg == Minus then -ScanUnsigned(u).value else ScanUnsigned(u).value
  {
    var signLen := if |s| > 0 && (s[0] == '+' || s[0] == '-') then 1 else 0;
    sg := if signLen == 0 then NoSign else if s[0] == '-' then Minus else Plus;
    u := s[signLen..];
    assert s == s[..signLen] + u;
  }

  lemma PrefixOfConcat(a: string, b: string, n: nat)
    requires n <= |b|
    ensures (a + b)[..|a| + n] == a + b[..n]
  {
  }

  /** The unsigned scanner reads an unsigned literal of the grammar and its
      value. */
  lemma UnsignedLiteral(u: string) returns (l: Literal)
    requires ScanUnsigned(u).Read?
    ensures l.sign == NoSign && WellFormed(l)
    ensures Unsigned(l) == u[..ScanUnsigned(u).length] && ValueOf(l) == ScanUnsigned(u).value
  {
    var k := LeadingDigits(u);
    if k < |u| && u[k] == '.' {
      l := PointLiteral(u, k);
    } else {
      assert ScanUnsigned(u) == Read(DigitsValue(u[..k]) as real, k);
      l := LiteralOfParts(u[..k], false, "");
      assert u[..k] == u[..k] + "";
    }
  }

  /** The unsigned scanner's reading when a point follows the integer digits. */
  lemma PointLiteral(u: string, k: nat) returns (l: Literal)
    requires ScanUnsigned(u).Read? && k == LeadingDigits(u) && k < |u| && u[k] == '.'
    ensures l.sign == NoSign && WellFormed(l)
    ensures Unsigned(l) == u[..ScanUnsigned(u).length] && ValueOf(l) == ScanUnsigned(u).value
  {
    var rest := u[k + 1..];
    var f := LeadingDigits(rest);
    assert ScanUnsigned(u) == Read(DigitsValue(u[..k]) as real + Fraction(rest[..f]), k + 1 + f);
    l := LiteralOfParts(u[..k], true, rest[..f]);
    PointSlice(u, k, f);
  }

  lemma PointSlice(u: string, k: nat, f: nat)
    requires k < |u| && u[k] == '.' && k + 1 + f <= |u|
    ensures u[..k + 1 + f] == u[..k] + ("." + u[k + 1..][..f])
  {
    assert u[..k + 1 + f] == u[..k] + [u[k]] + u[k + 1..][..f];
  }

  /** The unsigned literal with the given parts, its text and its value. */
  lemma LiteralOfParts(ds: string, point: bool, fs: string) returns (l: Literal)
    requires AllDigits(ds) && AllDigits(fs) && (point || fs == []) && (ds != [] || fs != [])
    ensures l == Literal(NoSign, ds, point, fs) && WellFormed(l)
    ensures Unsigned(l) == ds + (if point then "." + fs else "")
    ensures ValueOf(l) == DigitsValue(ds) as real + Fraction(fs)
  {
    l := Literal(NoSign, ds, point, fs);
  }

  /** Whenever the text starts with a literal, the scanner reads at least that
      far. */
  lemma ScanReachesLiteral(s: string, l: Literal)
    ensures WellFormed(l) && Text(l) <= s ==> ScanDecimal(s).Read? && ScanDecimal(s).length >= |Text(l)|
  {
    if WellFormed(l) && Text(l) <= s {
      var st, tail := SignText(l.sign), Unsigned(l);
      var signLen := if |s| > 0 && (s[0] == '+' || s[0] == '-') then 1 else 0;
      assert Text(l) == st + tail;
      if l.sign == NoSign {
        assert l.ds != [] ==> s[0] == l.ds[0] && IsDigit(l.ds[0]);
        assert l.ds == [] ==> l.point && s[0] == '.';
      }
      assert signLen == |st|;
      assert tail <= s[signLen..];
      UnsignedReaches(s[signLen..], l);
    }
  }

  /** The literal without its sign. */
  function Unsigned(l: Literal): string
  {
    l.ds + (if l.point then "." + l.fs else "")
  }

  lemma UnsignedReaches(u: string, l: Literal)
    requires WellFormed(l) && Unsigned(l) <= u
    ensures ScanUnsigned(u).Read? && ScanUnsigned(u).length >= |Unsigned(l)|
  {
    assert l.ds <= u;
    LeadingDigitsCover(l.ds, u);
    var k := LeadingDigits(u);
    if l.point {
      assert u[|l.ds|] == '.' && !IsDigit(u[|l.ds|]);
      assert k == |l.ds|;
      var rest := u[k + 1..];
      assert l.fs <= rest;
      LeadingDigitsCover(l.fs, rest);
    }
  }

  /** `parseFloat` yields a number exactly when the text starts with a literal
      of the grammar, and then it is the value of the longest such start. */
  lemma ParseFloatReadsLongestLiteral(s: string)
    ensures ParseFloat(s).Num? <==> exists l :: WellFormed(l) && Text(l) <= s
    ensures ParseFloat(s).Num? ==>
              exists l :: WellFormed(l) && Text(l) <= s && ValueOf(l) == ParseFloat(s).value
                          && forall m :: WellFormed(m) && Text(m) <= s ==> |Text(m)| <= |Text(l)|
  {
    forall m
      ensures WellFormed(m) && Text(m) <= s ==> ScanDecimal(s).Read? && ScanDecimal(s).length >= |Text(m)|
    {
      ScanReachesLiteral(s, m);
    }
    if ScanDecimal(s).Read? {
      var r := ScanDecimal(s);
      ScanReadsLiteral(s);
      var l :| WellFormed(l) && Text(l) == s[..r.length] && ValueOf(l) == r.value;
      assert Text(l) <= s;
    }
  }

  /** `Number` of a text yields a number exactly when the text is empty or is
      one whole literal of the grammar, and then it is that literal's value. */
  lemma NumberOfReadsWholeLiteral(s: string)
    ensures NumberOf(s).Num? <==> s == [] || exists l :: WellFormed(l) && Text(l) == s
    ensures s != [] && NumberOf(s).Num? ==>
              exists l :: WellFormed(l) && Text(l) == s && ValueOf(l) == NumberOf(s).value
  {
    forall m
      ensures WellFormed(m) && Text(m) == s ==> ScanDecimal(s).Read? && ScanDecimal(s).length >= |s|
    {
      ScanReachesLiteral(s, m);
    }
    if s != [] && ScanDecimal(s).Read? && ScanDecimal(s).length == |s| {
      ScanReadsLiteral(s);
      assert s[..|s|] == s;
    }
  }

  /** `Number` and `parseFloat` agree on every non-empty string `Number` accepts. */
  lemma NumberAgreesWithParseFloat(s: string)
    requires s != [] && NumberOf(s).Num?
    ensures ParseFloat(s) == NumberOf(s)
  {
  }

  /** The literal `[-]digits[.digits]`, written with a point only when
      fraction digits follow. */
  function Decimal(negative: bool, ds: string, fs: string): string
  {
    Text(Literal(if negative then Minus else NoSign, ds, fs != [], fs))
  }

  lemma {:induction false} LeadingDigitsOfDigitsThen(a: string, t: string)
    requires AllDigits(a)
    requires t == [] || !IsDigit(t[0])
    ensures LeadingDigits(a + t) == |a|
  {
    if a != [] {
      assert (a + t)[1..] == a[1..] + t;
      LeadingDigitsOfDigitsThen(a[1..], t);
    } else {
      assert a + t == t;
    }
  }

  /** The unsigned part of a literal scans to its value and spans exactly it. */
  lemma UnsignedRoundTrip(ds: string, fs: string, t: string)
    requires AllDigits(ds) && AllDigits(fs) && ds != []
    requires t == [] || (!IsDigit(t[0]) && t[0] != '.')
    ensures var tail := if fs == [] then "" else "." + fs;
            var r := ScanUnsigned(ds + tail + t);
            r.Read? && r.value == DigitsValue(ds) as real + Fraction(fs) && r.length == |ds| + |tail|
  {
    if fs == [] {
      IntegerRoundTrip(ds, t);
      assert ds + "" + t == ds + t;
    } else {
      Associate(ds, fs, t);
      ScanReachesPoint(ds, fs + t);
      ScanFractionDigits(ds, fs, t);
    }
  }

  lemma IntegerRoundTrip(ds: string, t: string)
    requires AllDigits(ds) && ds != []
    requires t == [] || (!IsDigit(t[0]) && t[0] != '.')
    ensures var r := ScanUnsigned(ds + t);
            r.Read? && r.value == DigitsValue(ds) as real && r.length == |ds|
  {
    var s := ds + t;
    LeadingDigitsOfDigitsThen(ds, t);
    Split(ds, t);
  }

  lemma Associate(ds: string, fs: string, t: string)
    ensures ds + ("." + fs) + t == ds + (['.'] + (fs + t))
  {
  }

  /** The two halves of a concatenation are recovered by slicing it. */
  lemma Split<T>(a: seq<T>, b: seq<T>)
    ensures (a + b)[..|a|] == a && (a + b)[|a|..] == b
  {
  }

  /** Digits followed by a point: the scan continues after the point. */
  lemma ScanReachesPoint(ds: string, rest: string)
    requires AllDigits(ds)
    ensures ScanUnsigned(ds + (['.'] + rest)) == ScanAfterPoint(ds, rest)
  {
    var after := ['.'] + rest;
    var s := ds + after;
    Split(ds, after);
    Split(['.'], rest);
    LeadingDigitsOfDigitsThen(ds, after);
    assert s[|ds| + 1..] == rest;
  }

  /** After the point, the scan takes exactly the fraction digits. */
  lemma ScanFractionDigits(ds: string, fs: string, t: string)
    requires AllDigits(ds) && AllDigits(fs) && fs != []
    requires t == [] || !IsDigit(t[0])
    ensures var r := ScanAfterPoint(ds, fs + t);
            r.Read? && r.value == DigitsValue(ds) as real + Fraction(fs) && r.length == |ds| + 1 + |fs|
  {
    Split(fs, t);
    LeadingDigitsOfDigitsThen(fs, t);
  }

  /** A literal with its sign scans to its signed value and spans exactly itself. */
  lemma SignedRoundTrip(negative: bool, ds: string, fs: string, t: string)
    requires AllDigits(ds) && AllDigits(fs) && ds != []
    requires t == [] || (!IsDigit(t[0]) && t[0] != '.')
    ensures var magnitude := DigitsValue(ds) as real + Fraction(fs);
            var r := ScanDecimal(Decimal(negative, ds, fs) + t);
            r.Read? && r.value == (if negative then -magnitude else magnitude)
            && r.length == |Decimal(negative, ds, fs)|
  {
    var tail := if fs == [] then "" else "." + fs;
    var rest := ds + tail + t;
    UnsignedRoundTrip(ds, fs, t);
    DecimalParts(negative, ds, tail, t);
    if negative {
      ScanNegative(rest);
    } else {
      ScanUnsignedFirst(rest);
    }
  }

  lemma DecimalParts(negative: bool, ds: string, tail: string, t: string)
    ensures ((if negative then "-" else "") + ds + tail) + t
              == (if negative then ['-'] else []) + (ds + tail + t)
  {
  }

  /** A leading minus sign negates what the unsigned scan reads after it. */
  lemma ScanNegative(rest: string)
    ensures var r, u := ScanDecimal(['-'] + rest), ScanUnsigned(rest);
            r.Read? == u.Read? && (u.Read? ==> r.value == -u.value && r.length == 1 + u.length)
  {
    Split(['-'], rest);
  }

  /** A string starting with a digit has no sign to read. */
  lemma ScanUnsignedFirst(s: string)
    requires s != [] && IsDigit(s[0])
    ensures ScanDecimal(s) == ScanUnsigned(s)
  {
    assert s[0..] == s;
  }

  /** Reading a literal back: `parseFloat` returns its value whatever text
      follows it (when that text does not continue the number), and `Number`
      returns its value exactly when nothing follows it. */
  lemma DecimalRoundTrip(negative: bool, ds: string, fs: string, t: string)
    requires AllDigits(ds) && AllDigits(fs) && ds != []
    requires t == [] || (!IsDigit(t[0]) && t[0] != '.')
    ensures var magnitude := DigitsValue(ds) as real + Fraction(fs);
            var p := ParseFloat(Decimal(negative, ds, fs) + t);
            p.Num? && p.value == (if negative then -magnitude else magnitude)
    ensures var magnitude := DigitsValue(ds) as real + Fraction(fs);
            var n := NumberOf(Decimal(negative, ds, fs) + t);
            if t == [] then n.Num? && n.value == (if negative then -magnitude else magnitude)
            else n.NaN?
  {
    SignedRoundTrip(negative, ds, fs, t);
  }

  /** The decimal comma the keyboard offers stops `parseFloat` after the
      integer digits, and `Number` rejects the whole text. */
  lemma CommaStopsTheNumber(ds: string, fs: string)
    requires AllDigits(ds) && ds != []
    ensures ParseFloat(ds + [','] + fs) == Num(DigitsValue(ds) as real)
    ensures NumberOf(ds + [','] + fs) == NaN
  {
    var t := [','] + fs;
    assert Decimal(false, ds, "") == ds;
    Regroup(ds, [','], fs);
    assert Fraction("") == 0.0;
    DecimalRoundTrip(false, ds, "", t);
  }

  lemma Regroup<T>(a: seq<T>, b: seq<T>, c: seq<T>)
    ensures a + (b + c) == a + b + c
  {
  }

  /** Replacing the comma first reads the intended decimal value. */
  lemma CommaReplaced(ds: string, fs: string)
    requires AllDigits(ds) && AllDigits(fs) && ds != [] && fs != []
    ensures ParseFloat(ReplaceFirstComma(ds + [','] + fs)) == Num(DigitsValue(ds) as real + Fraction(fs))
  {
    NormalisedSeparator(ds, ',', fs);
    DecimalRoundTrip(false, ds, fs, "");
  }

  /** Either separator between two digit strings becomes the decimal point. */
  lemma NormalisedSeparator(ds: string, sep: char, fs: string)
    requires AllDigits(ds) && AllDigits(fs) && fs != []
    requires sep == ',' || sep == '.'
    ensures ReplaceFirstComma(ds + [sep] + fs) == Decimal(false, ds, fs) + ""
  {
    var s := ds + [sep] + fs;
    if sep == ',' {
      assert ',' !in ds by {
        forall k | 0 <= k < |ds| ensures ds[k] != ',' {
          assert IsDigit(ds[k]);
        }
      }
      FirstCommaAt(ds, fs);
      ReplacesOnlyFirstComma(s);
      assert s[..|ds|] == ds && s[|ds| + 1..] == fs;
    } else {
      assert ',' !in s by {
        forall k | 0 <= k < |s| ensures s[k] != ',' {
          if k < |ds| {
            assert s[k] == ds[k];
          } else if k > |ds| {
            assert s[k] == fs[k - |ds| - 1];
          }
        }
      }
      ReplacesOnlyFirstComma(s);
    }
  }

  /** Text that does not start with a number reads as NaN. */
  lemma NotANumberExample()
    ensures ParseFloat("abc") == NaN
    ensures NumberOf("abc") == NaN
  {
  }
}
