/** Character classes, Python's `%d`, `%1.2f` and `%f` renderings of the
    values the scripts print, their inverses, and substring search (`w in s`). */
module Text {

  datatype Option<T> = None | Some(value: T)

  predicate IsDigit(c: char) { '0' <= c <= '9' }

  predicate IsLower(c: char) { 'a' <= c <= 'z' }

  /** The characters Python's `\s` matches in a `str` pattern (those for
      which `str.isspace()` holds). */
  predicate IsSpace(c: char) {
    || c == ' ' || ('\t' <= c <= '\r') || ('\U{1C}' <= c <= '\U{1F}')
    || c == '\U{85}' || c == '\U{A0}' || c == '\U{1680}'
    || ('\U{2000}' <= c <= '\U{200A}') || c == '\U{2028}' || c == '\U{2029}'
    || c == '\U{202F}' || c == '\U{205F}' || c == '\U{3000}'
  }

  predicate NoSpace(s: string) { forall i :: 0 <= i < |s| ==> !IsSpace(s[i]) }

  lemma NoSpaceConcat(a: string, b: string)
    requires NoSpace(a) && NoSpace(b)
    ensures NoSpace(a + b)
  {
    assert forall i :: |a| <= i < |a + b| ==> (a + b)[i] == b[i - |a|];
  }

  predicate AllDigits(s: string) { forall i :: 0 <= i < |s| ==> IsDigit(s[i]) }

  predicate NoLower(s: string) { forall i :: 0 <= i < |s| ==> !IsLower(s[i]) }

  // ---------------------------------------------------------------------
  // str.upper(), on the ASCII letters

  function UpperChar(c: char): char {
    if IsLower(c) then (c as int - 32) as char else c
  }

  function Upper(s: string): string {
    if s == [] then [] else Upper(s[..|s| - 1]) + [UpperChar(s[|s| - 1])]
  }

  /** Upper-casing turns each lower-case letter into its capital and keeps
      every other character, so it keeps the length, leaves no lower-case
      letter and changes no character's being whitespace. */
  lemma {:induction false} UpperShape(s: string)
    ensures |Upper(s)| == |s|
    ensures NoLower(Upper(s))
    ensures NoSpace(s) ==> NoSpace(Upper(s))
    ensures forall i :: 0 <= i < |s| ==> !IsLower(s[i]) ==> Upper(s)[i] == s[i]
    ensures forall i :: 0 <= i < |s| && IsLower(s[i]) ==> Upper(s)[i] as int == s[i] as int - 32
  {
    if s != [] {
      UpperShape(s[..|s| - 1]);
    }
  }

  // ---------------------------------------------------------------------
  // "%d" on a non-negative and on an arbitrary integer

  function DigitChar(d: nat): (c: char)
    requires d < 10
    ensures IsDigit(c)
  {
    ('0' as int + d) as char
  }

  function DigitValue(c: char): (d: nat)
    requires IsDigit(c)
    ensures d < 10 && DigitChar(d) == c
  {
    c as int - '0' as int
  }

  /** Decimal rendering of n without leading zeros. */
  function NatToString(n: nat): (r: string)
    ensures |r| > 0 && AllDigits(r)
    ensures |r| > 1 ==> r[0] != '0'
    decreases n
  {
    if n < 10 then [DigitChar(n)] else NatToString(n / 10) + [DigitChar(n % 10)]
  }

  /** The value of a string of decimal digits (0 for the empty string). */
  function ParseNat(s: string): nat
    requires AllDigits(s)
  {
    if s == [] then 0 else ParseNat(s[..|s| - 1]) * 10 + DigitValue(s[|s| - 1])
  }

  lemma {:induction false} ParseNatToString(n: nat)
    ensures ParseNat(NatToString(n)) == n
    decreases n
  {
    if n >= 10 {
      var s := NatToString(n / 10) + [DigitChar(n % 10)];
      assert s[..|s| - 1] == NatToString(n / 10);
      ParseNatToString(n / 10);
    }
  }

  /** Python's "%d" % i. */
  function IntToString(i: int): (r: string)
    ensures |r| > 0
  {
    if i < 0 then "-" + NatToString(-i) else NatToString(i)
  }

  /** The inverse of IntToString: an optional minus sign and at least one digit. */
  function ParseInt(s: string): Option<int> {
    if |s| > 0 && s[0] == '-' then
      (if |s| > 1 && AllDigits(s[1..]) then Some(-(ParseNat(s[1..]) as int)) else None)
    else if |s| > 0 && AllDigits(s) then Some(ParseNat(s) as int)
    else None
  }

  lemma ParseIntToString(i: int)
    ensures ParseInt(IntToString(i)) == Some(i)
  {
    if i < 0 {
      var s := IntToString(i);
      assert s[1..] == NatToString(-i);
      ParseNatToString(-i);
      if -i == 0 { assert false; }
    } else {
      ParseNatToString(i);
    }
  }

  /** A rendered integer starts with a digit or a minus sign and holds no
      letter and no whitespace. */
  lemma IntToStringChars(i: int)
    ensures forall k :: 0 <= k < |IntToString(i)| ==>
      IsDigit(IntToString(i)[k]) || (k == 0 && IntToString(i)[k] == '-')
  {
  }

  // ---------------------------------------------------------------------
  // "%1.2f" of an injection rate held as a whole number of hundredths,
  // and "%f" of a whole-number latency

  function FormatHundredths(h: nat): (r: string)
    ensures |r| >= 4 && r[|r| - 3] == '.'
  {
    NatToString(h / 100) + "." + [DigitChar(h % 100 / 10), DigitChar(h % 10)]
  }

  /** Reads back "D.dd": whole digits, a point and exactly two decimals. */
  function ParseHundredths(s: string): Option<nat> {
    if |s| >= 4 && s[|s| - 3] == '.' && AllDigits(s[..|s| - 3])
       && IsDigit(s[|s| - 2]) && IsDigit(s[|s| - 1])
    then Some(ParseNat(s[..|s| - 3]) * 100 + DigitValue(s[|s| - 2]) * 10 + DigitValue(s[|s| - 1]))
    else None
  }

  lemma FormatHundredthsRoundTrip(h: nat)
    ensures ParseHundredths(FormatHundredths(h)) == Some(h)
  {
    var r := FormatHundredths(h);
    assert r[..|r| - 3] == NatToString(h / 100);
    ParseNatToString(h / 100);
  }

  lemma FormatHundredthsInjective(g: nat, h: nat)
    requires g != h
    ensures FormatHundredths(g) != FormatHundredths(h)
  {
    FormatHundredthsRoundTrip(g);
    FormatHundredthsRoundTrip(h);
  }

  /** A rendered rate is made of digits and points only. */
  lemma FormatHundredthsChars(h: nat)
    ensures forall k :: 0 <= k < |FormatHundredths(h)| ==>
      IsDigit(FormatHundredths(h)[k]) || FormatHundredths(h)[k] == '.'
  {
  }

  /** Python's "%f" % float(n): six decimals, all zero for a whole number. */
  function FormatLatency(n: nat): (r: string)
    ensures |r| > 7
    ensures r[..|r| - 7] == NatToString(n) && r[|r| - 7..] == ".000000"
  {
    NatToString(n) + ".000000"
  }

  // ---------------------------------------------------------------------
  // float() of a string of digits and points, truncated to its whole part

  predicate IsRateChar(c: char) { IsDigit(c) || c == '.' }

  /** Index of the first '.', or |s| when there is none. */
  function PointIndex(s: string): (k: nat)
    ensures k <= |s|
    ensures k < |s| ==> s[k] == '.'
    ensures forall j :: 0 <= j < k ==> s[j] != '.'
  {
    if s == [] then 0 else if s[0] == '.' then 0 else 1 + PointIndex(s[1..])
  }

  /** float(s) for a string s of digits and points: defined when s has at
      most one point and at least one digit; the value kept is its whole
      part. None is where float() raises ValueError. */
  function ParseDecimal(s: string): (r: Option<nat>)
    ensures r.Some? ==> forall j :: 0 <= j < |s| ==> IsRateChar(s[j])
    ensures r.Some? ==> AllDigits(s[..PointIndex(s)]) && r.value == ParseNat(s[..PointIndex(s)])
  {
    var k := PointIndex(s);
    var whole := s[..k];
    var frac := if k < |s| then s[k + 1..] else [];
    if AllDigits(whole) && AllDigits(frac) && |whole| + |frac| > 0 then
      assert forall j :: 0 <= j < |s| ==> IsRateChar(s[j]) by {
        forall j | 0 <= j < |s| ensures IsRateChar(s[j]) {
          if j < k { assert s[j] == whole[j]; }
          else if j > k { assert s[j] == frac[j - k - 1]; }
        }
      }
      Some(ParseNat(whole))
    else None
  }

  /** The strings float() can read: digits and points, at most one point,
      and at least one digit. */
  ghost predicate DecimalShaped(s: string) {
    && (forall j :: 0 <= j < |s| ==> IsRateChar(s[j]))
    && (forall j :: PointIndex(s) < j < |s| ==> s[j] != '.')
    && (exists j :: 0 <= j < |s| && IsDigit(s[j]))
  }

  lemma ParseDecimalShaped(s: string)
    requires ParseDecimal(s).Some?
    ensures DecimalShaped(s)
  {
    var k := PointIndex(s);
    var whole := s[..k];
    var frac := if k < |s| then s[k + 1..] else [];
    forall j | k < j < |s| ensures s[j] != '.' {
      assert s[j] == frac[j - k - 1];
    }
    if |whole| > 0 { assert IsDigit(s[0]) by { assert s[0] == whole[0]; } }
    else { assert IsDigit(s[k + 1]) by { assert s[k + 1] == frac[0]; } }
  }

  lemma ShapedParseDecimal(s: string)
    requires DecimalShaped(s)
    ensures ParseDecimal(s).Some?
  {
    var k := PointIndex(s);
    var whole := s[..k];
    var frac := if k < |s| then s[k + 1..] else [];
    assert AllDigits(whole) by {
      forall j | 0 <= j < |whole| ensures IsDigit(whole[j]) {
        assert whole[j] == s[j];
      }
    }
    assert AllDigits(frac) by {
      forall j | 0 <= j < |frac| ensures IsDigit(frac[j]) {
        assert frac[j] == s[k + 1 + j];
      }
    }
    var d :| 0 <= d < |s| && IsDigit(s[d]);
    if d < k { assert |whole| > 0; } else { assert d > k && |frac| > 0; }
  }

  /** float() accepts exactly the strings of digits and points that hold at
      most one point and at least one digit. */
  lemma ParseDecimalDefined(s: string)
    ensures ParseDecimal(s).Some? <==> DecimalShaped(s)
  {
    if ParseDecimal(s).Some? { ParseDecimalShaped(s); }
    if DecimalShaped(s) { ShapedParseDecimal(s); }
  }

  /** float() raises on a lone point and on two points, and reads digits. */
  lemma ParseDecimalExamples()
    ensures ParseDecimal(".") == None
    ensures ParseDecimal("1.2.3") == None
    ensures ParseDecimal("12") == Some(12)
    ensures ParseDecimal("0.42") == Some(0)
  {
    assert PointIndex(".") == 0;
    assert PointIndex("1.2.3") == 1 by { PointIndexAt("1.2.3", 1); }
    assert "1.2.3"[2..][1] == '.';
    assert PointIndex("12") == 2;
    assert "12"[..2] == "12" && "12"[..1] == "1" && "1"[..0] == [];
    assert ParseNat("1") == 1;
    assert ParseNat("12") == 12;
    assert PointIndex("0.42") == 1 by { PointIndexAt("0.42", 1); }
    assert "0.42"[..1] == "0";
    assert "0.42"[2..] == "42";
  }

  lemma ParseDecimalOfLatency(n: nat)
    ensures ParseDecimal(FormatLatency(n)) == Some(n)
  {
    var s := FormatLatency(n);
    var d := NatToString(n);
    assert forall j :: 0 <= j < |d| ==> s[j] == d[j] && s[j] != '.';
    assert s[|d|] == '.';
    assert PointIndex(s) == |d| by { PointIndexAt(s, |d|); }
    assert s[..|d|] == d;
    assert s[|d| + 1..] == "000000";
    ParseNatToString(n);
  }

  lemma PointIndexAt(s: string, k: nat)
    requires k < |s| && s[k] == '.'
    requires forall j :: 0 <= j < k ==> s[j] != '.'
    ensures PointIndex(s) == k
  {
  }

  // ---------------------------------------------------------------------
  // `w in s` and str.startswith

  predicate OccursAt(s: string, w: string, i: nat) {
    i + |w| <= |s| && s[i..i + |w|] == w
  }

  /** Python's `w in s`. */
  predicate Contains(s: string, w: string) {
    exists i: nat | i <= |s| :: OccursAt(s, w, i)
  }

  predicate StartsWith(s: string, p: string) {
    |p| <= |s| && s[..|p|] == p
  }

  lemma ContainsLeft(x: string, y: string, w: string)
    requires Contains(x, w)
    ensures Contains(x + y, w)
  {
    var i: nat :| i <= |x| && OccursAt(x, w, i);
    assert (x + y)[i..i + |w|] == x[i..i + |w|];
    assert OccursAt(x + y, w, i);
  }

  lemma ContainsRight(x: string, y: string, w: string)
    requires Contains(y, w)
    ensures Contains(x + y, w)
  {
    var i: nat :| i <= |y| && OccursAt(y, w, i);
    assert (x + y)[|x| + i..|x| + i + |w|] == y[i..i + |w|];
    assert OccursAt(x + y, w, |x| + i);
  }

  /** A string none of whose characters is w's first holds no occurrence of w. */
  lemma NotContainsFirstChar(s: string, w: string)
    requires |w| > 0 && w[0] !in s
    ensures !Contains(s, w)
  {
    forall i: nat | i <= |s| ensures !OccursAt(s, w, i) {
      if i + |w| <= |s| {
        assert s[i..i + |w|][0] == s[i];
      }
    }
  }

  lemma ContainsItself(w: string)
    ensures Contains(w, w)
  {
    assert OccursAt(w, w, 0);
  }
}
