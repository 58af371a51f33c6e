/** Character-level helpers used by the derived (computed) fields:
    decimal rendering of naturals as Python's `str(int)` does it, the
    inverse parser, ASCII lower-casing and substring search. */
module Text {

  predicate IsDigit(c: char) {
    '0' <= c <= '9'
  }

  predicate AllDigits(s: string) {
    forall i :: 0 <= i < |s| ==> IsDigit(s[i])
  }

  function DigitChar(d: nat): (c: char)
    requires d < 10
    ensures IsDigit(c)
    ensures c as int - '0' as int == d
  {
    (d + '0' as int) as char
  }

  function DigitValue(c: char): (d: nat)
    requires IsDigit(c)
    ensures d < 10
    ensures DigitChar(d) == c
  {
    c as int - '0' as int
  }

  /** `str(n)` for a non-negative integer: shortest decimal form, no sign,
      no leading zero. */
  function Decimal(n: nat): (s: string)
    ensures 0 < |s|
    ensures AllDigits(s)
    ensures s[0] == '0' ==> n == 0
    decreases n
  {
    if n < 10 then [DigitChar(n)] else Decimal(n / 10) + [DigitChar(n % 10)]
  }

  /** A digit string in the form `str()` prints: non-empty, and starting
      with '0' only when it is the single digit "0". */
  predicate Canonical(s: string) {
    0 < |s| && AllDigits(s) && (s[0] == '0' ==> |s| == 1)
  }

  /** `str(n)` starts with '0' only for 0 itself, which is the single digit "0". */
  lemma DecimalIsCanonical(n: nat)
    ensures Canonical(Decimal(n))
  {
    if Decimal(n)[0] == '0' {
      assert n == 0;
    }
  }

  /** Reads a string of decimal digits back as a number (`int(s)`). */
  function ParseDecimal(s: string): (n: nat)
    requires AllDigits(s)
    decreases |s|
  {
    if |s| == 0 then 0 else 10 * ParseDecimal(s[..|s| - 1]) + DigitValue(s[|s| - 1])
  }

  /** Parsing undoes rendering. */
  lemma {:induction false} DecimalRoundTrip(n: nat)
    ensures ParseDecimal(Decimal(n)) == n
    decreases n
  {
    var s := Decimal(n);
    if n < 10 {
      assert s == [DigitChar(n)];
      assert s[..0] == [];
    } else {
      DecimalRoundTrip(n / 10);
      assert s[..|s| - 1] == Decimal(n / 10);
    }
  }

  /** Distinct numbers render to distinct strings. */
  lemma DecimalInjective(m: nat, n: nat)
    requires Decimal(m) == Decimal(n)
    ensures m == n
  {
    DecimalRoundTrip(m);
    DecimalRoundTrip(n);
  }

  /** A digit string that starts with a non-zero digit reads as a positive number. */
  lemma {:induction false} LeadingDigitPositive(s: string)
    requires 0 < |s| && AllDigits(s) && s[0] != '0'
    ensures ParseDecimal(s) >= 1
    decreases |s|
  {
    if |s| == 1 {
      assert s[..0] == [];
    } else {
      var init := s[..|s| - 1];
      assert init[0] == s[0];
      LeadingDigitPositive(init);
    }
  }

  /** `str()` is the only canonical form: a canonical digit string is the
      decimal form of the number it reads as. */
  lemma {:induction false} CanonicalIsDecimal(s: string)
    requires Canonical(s)
    ensures s == Decimal(ParseDecimal(s))
    decreases |s|
  {
    var n := ParseDecimal(s);
    if |s| == 1 {
      assert s[..0] == [] && ParseDecimal(s[..0]) == 0;
      assert n == DigitValue(s[0]) && s == [s[0]];
    } else {
      var init := s[..|s| - 1];
      assert init[0] == s[0];
      LeadingDigitPositive(init);
      CanonicalIsDecimal(init);
      assert n / 10 == ParseDecimal(init) && n % 10 == DigitValue(s[|s| - 1]);
      assert s == init + [s[|s| - 1]];
    }
  }

  /** The decimal form of `n` with at least two digits, as `%02d` prints it. */
  function TwoDigits(n: nat): (s: string)
    requires n < 100
    ensures |s| == 2
    ensures AllDigits(s)
    ensures ParseDecimal(s) == n
  {
    var s := [DigitChar(n / 10), DigitChar(n % 10)];
    assert s[..1] == [DigitChar(n / 10)];
    assert s[..1][..0] == [];
    assert ParseDecimal(s[..1]) == n / 10;
    s
  }

  function LowerChar(c: char): (r: char)
    ensures 'A' <= c <= 'Z' ==> r as int == c as int + 32
    ensures !('A' <= c <= 'Z') ==> r == c
  {
    if 'A' <= c <= 'Z' then (c as int + 32) as char else c
  }

  /** `s.lower()` restricted to ASCII letters. */
  function Lower(s: string): (r: string)
    ensures |r| == |s|
    ensures forall i :: 0 <= i < |s| ==> r[i] == LowerChar(s[i])
  {
    seq(|s|, i requires 0 <= i < |s| => LowerChar(s[i]))
  }

  /** `p` occurs in `s` at position `i`. */
  predicate OccursAt(p: string, s: string, i: int) {
    0 <= i && i + |p| <= |s| && s[i..i + |p|] == p
  }

  /** Python's `p in s` for strings, computed by scanning left to right. */
  function Contains(s: string, p: string): (r: bool)
    ensures r <==> exists i :: OccursAt(p, s, i)
    decreases |s|
  {
    if |p| <= |s| && s[..|p|] == p then
      assert OccursAt(p, s, 0);
      true
    else if |s| == 0 then
      assert forall i :: !OccursAt(p, s, i);
      false
    else
      var rest := Contains(s[1..], p);
      ShiftOccurrence(p, s);
      rest
  }

  /** An occurrence in `s` not at its head is an occurrence in `s[1..]`, and back. */
  lemma ShiftOccurrence(p: string, s: string)
    requires 0 < |s|
    requires !(|p| <= |s| && s[..|p|] == p)
    ensures (exists i :: OccursAt(p, s, i)) <==> (exists i :: OccursAt(p, s[1..], i))
  {
    if exists i :: OccursAt(p, s, i) {
      var i :| OccursAt(p, s, i);
      assert i != 0;
      assert s[1..][i - 1..i - 1 + |p|] == s[i..i + |p|];
      assert OccursAt(p, s[1..], i - 1);
    }
    if exists i :: OccursAt(p, s[1..], i) {
      var i :| OccursAt(p, s[1..], i);
      assert s[i + 1..i + 1 + |p|] == s[1..][i..i + |p|];
      assert OccursAt(p, s, i + 1);
    }
  }

  /** If `x + [sep] + y == x' + [sep] + y'` and `sep` occurs in neither `x`
      nor `x'`, the split is the same on both sides. Labels built as
      "field, separator, field" can therefore be read back. */
  lemma SplitAtSeparator(sep: char, x: string, y: string, x': string, y': string)
    requires sep !in x && sep !in x'
    requires x + [sep] + y == x' + [sep] + y'
    ensures x == x' && y == y'
  {
    var s := x + [sep] + y;
    assert s[|x|] == sep && s[|x'|] == sep;
    assert forall i :: 0 <= i < |x| ==> s[i] == x[i] != sep;
    assert forall i :: 0 <= i < |x'| ==> s[i] == x'[i] != sep;
    assert x == s[..|x|] == x';
    assert y == s[|x| + 1..] == y';
  }
}
