/** Character-level helpers shared by the dialogue: Python's `str.strip()` and
    ASCII decimal digits, read and written. */
module Text {

  /** The characters Python's `str.isspace()` accepts, which are exactly the ones
      `str.strip()` removes when called with no argument. */
  predicate IsSpace(c: char) {
    c in SpaceChars
  }

  const SpaceChars: set<char> :=
    { '\t', '\n', '\U{0B}', '\U{0C}', '\r', '\U{1C}', '\U{1D}', '\U{1E}', '\U{1F}', ' ',
      '\U{85}', '\U{A0}', '\U{1680}', '\U{2000}', '\U{2001}', '\U{2002}', '\U{2003}',
      '\U{2004}', '\U{2005}', '\U{2006}', '\U{2007}', '\U{2008}', '\U{2009}', '\U{200A}',
      '\U{2028}', '\U{2029}', '\U{202F}', '\U{205F}', '\U{3000}' }

  predicate AllSpace(s: string) {
    forall i :: 0 <= i < |s| ==> IsSpace(s[i])
  }

  /** Neither end is whitespace (the empty string included). */
  predicate Trimmed(s: string) {
    |s| == 0 || (!IsSpace(s[0]) && !IsSpace(s[|s| - 1]))
  }

  /** Python's `str.strip()`: whitespace is dropped from the front, then from the
      back, until neither end is whitespace. */
  function Strip(s: string): (r: string)
    ensures Trimmed(r)
    ensures |r| <= |s|
    decreases |s|
  {
    if |s| > 0 && IsSpace(s[0]) then Strip(s[1..])
    else if |s| > 0 && IsSpace(s[|s| - 1]) then Strip(s[..|s| - 1])
    else s
  }

  /** Strip is characterised by its result: whatever trimmed text is surrounded by
      whitespace, stripping recovers exactly that text. */
  lemma {:induction false} StripRecovers(lead: string, core: string, trail: string)
    requires AllSpace(lead) && AllSpace(trail) && Trimmed(core)
    ensures Strip(lead + core + trail) == core
    decreases |lead| + |trail|, 1
  {
    if |lead| > 0 {
      StripDropsLead(lead, core, trail);
    } else if |trail| > 0 && |core| == 0 {
      StripDropsSpace(trail);
      assert lead + core + trail == trail;
    } else if |trail| > 0 {
      StripDropsTrail(core, trail);
      assert lead + core + trail == core + trail;
    } else {
      assert lead + core + trail == core;
    }
  }

  /** The case with leading whitespace: its first character goes first. */
  lemma {:induction false} StripDropsLead(lead: string, core: string, trail: string)
    requires AllSpace(lead) && AllSpace(trail) && Trimmed(core) && |lead| > 0
    ensures Strip(lead + core + trail) == core
    decreases |lead| + |trail|, 0
  {
    ConcatFront(lead, core, trail);
    assert IsSpace(lead[0]);
    assert AllSpace(lead[1..]) by {
      assert forall i :: 0 <= i < |lead| - 1 ==> lead[1..][i] == lead[i + 1];
    }
    StripRecovers(lead[1..], core, trail);
  }

  /** The case of nothing but whitespace. */
  lemma {:induction false} StripDropsSpace(trail: string)
    requires AllSpace(trail) && |trail| > 0
    ensures Strip(trail) == []
    decreases |trail|, 0
  {
    assert AllSpace(trail[1..]) by {
      assert forall i :: 0 <= i < |trail| - 1 ==> trail[1..][i] == trail[i + 1];
    }
    StripRecovers([], [], trail[1..]);
    assert [] + [] + trail[1..] == trail[1..];
  }

  /** The case of a non-empty trimmed text with trailing whitespace only. */
  lemma {:induction false} StripDropsTrail(core: string, trail: string)
    requires AllSpace(trail) && Trimmed(core) && |trail| > 0 && |core| > 0
    ensures Strip(core + trail) == core
    decreases |trail|, 0
  {
    var t := trail[..|trail| - 1];
    assert (core + trail)[0] == core[0];
    assert (core + trail)[..|core + trail| - 1] == core + t;
    assert IsSpace(trail[|trail| - 1]);
    assert AllSpace(t) by {
      assert forall i :: 0 <= i < |t| ==> t[i] == trail[i];
    }
    StripRecovers([], core, t);
    assert [] + core + t == core + t;
  }

  /** Taking the first character off a three-part concatenation. */
  lemma ConcatFront(a: string, b: string, c: string)
    requires |a| > 0
    ensures (a + b + c)[0] == a[0] && (a + b + c)[1..] == a[1..] + b + c
  {
  }

  /** Every text splits into leading whitespace, its stripped form and trailing
      whitespace. */
  lemma {:induction false} StripSplits(s: string)
    ensures exists lead, trail :: AllSpace(lead) && AllSpace(trail) && s == lead + Strip(s) + trail
    decreases |s|, 1
  {
    if |s| > 0 && IsSpace(s[0]) {
      StripSplitsFront(s);
    } else if |s| > 0 && IsSpace(s[|s| - 1]) {
      StripSplitsBack(s);
    } else {
      var none: string := [];
      assert AllSpace(none) && s == none + Strip(s) + none;
    }
  }

  /** The split when the first character is whitespace. */
  lemma {:induction false} StripSplitsFront(s: string)
    requires |s| > 0 && IsSpace(s[0])
    ensures exists lead, trail :: AllSpace(lead) && AllSpace(trail) && s == lead + Strip(s) + trail
    decreases |s|, 0
  {
    var t := s[1..];
    StripSplits(t);
    var lead, trail :| AllSpace(lead) && AllSpace(trail) && t == lead + Strip(t) + trail;
    SpacePrepend(s[0], lead);
    assert Strip(s) == Strip(t);
    RegroupFront(s, lead, Strip(t), trail);
  }

  /** The split when only the last character is whitespace. */
  lemma {:induction false} StripSplitsBack(s: string)
    requires |s| > 0 && !IsSpace(s[0]) && IsSpace(s[|s| - 1])
    ensures exists lead, trail :: AllSpace(lead) && AllSpace(trail) && s == lead + Strip(s) + trail
    decreases |s|, 0
  {
    var t := s[..|s| - 1];
    StripSplits(t);
    var lead, trail :| AllSpace(lead) && AllSpace(trail) && t == lead + Strip(t) + trail;
    SpaceAppend(trail, s[|s| - 1]);
    assert Strip(s) == Strip(t);
    RegroupBack(s, lead, Strip(t), trail);
  }

  /** Putting the first character back in front of a three-part split. */
  lemma RegroupFront(s: string, lead: string, core: string, trail: string)
    requires |s| > 0 && s[1..] == lead + core + trail
    ensures s == ([s[0]] + lead) + core + trail
  {
    assert s == [s[0]] + s[1..];
  }

  /** Putting the last character back behind a three-part split. */
  lemma RegroupBack(s: string, lead: string, core: string, trail: string)
    requires |s| > 0 && s[..|s| - 1] == lead + core + trail
    ensures s == lead + core + (trail + [s[|s| - 1]])
  {
    assert s == s[..|s| - 1] + [s[|s| - 1]];
  }

  /** Whitespace in front of whitespace is whitespace. */
  lemma SpacePrepend(c: char, s: string)
    requires IsSpace(c) && AllSpace(s)
    ensures AllSpace([c] + s)
  {
    assert forall i :: 0 < i < |s| + 1 ==> ([c] + s)[i] == s[i - 1];
  }

  /** Whitespace behind whitespace is whitespace. */
  lemma SpaceAppend(s: string, c: char)
    requires IsSpace(c) && AllSpace(s)
    ensures AllSpace(s + [c])
  {
    assert forall i :: 0 <= i < |s| ==> (s + [c])[i] == s[i];
  }

  /** Stripping twice is stripping once. */
  lemma StripIdempotent(s: string)
    ensures Strip(Strip(s)) == Strip(s)
  {
    var r := Strip(s);
    assert [] + r + [] == r;
    StripRecovers([], r, []);
  }

  predicate IsDigit(c: char) {
    '0' <= c <= '9'
  }

  predicate AllDigits(s: string) {
    forall i :: 0 <= i < |s| ==> IsDigit(s[i])
  }

  function DigitValue(c: char): (d: nat)
    requires IsDigit(c)
    ensures d < 10
  {
    (c as int) - ('0' as int)
  }

  function DigitChar(d: nat): (c: char)
    requires d < 10
    ensures IsDigit(c) && DigitValue(c) == d
  {
    (('0' as int) + d) as char
  }

  /** The number an ASCII decimal numeral denotes (Python's `int()` on it). */
  function DigitsValue(s: string): nat
    requires AllDigits(s)
  {
    if |s| == 0 then 0 else DigitsValue(s[..|s| - 1]) * 10 + DigitValue(s[|s| - 1])
  }

  /** `n` rendered with exactly two digits, a leading zero when below ten
      (`strftime`'s `%d` and `%m`). */
  function PadTwo(n: nat): (r: string)
    requires n < 100
    ensures |r| == 2 && AllDigits(r)
    ensures DigitsValue(r) == n
  {
    var r := [DigitChar(n / 10), DigitChar(n % 10)];
    assert r[..1][..0] == [];
    assert DigitsValue(r[..1]) == n / 10;
    r
  }

  /** `n` in decimal without leading zeros. */
  function Decimal(n: nat): (r: string)
    ensures |r| > 0 && AllDigits(r)
    ensures DigitsValue(r) == n
  {
    if n < 10 then [DigitChar(n)]
    else
      var r := Decimal(n / 10) + [DigitChar(n % 10)];
      assert r[..|r| - 1] == Decimal(n / 10);
      assert DigitsValue(r) == (n / 10) * 10 + n % 10;
      r
  }

  /** The value of a two-digit numeral, digit by digit. */
  lemma TwoDigitsValue(t: string)
    requires |t| == 2 && AllDigits(t)
    ensures DigitsValue(t) == 10 * DigitValue(t[0]) + DigitValue(t[1])
  {
    assert t[..1][..0] == [];
    assert DigitsValue(t[..1]) == DigitValue(t[0]);
  }

  /** The value of a four-digit numeral, digit by digit. */
  lemma FourDigitsValue(t: string)
    requires |t| == 4 && AllDigits(t)
    ensures DigitsValue(t) == 1000 * DigitValue(t[0]) + 100 * DigitValue(t[1]) + 10 * DigitValue(t[2]) + DigitValue(t[3])
  {
    assert t[..3][..2] == t[..2] && t[..2][..1] == t[..1] && t[..1][..0] == [];
    assert DigitsValue(t[..1]) == DigitValue(t[0]);
    assert DigitsValue(t[..2]) == DigitValue(t[0]) * 10 + DigitValue(t[1]);
    assert DigitsValue(t[..3]) == (DigitValue(t[0]) * 10 + DigitValue(t[1])) * 10 + DigitValue(t[2]);
  }

  /** A two-digit numeral is its own zero-padded rendering. */
  lemma PadTwoOfDigits(t: string)
    requires |t| == 2 && AllDigits(t)
    ensures DigitsValue(t) < 100
    ensures PadTwo(DigitsValue(t)) == t
  {
    TwoDigitsValue(t);
    assert DigitChar(DigitValue(t[0])) == t[0] && DigitChar(DigitValue(t[1])) == t[1];
  }

  /** A numeral that does not start with zero denotes a positive number. */
  lemma {:induction false} LeadingNonZeroPositive(t: string)
    requires |t| > 0 && AllDigits(t) && t[0] != '0'
    ensures DigitsValue(t) >= 1
    decreases |t|
  {
    if |t| > 1 {
      var p := t[..|t| - 1];
      assert p[0] == t[0];
      LeadingNonZeroPositive(p);
    }
  }

  /** A numeral without a leading zero is the decimal rendering of its value. */
  lemma {:induction false} DecimalOfDigits(t: string)
    requires |t| > 0 && AllDigits(t) && t[0] != '0'
    ensures Decimal(DigitsValue(t)) == t
    decreases |t|
  {
    if |t| == 1 {
      assert DigitChar(DigitValue(t[0])) == t[0];
      assert t[..0] == [];
    } else {
      var p := t[..|t| - 1];
      assert p[0] == t[0];
      DecimalOfDigits(p);
      LeadingNonZeroPositive(p);
      DecimalAppend(DigitsValue(p), DigitValue(t[|t| - 1]));
      assert DigitChar(DigitValue(t[|t| - 1])) == t[|t| - 1];
      assert p + [t[|t| - 1]] == t;
    }
  }

  /** A four-digit numeral of at least 1000 is the decimal rendering of its value. */
  lemma DecimalOfFourDigits(t: string)
    requires |t| == 4 && AllDigits(t)
    requires DigitsValue(t) >= 1000
    ensures Decimal(DigitsValue(t)) == t
  {
    FourDigitsValue(t);
    assert t[0] != '0';
    DecimalOfDigits(t);
  }

  /** Appending a digit to a positive number appends its character to the rendering. */
  lemma DecimalAppend(m: nat, c: nat)
    requires 1 <= m && c < 10
    ensures Decimal(m * 10 + c) == Decimal(m) + [DigitChar(c)]
  {
    assert (m * 10 + c) / 10 == m && (m * 10 + c) % 10 == c;
  }

  /** Years 1000..9999 render with exactly four digits. */
  lemma DecimalFourDigits(n: nat)
    ensures 1000 <= n <= 9999 ==> |Decimal(n)| == 4
  {
    if 1000 <= n <= 9999 {
      assert 100 <= n / 10 <= 999;
      assert 10 <= n / 10 / 10 <= 99;
      assert 1 <= n / 10 / 10 / 10 <= 9;
      assert |Decimal(n / 10 / 10 / 10)| == 1;
      assert |Decimal(n / 10 / 10)| == 2;
      assert |Decimal(n / 10)| == 3;
    }
  }
}
