/**
 Decimal numerals: the text the calculator builds on its display while the
 user types an operand, and the reading of a display string back into a
 number (the role `parseFloat` plays in the component).
 */
module Numerals {

  /** The value of one decimal digit key. */
  type Digit = d: nat | d <= 9

  predicate IsDigit(c: char) {
    '0' <= c <= '9'
  }

  predicate AllDigits(s: string) {
    forall i :: 0 <= i < |s| ==> IsDigit(s[i])
  }

  /** The character `String(d)` produces for a one-digit number. */
  function DigitChar(d: Digit): (c: char)
    ensures IsDigit(c)
    ensures c as int - '0' as int == d
  {
    (d + '0' as int) as char
  }

  /** The value of a digit character; any other character counts as 0. */
  function DigitValue(c: char): (d: Digit)
    ensures IsDigit(c) ==> DigitChar(d) == c
  {
    if IsDigit(c) then c as int - '0' as int else 0
  }

  function Pow10(n: nat): (p: nat)
    ensures p >= 1
  {
    if n == 0 then 1 else 10 * Pow10(n - 1)
  }

  /** Length of the longest prefix of `s` made only of digits. */
  function DigitRun(s: string): (k: nat)
    ensures k <= |s|
    ensures k < |s| ==> !IsDigit(s[k])
  {
    if |s| > 0 && IsDigit(s[0]) then 1 + DigitRun(s[1..]) else 0
  }

  lemma {:induction false} DigitRunPrefix(s: string)
    ensures AllDigits(s[..DigitRun(s)])
  {
    if |s| > 0 && IsDigit(s[0]) {
      DigitRunPrefix(s[1..]);
      assert s[..DigitRun(s)] == [s[0]] + s[1..][..DigitRun(s[1..])];
    }
  }

  /** The whole number a run of digits denotes, most significant digit first. */
  function DigitsValue(s: string): nat {
    if s == [] then 0 else 10 * DigitsValue(s[..|s| - 1]) + DigitValue(s[|s| - 1])
  }

  /** The value of the digits written after a decimal point: "25" is 0.25. */
  function FractionValue(s: string): real {
    if s == [] then 0.0 else (DigitValue(s[0]) as real + FractionValue(s[1..])) / 10.0
  }

  /** Digits after a point never add up to a whole unit. */
  lemma {:induction false} FractionBelowOne(s: string)
    ensures 0.0 <= FractionValue(s) < 1.0
  {
    if s != [] {
      FractionBelowOne(s[1..]);
    }
  }

  /** The number read from a string without sign: the longest run of digits,
      and, when a point follows it, the longest run of digits after the point.
      A string with no digit at all reads as 0. The fraction never reaches
      the next whole number, so the leading digits are the whole part. */
  function Magnitude(s: string): (m: real)
    ensures DigitsValue(s[..DigitRun(s)]) as real <= m < DigitsValue(s[..DigitRun(s)]) as real + 1.0
  {
    var k := DigitRun(s);
    var whole := DigitsValue(s[..k]) as real;
    if k < |s| && s[k] == '.' then
      var f := s[k + 1..];
      FractionBelowOne(f[..DigitRun(f)]);
      whole + FractionValue(f[..DigitRun(f)])
    else
      whole
  }

  /** The number `parseFloat` reads from the display: an optional minus sign,
      then the magnitude. Without the sign the number lies between the
      value of the leading digits and the next whole number; with it, it is
      the negation of such a number. */
  function Parse(s: string): (r: real)
    ensures (|s| == 0 || s[0] != '-') ==>
      DigitsValue(s[..DigitRun(s)]) as real <= r < DigitsValue(s[..DigitRun(s)]) as real + 1.0
    ensures |s| > 0 && s[0] == '-' ==>
      var w := DigitsValue(s[1..][..DigitRun(s[1..])]) as real;
      -(w + 1.0) < r <= -w
  {
    if |s| > 0 && s[0] == '-' then -Magnitude(s[1..]) else Magnitude(s)
  }

  /** An operand as it is typed: a run of digits with no redundant leading
      zero, optionally followed by one point and more digits ("0", "12",
      "0.", "3.25"). */
  predicate IsEntryText(s: string) {
    var k := DigitRun(s);
    && 1 <= k
    && (k == |s| || (s[k] == '.' && AllDigits(s[k + 1..])))
    && (s[0] == '0' ==> k == 1)
  }

  /** The digits of `s` after its leading zeros are dropped. */
  function Significant(s: string): (r: string)
    ensures |r| <= |s|
    ensures r == s[|s| - |r|..]
    ensures r == [] || r[0] != '0'
  {
    if s == [] || s[0] != '0' then s else Significant(s[1..])
  }

  // Reading typed text back

  /** The run of digits ends exactly where a digit string is followed by
      something that is not a digit. */
  lemma {:induction false} DigitRunStopsAt(w: string, rest: string)
    requires AllDigits(w)
    requires rest == [] || !IsDigit(rest[0])
    ensures DigitRun(w + rest) == |w|
  {
    if w != [] {
      assert (w + rest)[1..] == w[1..] + rest;
      DigitRunStopsAt(w[1..], rest);
    } else {
      assert w + rest == rest;
    }
  }

  /** A plain run of digits reads as the whole number it denotes. */
  lemma ParseDigits(w: string)
    requires AllDigits(w)
    ensures Parse(w) == DigitsValue(w) as real
  {
    DigitRunStopsAt(w, []);
    assert w + [] == w;
    assert w[..|w|] == w;
  }

  /** Digits, a point and digits read as the whole part plus the fraction. */
  lemma ParsePointed(w: string, f: string)
    requires AllDigits(w) && AllDigits(f)
    ensures Parse(w + ['.'] + f) == DigitsValue(w) as real + FractionValue(f)
  {
    var s := w + ['.'] + f;
    DigitRunStopsAt(w, ['.'] + f);
    assert s == w + (['.'] + f);
    assert s[..|w|] == w;
    assert s[|w| + 1..] == f;
    DigitRunStopsAt(f, []);
    assert f + [] == f;
    assert f[..|f|] == f;
  }

  /** Appending a digit to the fraction adds that digit at the next decimal place. */
  lemma {:induction false} FractionAppend(f: string, c: char)
    requires AllDigits(f) && IsDigit(c)
    ensures AllDigits(f + [c])
    ensures FractionValue(f + [c]) == FractionValue(f) + DigitValue(c) as real / Pow10(|f| + 1) as real
  {
    if f == [] {
      assert ([] + [c])[1..] == [];
    } else {
      assert (f + [c])[1..] == f[1..] + [c];
      FractionAppend(f[1..], c);
      var p := Pow10(|f|) as real;
      assert Pow10(|f| + 1) as real == 10.0 * p;
      var x := DigitValue(c) as real;
      assert (x / p) / 10.0 == x / (10.0 * p);
    }
  }

  /** Appending a digit to a run of digits shifts it one place left. */
  lemma DigitsAppend(w: string, c: char)
    requires AllDigits(w) && IsDigit(c)
    ensures AllDigits(w + [c])
    ensures DigitsValue(w + [c]) == 10 * DigitsValue(w) + DigitValue(c)
  {
    assert (w + [c])[..|w|] == w;
  }

  /** Where the point of an entry text sits, and that there is at most one. */
  lemma EntryTextPoint(s: string)
    requires IsEntryText(s)
    ensures '.' in s <==> DigitRun(s) < |s|
    ensures multiset(s)['.'] <= 1
  {
    var k := DigitRun(s);
    DigitRunPrefix(s);
    DigitsHaveNoPoint(s[..k]);
    if k < |s| {
      var w, f := s[..k], s[k + 1..];
      DigitsHaveNoPoint(f);
      SplitAtPoint(s, k);
      assert multiset(s) == multiset(w) + multiset(['.']) + multiset(f);
    } else {
      assert s == s[..k];
    }
  }

  lemma DigitsHaveNoPoint(w: string)
    requires AllDigits(w)
    ensures '.' !in w
    ensures multiset(w)['.'] == 0
  {
    assert '.' !in multiset(w);
  }

  /** Typing a digit after an entry text other than "0" keeps it an entry
      text; before the point the value is shifted left and the digit added,
      after the point the digit lands on the next decimal place. */
  lemma EntryAppendDigit(s: string, c: char)
    requires IsEntryText(s) && s != "0" && IsDigit(c)
    ensures IsEntryText(s + [c])
    ensures '.' !in s ==> Parse(s + [c]) == 10.0 * Parse(s) + DigitValue(c) as real
    ensures '.' in s ==>
      Parse(s + [c]) == Parse(s) + DigitValue(c) as real / Pow10(|s| - DigitRun(s)) as real
  {
    EntryTextPoint(s);
    if DigitRun(s) == |s| {
      WholeAppendDigit(s, c);
    } else {
      PointedAppendDigit(s, c);
    }
  }

  lemma WholeAppendDigit(s: string, c: char)
    requires IsEntryText(s) && s != "0" && IsDigit(c)
    requires DigitRun(s) == |s|
    ensures IsEntryText(s + [c])
    ensures Parse(s + [c]) == 10.0 * Parse(s) + DigitValue(c) as real
  {
    DigitRunPrefix(s);
    assert s[..|s|] == s;
    DigitsAppend(s, c);
    DigitRunStopsAt(s + [c], []);
    assert s + [c] + [] == s + [c];
    ParseDigits(s);
    ParseDigits(s + [c]);
  }

  lemma PointedAppendDigit(s: string, c: char)
    requires IsEntryText(s) && IsDigit(c)
    requires DigitRun(s) < |s|
    ensures IsEntryText(s + [c])
    ensures Parse(s + [c]) == Parse(s) + DigitValue(c) as real / Pow10(|s| - DigitRun(s)) as real
  {
    PointedAppendShape(s, c);
    PointedAppendValue(s, c);
  }

  lemma PointedAppendShape(s: string, c: char)
    requires IsEntryText(s) && IsDigit(c)
    requires DigitRun(s) < |s|
    ensures IsEntryText(s + [c])
  {
    var k := DigitRun(s);
    var u := s + [c];
    assert 1 <= k && s[k] == '.' && AllDigits(s[k + 1..]) && (s[0] == '0' ==> k == 1);
    assert DigitRun(u) == k by { DigitRunExtend(s, c); }
    assert u[k] == '.' && (u[0] == '0' ==> k == 1) by { assert u[0] == s[0] && u[k] == s[k]; }
    assert AllDigits(u[k + 1..]) by {
      DigitsAppend(s[k + 1..], c);
      assert u[k + 1..] == s[k + 1..] + [c];
    }
    PointedEntryText(u, k);
  }

  /** A digit run, a point and more digits, with no redundant leading zero,
      is an entry text. */
  lemma PointedEntryText(u: string, k: nat)
    requires DigitRun(u) == k && 1 <= k < |u| && u[k] == '.' && AllDigits(u[k + 1..])
    requires u[0] == '0' ==> k == 1
    ensures IsEntryText(u)
  {
  }

  /** Appending to a string does not move the end of its leading digit run
      when that run stops before the end. */
  lemma {:induction false} DigitRunExtend(s: string, c: char)
    requires DigitRun(s) < |s|
    ensures DigitRun(s + [c]) == DigitRun(s)
  {
    if IsDigit(s[0]) {
      assert (s + [c])[1..] == s[1..] + [c];
      DigitRunExtend(s[1..], c);
    }
  }

  lemma PointedAppendValue(s: string, c: char)
    requires IsDigit(c)
    requires DigitRun(s) < |s| && s[DigitRun(s)] == '.' && AllDigits(s[DigitRun(s) + 1..])
    ensures Parse(s + [c]) == Parse(s) + DigitValue(c) as real / Pow10(|s| - DigitRun(s)) as real
  {
    var k := DigitRun(s);
    var w, f := s[..k], s[k + 1..];
    var x := DigitValue(c) as real;
    DigitRunPrefix(s);
    SplitAtPoint(s, k);
    var t := w + ['.'] + f;
    assert s == t;
    assert |s| - k == |f| + 1;
    PointedValue(w, f, c);
    assert Parse(t + [c]) == Parse(t) + x / Pow10(|f| + 1) as real;
  }

  /** A string cut around its point is the part before, the point and the part after. */
  lemma SplitAtPoint(s: string, k: nat)
    requires k < |s| && s[k] == '.'
    ensures s == s[..k] + ['.'] + s[k + 1..]
  {
    assert s == s[..k] + s[k..];
    assert s[k..] == ['.'] + s[k + 1..];
  }

  lemma PointedValue(w: string, f: string, c: char)
    requires AllDigits(w) && AllDigits(f) && IsDigit(c)
    ensures Parse(w + ['.'] + f + [c]) == Parse(w + ['.'] + f) + DigitValue(c) as real / Pow10(|f| + 1) as real
  {
    FractionAppend(f, c);
    assert w + ['.'] + f + [c] == w + ['.'] + (f + [c]);
    ParsePointed(w, f);
    ParsePointed(w, f + [c]);
  }

  /** Typing a point after an entry text without one keeps it an entry text
      and does not change the number it denotes. */
  lemma EntryAppendPoint(s: string)
    requires IsEntryText(s) && '.' !in s
    ensures IsEntryText(s + ".")
    ensures Parse(s + ".") == Parse(s)
  {
    EntryTextPoint(s);
    DigitRunPrefix(s);
    assert s[..|s|] == s;
    DigitRunStopsAt(s, ".");
    assert (s + ".")[|s| + 1..] == [];
    ParseDigits(s);
    assert s + "." == s + ['.'] + [];
    ParsePointed(s, []);
  }

  /** Dropping the last character of an entry text longer than one character
      leaves an entry text. */
  lemma EntryDropLast(s: string)
    requires IsEntryText(s) && |s| > 1
    ensures IsEntryText(s[..|s| - 1])
  {
    var k := DigitRun(s);
    var t := s[..|s| - 1];
    assert t[0] == s[0];
    DigitRunPrefix(s);
    if k == |s| {
      assert s[..k] == s;
      AllDigitsSlice(s, 0, |s| - 1);
      assert s[0..|s| - 1] == t;
      DigitRunStopsAt(t, []);
      assert t + [] == t;
    } else if k == |s| - 1 {
      assert t == s[..k];
      DigitRunStopsAt(t, []);
      assert t + [] == t;
    } else {
      var w, f := s[..k], s[k + 1..|s| - 1];
      AllDigitsSlice(s[k + 1..], 0, |s| - k - 2);
      assert s[k + 1..][0..|s| - k - 2] == f;
      assert t == w + (['.'] + f);
      DigitRunStopsAt(w, ['.'] + f);
      assert t[k] == '.';
      assert t[k + 1..] == f;
    }
  }

  /** Every slice of a digit string is a digit string. */
  lemma AllDigitsSlice(w: string, i: nat, j: nat)
    requires AllDigits(w) && i <= j <= |w|
    ensures AllDigits(w[i..j])
  {
    forall n | 0 <= n < j - i
      ensures IsDigit(w[i..j][n])
    {
      assert w[i..j][n] == w[i + n];
    }
  }
}
