/**
 Properties of operand entry: the digit, decimal-point, backspace and clear
 presses that build the display text.
 */
module EntryProperties {
  import opened Numerals
  import opened Calculator

  /** The presses that edit the operand being typed. */
  predicate IsEntryEvent(e: Event) {
    e.Number? || e.Decimal? || e.Backspace? || e.Clear?
  }

  /** The presses for a string of digit characters, in order. */
  function DigitPresses(ds: string): (es: seq<Event>)
    ensures |es| == |ds|
    ensures forall i :: 0 <= i < |ds| ==> es[i] == Number(DigitValue(ds[i]))
  {
    if ds == [] then [] else DigitPresses(ds[..|ds| - 1]) + [Number(DigitValue(ds[|ds| - 1]))]
  }

  lemma SingleDigitIsEntryText(c: char)
    requires IsDigit(c)
    ensures IsEntryText([c])
  {
    DigitRunStopsAt([c], []);
    assert [c] + [] == [c];
  }

  /** One entry press keeps the display an entry text. */
  lemma EntryStep(render: real -> string, s: State, e: Event)
    requires IsEntryText(s.display) && IsEntryEvent(e)
    ensures IsEntryText(Step(render, s, e).display)
  {
    match e
    case Number(d) =>
      SingleDigitIsEntryText(DigitChar(d));
      if !(s.hasError || s.waitingForNewValue || s.display == "0") {
        EntryAppendDigit(s.display, DigitChar(d));
      }
    case Decimal =>
      SingleDigitIsEntryText('0');
      EntryAppendPoint("0");
      if !(s.hasError || s.waitingForNewValue) && '.' !in s.display {
        EntryAppendPoint(s.display);
      }
    case Backspace =>
      SingleDigitIsEntryText('0');
      if !s.hasError && |s.display| > 1 {
        EntryDropLast(s.display);
      }
    case Clear =>
      SingleDigitIsEntryText('0');
  }

  /** Digit, decimal-point, backspace and clear presses keep the display a
      well-formed operand, which holds at most one decimal point. */
  lemma {:induction false} EntryRunKeepsEntryText(render: real -> string, s: State, es: seq<Event>)
    requires IsEntryText(s.display)
    requires forall i :: 0 <= i < |es| ==> IsEntryEvent(es[i])
    ensures IsEntryText(Run(render, s, es).display)
    ensures multiset(Run(render, s, es).display)['.'] <= 1
    decreases |es|
  {
    if es == [] {
      EntryTextPoint(s.display);
    } else {
      EntryStep(render, s, es[0]);
      EntryRunKeepsEntryText(render, Step(render, s, es[0]), es[1..]);
    }
  }

  /** From the initial state, entry presses alone never produce a second
      decimal point. */
  lemma EntryFromInitial(render: real -> string, es: seq<Event>)
    requires forall i :: 0 <= i < |es| ==> IsEntryEvent(es[i])
    ensures IsEntryText(Run(render, Initial, es).display)
    ensures multiset(Run(render, Initial, es).display)['.'] <= 1
  {
    SingleDigitIsEntryText('0');
    EntryRunKeepsEntryText(render, Initial, es);
  }

  /** Pressing the decimal point twice leaves the same display as pressing it
      once. The whole state is the same exactly when the first press did not
      leave the error state with a new operand still pending. */
  lemma DecimalTwiceLikeOnce(s: State)
    ensures HandleDecimal(HandleDecimal(s)).display == HandleDecimal(s).display
    ensures HandleDecimal(HandleDecimal(s)) == HandleDecimal(s) <==> !(s.hasError && s.waitingForNewValue)
  {
  }

  lemma {:induction false} SignificantAppend(ds: string, c: char)
    ensures Significant(ds + [c]) ==
      if Significant(ds) == [] then (if c == '0' then [] else [c]) else Significant(ds) + [c]
  {
    if ds == [] {
      assert ds + [c] == [c];
      assert [c][1..] == [];
    } else if ds[0] == '0' {
      assert (ds + [c])[1..] == ds[1..] + [c];
      SignificantAppend(ds[1..], c);
    } else {
      assert (ds + [c])[0] == ds[0];
    }
  }

  /** The text typing the digits `ds` into a fresh operand shows: the digits
      with leading zeros dropped, or "0" when nothing else is left. */
  function TypedText(ds: string): string {
    if Significant(ds) == [] then "0" else Significant(ds)
  }

  /** What typing the digits `ds` into a fresh operand leaves behind. */
  ghost predicate TypedState(s: State, t: State, ds: string)
    requires AllDigits(ds)
  {
    && t.display == TypedText(ds)
    && Parse(t.display) == DigitsValue(ds) as real
    && !t.waitingForNewValue && !t.hasError
    && t.previousValue == s.previousValue && t.operation == s.operation
  }

  /** One more digit typed after the digits `ds`. */
  lemma TypeOneMore(s: State, t: State, ds: string, c: char)
    requires AllDigits(ds) && IsDigit(c) && TypedState(s, t, ds)
    ensures AllDigits(ds + [c]) && TypedState(s, HandleNumber(t, DigitValue(c)), ds + [c])
  {
    DigitsAppend(ds, c);
    if t.display == "0" {
      ParseZero();
      TypeAfterZero(s, t, ds, c);
    } else {
      TypeAfterDigits(s, t, ds, c);
    }
  }

  lemma TypeAfterZero(s: State, t: State, ds: string, c: char)
    requires AllDigits(ds) && IsDigit(c) && TypedState(s, t, ds) && t.display == "0"
    requires DigitsValue(ds) == 0
    requires AllDigits(ds + [c])
    ensures TypedState(s, HandleNumber(t, DigitValue(c)), ds + [c])
  {
    assert Significant(ds) == [] by {
      assert Significant(ds) != "0";
    }
    assert TypedText(ds + [c]) == [c] || (c == '0' && TypedText(ds + [c]) == "0") by {
      SignificantAppend(ds, c);
    }
    ZeroValueThenDigit(ds, c);
    ParseSingleDigit(c);
  }

  lemma ParseZero()
    ensures Parse("0") == 0.0
  {
    ParseSingleDigit('0');
  }

  lemma ParseSingleDigit(c: char)
    requires IsDigit(c)
    ensures Parse([c]) == DigitValue(c) as real
  {
    ParseDigits([c]);
    DigitsAppend([], c);
    assert [] + [c] == [c];
  }

  lemma ZeroValueThenDigit(ds: string, c: char)
    requires AllDigits(ds) && IsDigit(c) && DigitsValue(ds) == 0
    ensures AllDigits(ds + [c]) && DigitsValue(ds + [c]) == DigitValue(c)
  {
    DigitsAppend(ds, c);
  }

  lemma TypeAfterDigits(s: State, t: State, ds: string, c: char)
    requires AllDigits(ds) && IsDigit(c) && TypedState(s, t, ds) && t.display != "0"
    requires AllDigits(ds + [c])
    ensures TypedState(s, HandleNumber(t, DigitValue(c)), ds + [c])
  {
    var sig := Significant(ds);
    var u := HandleNumber(t, DigitValue(c));
    assert t.display == sig;
    assert u.display == sig + [c];
    assert TypedText(ds + [c]) == sig + [c] by {
      SignificantAppend(ds, c);
    }
    assert Parse(sig + [c]) == DigitsValue(ds + [c]) as real by {
      assert AllDigits(sig);
      ParseDigits(sig);
      DigitsAppend(sig, c);
      ParseDigits(sig + [c]);
      DigitsAppend(ds, c);
    }
  }

  /** The first digit typed while a new operand is awaited. */
  lemma TypeFirst(s: State, c: char)
    requires IsDigit(c) && !s.hasError && s.waitingForNewValue
    ensures TypedState(s, HandleNumber(s, DigitValue(c)), [c])
  {
    FirstDigitShown(s, c);
    OneDigitText(c);
    ParseSingleDigit(c);
    OneDigitValue(c);
  }

  lemma FirstDigitShown(s: State, c: char)
    requires IsDigit(c) && !s.hasError && s.waitingForNewValue
    ensures HandleNumber(s, DigitValue(c)) == s.(display := [c], waitingForNewValue := false)
  {
  }

  lemma OneDigitText(c: char)
    requires IsDigit(c)
    ensures TypedText([c]) == [c]
  {
    SignificantAppend([], c);
    assert [] + [c] == [c];
  }

  lemma OneDigitValue(c: char)
    requires IsDigit(c)
    ensures DigitsValue([c]) == DigitValue(c)
  {
    DigitsAppend([], c);
    assert [] + [c] == [c];
  }

  /** Typing digits from a fresh operand (a display of "0", or any display
      while a new operand is awaited) shows the digits with leading zeros
      dropped, "0" if nothing else is left, and the display reads back as the
      number the digits denote. */
  lemma {:induction false} TypedDigits(render: real -> string, s: State, ds: string)
    requires AllDigits(ds) && !s.hasError
    requires (s.waitingForNewValue && |ds| >= 1) || (!s.waitingForNewValue && s.display == "0")
    ensures TypedState(s, Run(render, s, DigitPresses(ds)), ds)
  {
    if ds == [] {
      TypedNothing(render, s);
    } else {
      var ds', c := ds[..|ds| - 1], ds[|ds| - 1];
      assert ds == ds' + [c];
      if ds' == [] && s.waitingForNewValue {
        TypedFirstOfMany(render, s, c);
      } else {
        TypedDigits(render, s, ds');
        TypedOneMoreRun(render, s, ds', c);
      }
    }
  }

  /** Typing one more digit runs the digit handler on the state so far. */
  lemma RunDigitsSnoc(render: real -> string, s: State, ds: string, c: char)
    requires AllDigits(ds) && IsDigit(c)
    ensures Run(render, s, DigitPresses(ds + [c]))
         == HandleNumber(Run(render, s, DigitPresses(ds)), DigitValue(c))
  {
    var d := DigitValue(c);
    assert (ds + [c])[..|ds + [c]| - 1] == ds;
    assert DigitPresses(ds + [c]) == DigitPresses(ds) + [Number(d)];
    RunAppend(render, s, DigitPresses(ds), [Number(d)]);
    RunOne(render, Run(render, s, DigitPresses(ds)), Number(d));
  }

  /** Typing no digits onto a display of "0" leaves it "0", which reads as 0. */
  lemma TypedNothing(render: real -> string, s: State)
    requires !s.hasError && !s.waitingForNewValue && s.display == "0"
    ensures TypedState(s, Run(render, s, DigitPresses([])), [])
  {
    assert Run(render, s, DigitPresses([])) == s;
    assert TypedText([]) == "0";
    ParseZero();
  }

  /** The first digit of an operand typed while a new operand is awaited. */
  lemma TypedFirstOfMany(render: real -> string, s: State, c: char)
    requires IsDigit(c) && !s.hasError && s.waitingForNewValue
    ensures TypedState(s, Run(render, s, DigitPresses([] + [c])), [] + [c])
  {
    RunDigitsSnoc(render, s, [], c);
    assert Run(render, s, DigitPresses([])) == s;
    assert [] + [c] == [c];
    TypeFirst(s, c);
  }

  /** A further digit typed after the digits `ds`, as a run of presses. */
  lemma TypedOneMoreRun(render: real -> string, s: State, ds: string, c: char)
    requires AllDigits(ds) && IsDigit(c) && TypedState(s, Run(render, s, DigitPresses(ds)), ds)
    ensures AllDigits(ds + [c]) && TypedState(s, Run(render, s, DigitPresses(ds + [c])), ds + [c])
  {
    RunDigitsSnoc(render, s, ds, c);
    TypeOneMore(s, Run(render, s, DigitPresses(ds)), ds, c);
  }

  /** Backspace right after a digit typed into the current operand undoes it. */
  lemma BackspaceUndoesDigit(s: State, d: Digit)
    requires !s.hasError && !s.waitingForNewValue && |s.display| >= 1
    ensures HandleBackspace(HandleNumber(s, d)) == s
  {
    var t := HandleNumber(s, d);
    if s.display != "0" {
      assert t.display[..|t.display| - 1] == s.display;
    }
  }

  /** Backspace right after the decimal point is added undoes it. */
  lemma BackspaceUndoesDecimal(s: State)
    requires !s.hasError && !s.waitingForNewValue && |s.display| >= 1 && '.' !in s.display
    ensures HandleBackspace(HandleDecimal(s)) == s
  {
    var t := HandleDecimal(s);
    assert t.display[..|t.display| - 1] == s.display;
  }
}
