/**
 Concrete press sequences, each showing one behaviour of the calculator,
 including the quirks of the handlers as they are written.
 */
module Scenarios {
  import opened Options
  import opened Numerals
  import opened Calculator
  import opened EntryProperties
  import opened SessionProperties

  lemma RunCons(render: real -> string, s: State, e: Event, es: seq<Event>)
    ensures Run(render, s, [e] + es) == Run(render, Step(render, s, e), es)
  {
    assert ([e] + es)[0] == e;
    assert ([e] + es)[1..] == es;
  }

  /** 7 ÷ 0 = raises the error and keeps everything else as it was. */
  lemma SevenDividedByZero(render: real -> string)
    ensures Run(render, Initial, [Number(7), Operation(Div), Number(0), Equals])
      == State("0", Some(7.0), Some(Div), false, true)
  {
    var s1 := HandleNumber(Initial, 7);
    assert s1 == State("7", None, None, false, false);
    ParseSingleDigit('7');
    var s2 := HandleOperation(render, s1, Div);
    assert s2 == State("7", Some(7.0), Some(Div), true, false);
    var s3 := HandleNumber(s2, 0);
    assert s3 == State("0", Some(7.0), Some(Div), false, false);
    ParseZero();
    var s4 := HandleEquals(render, s3);
    assert s4 == State("0", Some(7.0), Some(Div), false, true);
    RunCons(render, Initial, Number(7), [Operation(Div), Number(0), Equals]);
    RunCons(render, s1, Operation(Div), [Number(0), Equals]);
    RunCons(render, s2, Number(0), [Equals]);
    RunOne(render, s3, Equals);
  }

  /** 2 + 3 × 4 = shows 20, not 14: the sum is taken when × is pressed. */
  lemma NoPrecedence(render: real -> string)
    ensures Run(render, Initial, [Number(2), Operation(Add), Number(3), Operation(Mul), Number(4), Equals])
      == State(render(20.0), None, None, true, false)
  {
    var s1 := HandleNumber(Initial, 2);
    ParseSingleDigit('2');
    var s2 := HandleOperation(render, s1, Add);
    assert s2 == State("2", Some(2.0), Some(Add), true, false);
    var s3 := HandleNumber(s2, 3);
    assert s3 == State("3", Some(2.0), Some(Add), false, false);
    ParseSingleDigit('3');
    var s4 := HandleOperation(render, s3, Mul);
    assert s4 == State(render(5.0), Some(5.0), Some(Mul), true, false);
    var s5 := HandleNumber(s4, 4);
    assert s5 == State("4", Some(5.0), Some(Mul), false, false);
    ParseSingleDigit('4');
    var s6 := HandleEquals(render, s5);
    assert s6 == State(render(20.0), None, None, true, false);
    RunCons(render, Initial, Number(2), [Operation(Add), Number(3), Operation(Mul), Number(4), Equals]);
    RunCons(render, s1, Operation(Add), [Number(3), Operation(Mul), Number(4), Equals]);
    RunCons(render, s2, Number(3), [Operation(Mul), Number(4), Equals]);
    RunCons(render, s3, Operation(Mul), [Number(4), Equals]);
    RunCons(render, s4, Number(4), [Equals]);
    RunOne(render, s5, Equals);
  }

  /** 9 + 1 = shows 10. */
  lemma NinePlusOne(render: real -> string)
    ensures Run(render, Initial, [Number(9), Operation(Add), Number(1), Equals])
      == State(render(10.0), None, None, true, false)
  {
    var s1 := HandleNumber(Initial, 9);
    ParseSingleDigit('9');
    var s2 := HandleOperation(render, s1, Add);
    assert s2 == State("9", Some(9.0), Some(Add), true, false);
    var s3 := HandleNumber(s2, 1);
    assert s3 == State("1", Some(9.0), Some(Add), false, false);
    ParseSingleDigit('1');
    RunCons(render, Initial, Number(9), [Operation(Add), Number(1), Equals]);
    RunCons(render, s1, Operation(Add), [Number(1), Equals]);
    RunCons(render, s2, Number(1), [Equals]);
    RunOne(render, s3, Equals);
  }

  /** 9 + 1 = + 2 = shows 12: the second addition starts from the shown 10,
      when "10" is how 10 is shown (or anything else that reads back as 10). */
  lemma ContinueFromResult(render: real -> string)
    requires Parse(render(10.0)) == 10.0
    ensures Run(render, Initial, [Number(9), Operation(Add), Number(1), Equals, Operation(Add), Number(2), Equals])
      == State(render(12.0), None, None, true, false)
  {
    var first := [Number(9), Operation(Add), Number(1), Equals];
    var rest := [Operation(Add), Number(2), Equals];
    NinePlusOne(render);
    var s4 := Run(render, Initial, first);
    assert s4 == ShownResult(render, 10.0);
    OperatorAfterResult(render, 10.0, Add);
    var s5 := Step(render, s4, Operation(Add));
    assert s5 == State(render(10.0), Some(10.0), Some(Add), true, false);
    var s6 := HandleNumber(s5, 2);
    assert s6 == State("2", Some(10.0), Some(Add), false, false);
    ParseSingleDigit('2');
    assert HandleEquals(render, s6) == State(render(12.0), None, None, true, false);
    RunCons(render, s4, Operation(Add), [Number(2), Equals]);
    RunCons(render, s5, Number(2), [Equals]);
    RunOne(render, s6, Equals);
    RunAppend(render, Initial, first, rest);
    assert first + rest
      == [Number(9), Operation(Add), Number(1), Equals, Operation(Add), Number(2), Equals];
  }

  /** Typing 1 . 5 into a fresh operand shows "1.5", which reads as 1.5;
      likewise for 2 . 5. */
  lemma TypePointFive(render: real -> string, s: State, d: Digit)
    requires !s.hasError && (s.waitingForNewValue || s.display == "0")
    requires d == 1 || d == 2
    ensures var t := Run(render, s, [Number(d), Decimal, Number(5)]);
      && t == s.(display := [DigitChar(d), '.', '5'], waitingForNewValue := false)
      && Parse(t.display) == d as real + 0.5
  {
    var s1 := HandleNumber(s, d);
    var s2 := HandleDecimal(s1);
    var s3 := HandleNumber(s2, 5);
    assert s3.display == [DigitChar(d), '.', '5'];
    ParsePointed([DigitChar(d)], "5");
    assert [DigitChar(d)] + ['.'] + "5" == [DigitChar(d), '.', '5'];
    RunCons(render, s, Number(d), [Decimal, Number(5)]);
    RunCons(render, s1, Decimal, [Number(5)]);
    RunOne(render, s2, Number(5));
  }

  /** 1 . 5 + stores 1.5 and leaves "1.5" on the display. */
  lemma OnePointFivePlus(render: real -> string)
    ensures Run(render, Initial, [Number(1), Decimal, Number(5), Operation(Add)])
      == State("1.5", Some(1.5), Some(Add), true, false)
  {
    TypePointFive(render, Initial, 1);
    var s3 := Run(render, Initial, [Number(1), Decimal, Number(5)]);
    assert s3 == State("1.5", None, None, false, false);
    RunSnoc(render, Initial, [Number(1), Decimal, Number(5)], Operation(Add));
    assert [Number(1), Decimal, Number(5)] + [Operation(Add)]
      == [Number(1), Decimal, Number(5), Operation(Add)];
  }

  /** With 1.5 + pending, 2 . 5 = shows 4. */
  lemma TwoPointFiveEquals(render: real -> string, s: State)
    requires s == State("1.5", Some(1.5), Some(Add), true, false)
    ensures Run(render, s, [Number(2), Decimal, Number(5), Equals])
      == State(render(4.0), None, None, true, false)
  {
    TypePointFive(render, s, 2);
    var s7 := Run(render, s, [Number(2), Decimal, Number(5)]);
    assert s7 == State("2.5", Some(1.5), Some(Add), false, false);
    RunSnoc(render, s, [Number(2), Decimal, Number(5)], Equals);
    assert [Number(2), Decimal, Number(5)] + [Equals]
      == [Number(2), Decimal, Number(5), Equals];
  }

  /** 1.5 + 2.5 = shows 4. */
  lemma DecimalOperands(render: real -> string)
    ensures Run(render, Initial,
                [Number(1), Decimal, Number(5), Operation(Add), Number(2), Decimal, Number(5), Equals])
      == State(render(4.0), None, None, true, false)
  {
    var first := [Number(1), Decimal, Number(5), Operation(Add)];
    var second := [Number(2), Decimal, Number(5), Equals];
    OnePointFivePlus(render);
    TwoPointFiveEquals(render, Run(render, Initial, first));
    RunAppend(render, Initial, first, second);
    assert first + second
      == [Number(1), Decimal, Number(5), Operation(Add), Number(2), Decimal, Number(5), Equals];
  }

  /** Two operators in a row: 2 + + evaluates the pending addition against
      the operand still on the display, giving 4. */
  lemma RepeatedOperator(render: real -> string)
    ensures Run(render, Initial, [Number(2), Operation(Add), Operation(Add)])
      == State(render(4.0), Some(4.0), Some(Add), true, false)
  {
    var s1 := HandleNumber(Initial, 2);
    ParseSingleDigit('2');
    var s2 := HandleOperation(render, s1, Add);
    assert s2 == State("2", Some(2.0), Some(Add), true, false);
    var s3 := HandleOperation(render, s2, Add);
    RunCons(render, Initial, Number(2), [Operation(Add), Operation(Add)]);
    RunCons(render, s1, Operation(Add), [Operation(Add)]);
    RunOne(render, s2, Operation(Add));
  }

  /** A division by zero while chaining (8 ÷ 0 +) raises the error, yet still
      records the new operator and waits for a new operand. */
  lemma DivideByZeroWhileChaining(render: real -> string)
    ensures Run(render, Initial, [Number(8), Operation(Div), Number(0), Operation(Add)])
      == State("0", Some(8.0), Some(Add), true, true)
  {
    var s1 := HandleNumber(Initial, 8);
    ParseSingleDigit('8');
    var s2 := HandleOperation(render, s1, Div);
    assert s2 == State("8", Some(8.0), Some(Div), true, false);
    var s3 := HandleNumber(s2, 0);
    assert s3 == State("0", Some(8.0), Some(Div), false, false);
    ParseZero();
    var s4 := HandleOperation(render, s3, Add);
    RunCons(render, Initial, Number(8), [Operation(Div), Number(0), Operation(Add)]);
    RunCons(render, s1, Operation(Div), [Number(0), Operation(Add)]);
    RunCons(render, s2, Number(0), [Operation(Add)]);
    RunOne(render, s3, Operation(Add));
  }

  /** After that error, the digits 5 and 6 show "6", not "56": the first
      digit only clears the error, the second still starts a new operand. */
  lemma DigitsAfterChainedError(render: real -> string)
    ensures Run(render, Initial, [Number(8), Operation(Div), Number(0), Operation(Add), Number(5), Number(6)])
      == State("6", Some(8.0), Some(Add), false, false)
  {
    var s4 := State("0", Some(8.0), Some(Add), true, true);
    DivideByZeroWhileChaining(render);
    var s5 := HandleNumber(s4, 5);
    assert s5 == State("5", Some(8.0), Some(Add), true, false);
    var s6 := HandleNumber(s5, 6);
    RunAppend(render, Initial, [Number(8), Operation(Div), Number(0), Operation(Add)], [Number(5), Number(6)]);
    assert [Number(8), Operation(Div), Number(0), Operation(Add)] + [Number(5), Number(6)]
      == [Number(8), Operation(Div), Number(0), Operation(Add), Number(5), Number(6)];
    RunCons(render, s4, Number(5), [Number(6)]);
    RunOne(render, s5, Number(6));
  }

  /** Pressing 5 then 0 from the start shows "50"; 0 then 7 shows "7". */
  lemma TypedNumbers(render: real -> string)
    ensures Run(render, Initial, [Number(5), Number(0)]).display == "50"
    ensures Run(render, Initial, [Number(0), Number(7)]).display == "7"
  {
    RunCons(render, Initial, Number(5), [Number(0)]);
    RunOne(render, HandleNumber(Initial, 5), Number(0));
    RunCons(render, Initial, Number(0), [Number(7)]);
    RunOne(render, HandleNumber(Initial, 0), Number(7));
  }

  /** Backspace on "12" shows "1", on "1" shows "0", and in the error state
      shows "0" with the error still raised. */
  lemma BackspaceExamples(s: State)
    ensures HandleBackspace(s.(display := "12", hasError := false)).display == "1"
    ensures HandleBackspace(s.(display := "1")).display == "0"
    ensures s.hasError ==> HandleBackspace(s) == s.(display := "0")
  {
  }
}
