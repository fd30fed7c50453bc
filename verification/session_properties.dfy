/**
 Properties of whole sessions: the pending-operation invariant, clearing,
 the error state, and left-to-right chaining of operators.
 */
module SessionProperties {
  import opened Options
  import opened Numerals
  import opened Calculator
  import opened EntryProperties

  /** A left operand is stored exactly when an operator is pending. */
  predicate Paired(s: State) {
    s.previousValue.None? <==> s.operation.None?
  }

  lemma StepKeepsPaired(render: real -> string, s: State, e: Event)
    requires Paired(s)
    ensures Paired(Step(render, s, e))
  {
  }

  /** Every handler keeps the left operand and the pending operator present
      or absent together. */
  lemma {:induction false} RunKeepsPaired(render: real -> string, s: State, es: seq<Event>)
    requires Paired(s)
    ensures Paired(Run(render, s, es))
    decreases |es|
  {
    if es != [] {
      StepKeepsPaired(render, s, es[0]);
      RunKeepsPaired(render, Step(render, s, es[0]), es[1..]);
    }
  }

  /** Every state reachable from the initial one is paired. */
  lemma ReachableIsPaired(render: real -> string, es: seq<Event>)
    ensures Paired(Run(render, Initial, es))
  {
    RunKeepsPaired(render, Initial, es);
  }

  /** Whatever happened before, a clear press leaves the calculator as if it
      had just been mounted. */
  lemma ClearForgetsHistory(render: real -> string, s: State, before: seq<Event>, after: seq<Event>)
    ensures Run(render, s, before + [Clear] + after) == Run(render, Initial, after)
  {
    RunAppend(render, s, before + [Clear], after);
    RunAppend(render, s, before, [Clear]);
    RunOne(render, Run(render, s, before), Clear);
  }

  /** The presses that compute: operators and equals. */
  predicate IsArithmeticEvent(e: Event) {
    e.Operation? || e.Equals?
  }

  /** While the error flag is up, operator and equals presses change
      nothing at all. */
  lemma {:induction false} ErrorFreezesArithmetic(render: real -> string, s: State, es: seq<Event>)
    requires s.hasError
    requires forall i :: 0 <= i < |es| ==> IsArithmeticEvent(es[i])
    ensures Run(render, s, es) == s
    decreases |es|
  {
    if es != [] {
      assert Step(render, s, es[0]) == s;
      ErrorFreezesArithmetic(render, s, es[1..]);
    }
  }

  lemma RunSnoc(render: real -> string, s: State, es: seq<Event>, e: Event)
    ensures Run(render, s, es + [e]) == Step(render, Run(render, s, es), e)
  {
    RunAppend(render, s, es, [e]);
    RunOne(render, Run(render, s, es), e);
  }

  /** Typing an operand and pressing an operator while nothing is pending
      stores the operand as the left operand. */
  lemma FirstOperand(render: real -> string, xs: string, op: Op)
    requires AllDigits(xs)
    ensures Run(render, Initial, DigitPresses(xs) + [Operation(op)]) ==
      State(TypedText(xs), Some(DigitsValue(xs) as real), Some(op), true, false)
  {
    var t := Run(render, Initial, DigitPresses(xs));
    TypedDigits(render, Initial, xs);
    assert t == State(TypedText(xs), None, None, false, false);
    assert Parse(t.display) == DigitsValue(xs) as real;
    OperatorStoresOperand(render, t, op);
    RunSnoc(render, Initial, DigitPresses(xs), Operation(op));
  }

  /** An operator pressed while nothing is pending stores the displayed
      value as the left operand. */
  lemma OperatorStoresOperand(render: real -> string, t: State, op: Op)
    requires !t.hasError && t.previousValue.None?
    ensures Step(render, t, Operation(op))
      == t.(previousValue := Some(Parse(t.display)), operation := Some(op), waitingForNewValue := true)
  {
  }

  /** Typing an operand and pressing an operator while an operation is
      pending evaluates the pending operation at once. */
  lemma ChainedOperand(render: real -> string, s: State, ys: string, op: Op)
    requires AllDigits(ys) && |ys| >= 1
    requires !s.hasError && s.waitingForNewValue && s.previousValue.Some? && s.operation.Some?
    requires Calculate(s.previousValue.value, DigitsValue(ys) as real, s.operation.value).Value?
    ensures var r := Calculate(s.previousValue.value, DigitsValue(ys) as real, s.operation.value).v;
      Run(render, s, DigitPresses(ys) + [Operation(op)]) == State(render(r), Some(r), Some(op), true, false)
  {
    var t := Run(render, s, DigitPresses(ys));
    TypedDigits(render, s, ys);
    assert t == s.(display := TypedText(ys), waitingForNewValue := false);
    assert Parse(t.display) == DigitsValue(ys) as real;
    OperatorEvaluates(render, t, op);
    RunSnoc(render, s, DigitPresses(ys), Operation(op));
  }

  /** An operator pressed while an operation is pending shows and stores
      the pending operation's result. */
  lemma OperatorEvaluates(render: real -> string, t: State, op: Op)
    requires !t.hasError && t.previousValue.Some? && t.operation.Some?
    requires Calculate(t.previousValue.value, Parse(t.display), t.operation.value).Value?
    ensures var r := Calculate(t.previousValue.value, Parse(t.display), t.operation.value).v;
      Step(render, t, Operation(op)) == State(render(r), Some(r), Some(op), true, false)
  {
  }

  /** Typing the last operand and pressing equals evaluates the pending
      operation and forgets it. */
  lemma FinalOperand(render: real -> string, s: State, zs: string)
    requires AllDigits(zs) && |zs| >= 1
    requires !s.hasError && s.waitingForNewValue && s.previousValue.Some? && s.operation.Some?
    requires Calculate(s.previousValue.value, DigitsValue(zs) as real, s.operation.value).Value?
    ensures var r := Calculate(s.previousValue.value, DigitsValue(zs) as real, s.operation.value).v;
      Run(render, s, DigitPresses(zs) + [Equals]) == State(render(r), None, None, true, false)
  {
    var t := Run(render, s, DigitPresses(zs));
    TypedDigits(render, s, zs);
    assert t == s.(display := TypedText(zs), waitingForNewValue := false);
    assert Parse(t.display) == DigitsValue(zs) as real;
    EqualsEvaluates(render, t);
    RunSnoc(render, s, DigitPresses(zs), Equals);
  }

  /** Equals pressed while an operation is pending shows its result and
      forgets it. */
  lemma EqualsEvaluates(render: real -> string, t: State)
    requires !t.hasError && t.previousValue.Some? && t.operation.Some?
    requires Calculate(t.previousValue.value, Parse(t.display), t.operation.value).Value?
    ensures var r := Calculate(t.previousValue.value, Parse(t.display), t.operation.value).v;
      Step(render, t, Equals) == State(render(r), None, None, true, false)
  {
  }

  /** Operators are applied strictly left to right, with no precedence:
      x op1 y op2 z = shows (x op1 y) op2 z. */
  lemma LeftToRight(render: real -> string, xs: string, ys: string, zs: string, op1: Op, op2: Op)
    requires AllDigits(xs) && AllDigits(ys) && AllDigits(zs) && |ys| >= 1 && |zs| >= 1
    requires Calculate(DigitsValue(xs) as real, DigitsValue(ys) as real, op1).Value?
    requires Calculate(Calculate(DigitsValue(xs) as real, DigitsValue(ys) as real, op1).v,
                       DigitsValue(zs) as real, op2).Value?
    ensures
      var r1 := Calculate(DigitsValue(xs) as real, DigitsValue(ys) as real, op1).v;
      var r2 := Calculate(r1, DigitsValue(zs) as real, op2).v;
      Run(render, Initial,
          DigitPresses(xs) + [Operation(op1)] + DigitPresses(ys) + [Operation(op2)] + DigitPresses(zs) + [Equals])
        == State(render(r2), None, None, true, false)
  {
    var x, y, z := DigitsValue(xs) as real, DigitsValue(ys) as real, DigitsValue(zs) as real;
    var r1 := Calculate(x, y, op1).v;
    var xa, ya, za := DigitPresses(xs), DigitPresses(ys), DigitPresses(zs);
    var s1 := Run(render, Initial, xa + [Operation(op1)]);
    FirstOperand(render, xs, op1);
    assert s1 == State(TypedText(xs), Some(x), Some(op1), true, false);
    var s2 := Run(render, s1, ya + [Operation(op2)]);
    ChainedOperand(render, s1, ys, op2);
    assert s2 == State(render(r1), Some(r1), Some(op2), true, false);
    FinalOperand(render, s2, zs);
    RunAppend(render, Initial, xa + [Operation(op1)], ya);
    RunSnoc(render, s1, ya, Operation(op2));
    RunSnoc(render, Initial, xa + [Operation(op1)] + ya, Operation(op2));
    RunAppend(render, Initial, xa + [Operation(op1)] + ya + [Operation(op2)], za);
    RunSnoc(render, s2, za, Equals);
    RunSnoc(render, Initial, xa + [Operation(op1)] + ya + [Operation(op2)] + za, Equals);
  }

  /** The state equals leaves behind after showing the result `r`. */
  function ShownResult(render: real -> string, r: real): (t: State)
    ensures t.display == render(r) && Paired(t) && t.previousValue.None?
    ensures t.waitingForNewValue && !t.hasError
  {
    State(render(r), None, None, true, false)
  }

  /** An operator pressed after equals continues from the shown result,
      provided the shown text reads back as that result. How `String` prints
      a number is not modelled, so the read-back is a hypothesis here. */
  lemma OperatorAfterResult(render: real -> string, r: real, op: Op)
    requires Parse(render(r)) == r
    ensures Step(render, ShownResult(render, r), Operation(op))
      == State(render(r), Some(r), Some(op), true, false)
  {
  }

  /** A second operator right after a chained result evaluates the pending
      operation against that result, read back from the display. */
  lemma OperatorAfterChainedResult(render: real -> string, r: real, op1: Op, op2: Op)
    requires Parse(render(r)) == r
    requires Calculate(r, r, op1).Value?
    ensures var q := Calculate(r, r, op1).v;
      Step(render, State(render(r), Some(r), Some(op1), true, false), Operation(op2))
        == State(render(q), Some(q), Some(op2), true, false)
  {
  }
}
