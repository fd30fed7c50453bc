/**
 The calculator's input state machine. The component keeps five pieces of
 state and changes them through six handlers; here the state is one
 immutable record and each handler is a pure transition on it.

 Turning a computed number into display text (`String(result)`) is the
 parameter `render` of the handlers that show a result; reading the display
 back into a number is `Numerals.Parse`.
 */
module Calculator {
  import opened Options
  import opened Numerals

  /** The four operator keys: +, -, × and ÷. */
  datatype Op = Add | Sub | Mul | Div

  /** What `calculate` produces: a number, or the divide-by-zero failure
      (the source's `null` return after it raises the error flag). */
  datatype Outcome = Value(v: real) | DivideByZero

  datatype State = State(
    display: string,
    previousValue: Option<real>,
    operation: Option<Op>,
    waitingForNewValue: bool,
    hasError: bool)

  /** One press: a button, or a key the keyboard handler recognises. */
  datatype Event =
    | Number(d: Digit)
    | Decimal
    | Operation(op: Op)
    | Equals
    | Clear
    | Backspace

  /** The state the component mounts with. */
  const Initial := State("0", None, None, false, false)

  /** Applies `op` to `a` and `b`. Each successful result is characterised by
      the inverse operation: subtracting `b` from a sum, adding it back to a
      difference, dividing it out of a product, multiplying it into a quotient
      gives `a` again. */
  function Calculate(a: real, b: real, op: Op): (r: Outcome)
    ensures r.DivideByZero? <==> op == Div && b == 0.0
    ensures r.Value? && op == Add ==> r.v - b == a
    ensures r.Value? && op == Sub ==> r.v + b == a
    ensures r.Value? && op == Mul && b != 0.0 ==> r.v / b == a
    ensures r.Value? && op == Mul && b == 0.0 ==> r.v == 0.0
    ensures r.Value? && op == Div ==> r.v * b == a
  {
    match op
    case Add => Value(a + b)
    case Sub => Value(a - b)
    case Mul => DivisionUndoesProduct(a, b); Value(a * b)
    case Div => if b == 0.0 then DivideByZero else ProductUndoesDivision(a, b); Value(a / b)
  }

  lemma DivisionUndoesProduct(a: real, b: real)
    ensures b != 0.0 ==> (a * b) / b == a
  {
    if b != 0.0 {
      assert (a * b) / b == a * (b / b);
    }
  }

  lemma ProductUndoesDivision(a: real, b: real)
    ensures b != 0.0 ==> (a / b) * b == a
  {
    if b != 0.0 {
      assert (a / b) * b == a * (b / b);
    }
  }

  /** A digit press. It starts a new operand after an error or after an
      operator/equals, replaces a lone "0", and otherwise appends. Recovering
      from an error clears only the error flag: a pending "start a new
      operand" survives it. */
  function HandleNumber(s: State, d: Digit): (t: State)
    ensures t.previousValue == s.previousValue && t.operation == s.operation
    ensures !t.hasError
    ensures t.waitingForNewValue == (s.hasError && s.waitingForNewValue)
    ensures s.hasError || s.waitingForNewValue || s.display == "0" ==> t.display == [DigitChar(d)]
    ensures !s.hasError && !s.waitingForNewValue && s.display != "0" ==>
      t.display == s.display + [DigitChar(d)]
    ensures d == 0 && s.display == "0" ==> t.display == "0"
  {
    if s.hasError then
      s.(display := [DigitChar(d)], hasError := false)
    else if s.waitingForNewValue then
      s.(display := [DigitChar(d)], waitingForNewValue := false)
    else
      s.(display := if s.display == "0" then [DigitChar(d)] else s.display + [DigitChar(d)])
  }

  /** An operator press. Ignored while an error is shown. Otherwise the
      displayed operand either becomes the left operand or, when an operation
      is already pending, is combined with it at once (left to right, no
      precedence) whether or not a new operand has been typed. The new
      operator is recorded and the next digit starts a new operand even when
      the pending division failed. */
  function HandleOperation(render: real -> string, s: State, op: Op): (t: State)
    ensures s.hasError ==> t == s
    ensures !s.hasError ==> t.operation == Some(op) && t.waitingForNewValue
    ensures !s.hasError && s.previousValue.None? ==>
      t.previousValue == Some(Parse(s.display)) && t.display == s.display && !t.hasError
    ensures !s.hasError && s.previousValue.Some? && s.operation.None? ==>
      t == s.(operation := Some(op), waitingForNewValue := true)
    ensures !s.hasError && s.previousValue.Some? && s.operation.Some? ==>
      var out := Calculate(s.previousValue.value, Parse(s.display), s.operation.value);
      && t.hasError == out.DivideByZero?
      && (out.Value? ==> t.previousValue == Some(out.v) && t.display == render(out.v))
      && (out.DivideByZero? ==> t.previousValue == s.previousValue && t.display == s.display)
  {
    if s.hasError then
      s
    else
      var current := Parse(s.display);
      var s' :=
        if s.previousValue.None? then
          s.(previousValue := Some(current))
        else if s.operation.None? then
          s
        else
          match Calculate(s.previousValue.value, current, s.operation.value)
          case Value(r) => s.(previousValue := Some(r), display := render(r))
          case DivideByZero => s.(hasError := true);
      s'.(operation := Some(op), waitingForNewValue := true)
  }

  /** The equals press. Ignored while an error is shown or when nothing is
      pending. A successful evaluation shows the result, forgets the pending
      operation and makes the next digit start a new operand; a division by
      zero only raises the error flag. */
  function HandleEquals(render: real -> string, s: State): (t: State)
    ensures s.hasError || s.operation.None? || s.previousValue.None? ==> t == s
    ensures !s.hasError && s.operation.Some? && s.previousValue.Some? ==>
      var out := Calculate(s.previousValue.value, Parse(s.display), s.operation.value);
      && (out.DivideByZero? ==> t == s.(hasError := true))
      && (out.Value? ==>
            t == State(render(out.v), None, None, true, false))
  {
    if s.hasError || s.operation.None? || s.previousValue.None? then
      s
    else
      match Calculate(s.previousValue.value, Parse(s.display), s.operation.value)
      case Value(r) =>
        s.(display := render(r), previousValue := None, operation := None, waitingForNewValue := true)
      case DivideByZero =>
        s.(hasError := true)
  }

  /** The clear press: back to the state the component mounts with. */
  function HandleClear(s: State): (t: State)
    ensures t.display == "0" && t.previousValue.None? && t.operation.None?
    ensures !t.waitingForNewValue && !t.hasError
  {
    Initial
  }

  /** The decimal-point press. After an error or an operator/equals it starts
      the operand "0."; otherwise it adds a point unless one is already there.
      As with digits, leaving the error state keeps a pending "start a new
      operand". */
  function HandleDecimal(s: State): (t: State)
    ensures t.previousValue == s.previousValue && t.operation == s.operation
    ensures !t.hasError
    ensures t.waitingForNewValue == (s.hasError && s.waitingForNewValue)
    ensures '.' in t.display
    ensures s.hasError || s.waitingForNewValue ==> t.display == "0."
    ensures !s.hasError && !s.waitingForNewValue && '.' in s.display ==> t == s
    ensures !s.hasError && !s.waitingForNewValue && '.' !in s.display ==> t.display == s.display + "."
  {
    if s.hasError then
      s.(display := "0.", hasError := false)
    else if s.waitingForNewValue then
      s.(display := "0.", waitingForNewValue := false)
    else if '.' !in s.display then
      s.(display := s.display + ".")
    else
      s
  }

  /** The Backspace key. Without an error it drops the last character of a
      display longer than one character; otherwise the display becomes "0".
      It never clears the error flag and touches nothing but the display. */
  function HandleBackspace(s: State): (t: State)
    ensures t == s.(display := t.display)
    ensures |t.display| >= 1
    ensures !s.hasError && |s.display| > 1 ==> s.display == t.display + [s.display[|s.display| - 1]]
    ensures s.hasError || |s.display| <= 1 ==> t.display == "0"
  {
    if !s.hasError && |s.display| > 1 then
      s.(display := s.display[..|s.display| - 1])
    else
      s.(display := "0")
  }

  /** One press, dispatched to its handler. Clear always resets; operator
      and equals presses are ignored in the error state; digit and point
      presses always leave it and keep what is pending; backspace touches
      only the display. */
  function Step(render: real -> string, s: State, e: Event): (t: State)
    ensures e.Clear? ==> t == Initial
    ensures (e.Operation? || e.Equals?) && s.hasError ==> t == s
    ensures e.Number? || e.Decimal? ==>
      !t.hasError && t.previousValue == s.previousValue && t.operation == s.operation
    ensures e.Backspace? ==> t == s.(display := t.display)
    ensures e.Operation? && !s.hasError ==> t.operation == Some(e.op) && t.waitingForNewValue
  {
    match e
    case Number(d) => HandleNumber(s, d)
    case Decimal => HandleDecimal(s)
    case Operation(op) => HandleOperation(render, s, op)
    case Equals => HandleEquals(render, s)
    case Clear => HandleClear(s)
    case Backspace => HandleBackspace(s)
  }

  /** A sequence of events applied in order. */
  function Run(render: real -> string, s: State, es: seq<Event>): State
    decreases |es|
  {
    if es == [] then s else Run(render, Step(render, s, es[0]), es[1..])
  }

  /** Running two sequences of events one after the other is running their
      concatenation. */
  lemma {:induction false} RunAppend(render: real -> string, s: State, a: seq<Event>, b: seq<Event>)
    ensures Run(render, s, a + b) == Run(render, Run(render, s, a), b)
    decreases |a|
  {
    if a == [] {
      assert a + b == b;
    } else {
      assert (a + b)[0] == a[0];
      assert (a + b)[1..] == a[1..] + b;
      RunAppend(render, Step(render, s, a[0]), a[1..], b);
    }
  }

  lemma RunOne(render: real -> string, s: State, e: Event)
    ensures Run(render, s, [e]) == Step(render, s, e)
  {
    assert [e][1..] == [];
  }
}
