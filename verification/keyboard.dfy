/**
 The keyboard support: which calculator event a `KeyboardEvent.key` value
 stands for, and the key handler that feeds that event to the state
 machine. Registering the listener and suppressing the browser's default
 action are browser plumbing and are not modelled.
 */
module Keyboard {
  import opened Options
  import opened Numerals
  import opened Calculator

  /** JavaScript's `<=` on two strings: lexicographic order of the
      characters, a proper prefix coming first. */
  predicate StringLessEq(a: string, b: string) {
    if a == [] then true
    else if b == [] then false
    else if a[0] != b[0] then a[0] < b[0]
    else StringLessEq(a[1..], b[1..])
  }

  /** The digit test of the key handler as written: `key >= '0' && key <= '9'`,
      a range comparison of strings rather than a test for one character. */
  predicate DigitGuardAsWritten(key: string) {
    StringLessEq("0", key) && StringLessEq(key, "9")
  }

  /** The digit test as intended: the key is a single digit character. */
  predicate IsDigitKey(key: string) {
    |key| == 1 && IsDigit(key[0])
  }

  /** What the written test accepts: the ten digit keys, and also every longer
      key whose first character is one of '0' to '8'. */
  lemma DigitGuardAsWrittenMeaning(key: string)
    ensures DigitGuardAsWritten(key) <==> IsDigitKey(key) || (|key| > 1 && '0' <= key[0] <= '8')
  {
    if key != [] {
      assert StringLessEq("0", key) <==> '0' <= key[0] by {
        if key[0] == '0' {
          assert StringLessEq("0"[1..], key[1..]);
        }
      }
      assert StringLessEq(key, "9") <==> key[0] < '9' || (key[0] == '9' && |key| == 1) by {
        if key[0] == '9' {
          assert StringLessEq(key, "9") == StringLessEq(key[1..], "9"[1..]);
        }
      }
    }
  }

  /** The two tests agree on every one-character key. */
  lemma GuardsAgreeOnSingleCharacters(key: string)
    requires |key| == 1
    ensures DigitGuardAsWritten(key) <==> IsDigitKey(key)
  {
    DigitGuardAsWrittenMeaning(key);
  }

  /** The key "12" passes the written test although it is not a digit key;
      the handler would then press the number 12. */
  lemma DigitGuardAdmitsTwoCharacterKey()
    ensures DigitGuardAsWritten("12") && !IsDigitKey("12")
  {
    DigitGuardAsWrittenMeaning("12");
  }

  /** The event a key stands for, if any. Every key not listed produces no
      event. */
  function KeyToEvent(key: string): (e: Option<Event>)
    ensures e.Some? && e.value.Number? <==> IsDigitKey(key)
    ensures e.Some? && e.value.Number? ==> key == [DigitChar(e.value.d)]
    ensures e == Some(Decimal) <==> key == "."
    ensures e == Some(Operation(Add)) <==> key == "+"
    ensures e == Some(Operation(Sub)) <==> key == "-"
    ensures e == Some(Operation(Mul)) <==> key == "*"
    ensures e == Some(Operation(Div)) <==> key == "/"
    ensures e == Some(Equals) <==> key == "Enter" || key == "="
    ensures e == Some(Clear) <==> key == "Escape" || key == "Delete"
    ensures e == Some(Backspace) <==> key == "Backspace"
  {
    if IsDigitKey(key) then Some(Number(DigitValue(key[0])))
    else if key == "." then Some(Decimal)
    else if key == "+" then Some(Operation(Add))
    else if key == "-" then Some(Operation(Sub))
    else if key == "*" then Some(Operation(Mul))
    else if key == "/" then Some(Operation(Div))
    else if key == "Enter" || key == "=" then Some(Equals)
    else if key == "Escape" || key == "Delete" then Some(Clear)
    else if key == "Backspace" then Some(Backspace)
    else None
  }

  function OperatorKey(op: Op): string {
    match op
    case Add => "+"
    case Sub => "-"
    case Mul => "*"
    case Div => "/"
  }

  /** A key that produces each event. */
  function KeyFor(e: Event): string {
    match e
    case Number(d) => [DigitChar(d)]
    case Decimal => "."
    case Operation(op) => OperatorKey(op)
    case Equals => "="
    case Clear => "Escape"
    case Backspace => "Backspace"
  }

  /** Every event can be produced from the keyboard. */
  lemma EveryEventHasAKey(e: Event)
    ensures KeyToEvent(KeyFor(e)) == Some(e)
  {
    if e.Number? {
      assert DigitValue(DigitChar(e.d)) == e.d;
    }
  }

  /** The key handler: a recognised key is applied as its event, any other
      key leaves the state alone. */
  function OnKey(render: real -> string, s: State, key: string): (t: State)
    ensures KeyToEvent(key).None? ==> t == s
    ensures IsDigitKey(key) ==> t == HandleNumber(s, DigitValue(key[0]))
    ensures key == "Backspace" ==> t == HandleBackspace(s)
    ensures key == "." ==> t == HandleDecimal(s)
    ensures key == "+" ==> t == HandleOperation(render, s, Add)
    ensures key == "-" ==> t == HandleOperation(render, s, Sub)
    ensures key == "*" ==> t == HandleOperation(render, s, Mul)
    ensures key == "/" ==> t == HandleOperation(render, s, Div)
    ensures key == "Enter" || key == "=" ==> t == HandleEquals(render, s)
    ensures key == "Escape" || key == "Delete" ==> t == Initial
  {
    match KeyToEvent(key)
    case None => s
    case Some(e) => Step(render, s, e)
  }

  /** Pressing the key for a press has the same effect as the press itself:
      the keyboard reaches every transition the keypad does. */
  lemma KeyboardMatchesKeypad(render: real -> string, s: State, e: Event)
    ensures OnKey(render, s, KeyFor(e)) == Step(render, s, e)
  {
    EveryEventHasAKey(e);
  }
}
