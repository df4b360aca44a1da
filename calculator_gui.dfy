/** The expression buffer of the desktop calculator: the text shown in the
    read-only result field, the four operations that change it (append a key,
    delete the last character, clear, compute) and the rules about operator
    keys that keep the typed expression free of leading and doubled operators.

    The evaluator that turns the expression text into result text is not
    modelled; every operation that needs it takes it as a parameter. */
module CalculatorGui {

  /** What the evaluator can do with an expression: produce the text of its
      value, or fail with one of the two errors the calculator absorbs. */
  datatype EvalResult = Ok(text: string) | SyntaxErr | ZeroDivErr

  /** The four operator keys, as they are shown on the buttons ('x' multiplies). */
  predicate IsOperator(c: char) {
    c == '+' || c == '-' || c == 'x' || c == '/'
  }

  /** The keys whose buttons append to the buffer: digits, the decimal point
      and the operators ("c" and "=" are bound to clear and compute instead). */
  predicate IsKey(c: char) {
    '0' <= c <= '9' || c == '.' || IsOperator(c)
  }

  /** The button labels in the order of the button table, without "c" and
      "=": exactly the ones wired to the append handler. */
  const RoutedKeys: seq<char> :=
    ['/', '7', '8', '9', '4', '5', '6', '1', '2', '3', 'x', '-', '+', '0', '.']

  /** The buttons wired to the append handler are exactly the keys: digits,
      the point and the four operators. */
  lemma RoutedKeysAreKeys()
    ensures forall c :: c in RoutedKeys <==> IsKey(c)
  {
  }

  // ---------------------------------------------------------------------
  // The result field's text
  // ---------------------------------------------------------------------

  /** The result field's default maximum length. */
  const MaxLength: nat := 32767

  /** What the result field keeps of a text it is given: longer text is cut
      down to the maximum length. */
  function FitText(t: string): (r: string)
    ensures r <= t && |r| <= MaxLength
    ensures |t| <= MaxLength ==> r == t
    ensures |t| > MaxLength ==> |r| == MaxLength
  {
    if |t| <= MaxLength then t else t[..MaxLength]
  }

  /** A text the result field can hold. */
  predicate Fits(s: string) {
    |s| <= MaxLength
  }

  // ---------------------------------------------------------------------
  // Appending a key
  // ---------------------------------------------------------------------

  /** A key is taken unless it is an operator and the buffer is empty or
      already ends in an operator. */
  predicate Accepts(s: string, key: char)
    ensures !IsOperator(key) ==> Accepts(s, key)
    ensures IsOperator(key) && s == [] ==> !Accepts(s, key)
    ensures IsOperator(key) && |s| > 0 ==> (Accepts(s, key) <==> !IsOperator(s[|s| - 1]))
  {
    !IsOperator(key) || (|s| > 0 && !IsOperator(s[|s| - 1]))
  }

  /** The buffer after the button `key` is pressed. */
  function Pressed(s: string, key: char): (r: string)
    ensures Accepts(s, key) ==> r == FitText(s + [key])
    ensures Accepts(s, key) && |s| < MaxLength ==> r == s + [key]
    ensures !Accepts(s, key) ==> r == s
  {
    if IsOperator(key) && |s| == 0 then s
    else if IsOperator(key) && IsOperator(s[|s| - 1]) then s
    else FitText(s + [key])
  }

  /** An operator pressed on an empty buffer leaves it empty. */
  lemma OperatorOnEmptyIgnored(key: char)
    requires IsOperator(key)
    ensures Pressed("", key) == ""
  {
  }

  /** An operator pressed right after an operator changes nothing. */
  lemma OperatorAfterOperatorIgnored(s: string, key: char)
    requires IsOperator(key) && |s| > 0 && IsOperator(s[|s| - 1])
    ensures Pressed(s, key) == s
  {
  }

  /** Any other key is appended below the length limit, and what was there
      before is kept as it is. */
  lemma NonOperatorAppended(s: string, key: char)
    requires !IsOperator(key)
    ensures |s| < MaxLength ==> Pressed(s, key) == s + [key]
    ensures |s| < MaxLength ==> |Pressed(s, key)| == |s| + 1
    ensures |s| < MaxLength ==> Pressed(s, key)[..|s|] == s && Pressed(s, key)[|s|] == key
  {
  }

  /** On a full field every key is lost, even one the operator rule takes. */
  lemma KeyLostWhenFull(s: string, key: char)
    requires |s| == MaxLength
    ensures Pressed(s, key) == s
  {
  }

  // ---------------------------------------------------------------------
  // Deleting the last character and clearing
  // ---------------------------------------------------------------------

  /** Python's prefix slice `s[:stop]`: a negative `stop` counts from the
      end, and a `stop` beyond either end is clamped to it. */
  function SliceTo(s: string, stop: int): (r: string)
    ensures r <= s
    ensures 0 <= stop <= |s| ==> r == s[..stop]
    ensures |s| < stop ==> r == s
    ensures -|s| <= stop < 0 ==> r == s[..|s| + stop]
    ensures stop < -|s| ==> r == []
  {
    var k := if stop < 0 then |s| + stop else stop;
    if k < 0 then s[..0]
    else if k > |s| then s
    else s[..k]
  }

  /** The buffer after backspace: the slice up to one before its length, as
      the field keeps it. */
  function Backspace(s: string): (r: string)
    ensures r <= s && Fits(r)
    ensures 0 < |s| <= MaxLength ==> |r| == |s| - 1
    ensures s == [] ==> r == []
  {
    FitText(SliceTo(s, |s| - 1))
  }

  /** Backspace drops exactly the final character, and on an empty buffer it
      yields the empty buffer (the slice `""[:-1]` is empty, not an error). */
  lemma BackspaceDropsLast(s: string)
    ensures 0 < |s| <= MaxLength ==> Backspace(s) == s[..|s| - 1]
    ensures 0 < |s| <= MaxLength ==> Backspace(s) + [s[|s| - 1]] == s
    ensures s == [] ==> Backspace(s) == []
  {
  }

  /** Backspace undoes a key press that was taken. */
  lemma BackspaceUndoesPress(s: string, key: char)
    requires Accepts(s, key) && |s| < MaxLength
    ensures Backspace(Pressed(s, key)) == s
  {
  }

  /** The buffer after "c": empty, whatever it held. */
  function Cleared(s: string): (r: string)
    ensures r == []
  {
    []
  }

  // ---------------------------------------------------------------------
  // Computing
  // ---------------------------------------------------------------------

  /** The text handed to the evaluator: every display 'x' becomes '*'. */
  function ReplaceTimes(s: string): (r: string)
    ensures |r| == |s|
    ensures forall i :: 0 <= i < |s| ==> r[i] == (if s[i] == 'x' then '*' else s[i])
    ensures 'x' !in r
  {
    if s == [] then []
    else [if s[0] == 'x' then '*' else s[0]] + ReplaceTimes(s[1..])
  }

  /** Text without 'x' is handed to the evaluator as it is. */
  lemma ReplaceTimesWithoutTimes(s: string)
    requires 'x' !in s
    ensures ReplaceTimes(s) == s
  {
  }

  /** Rewriting twice is rewriting once. */
  lemma ReplaceTimesIdempotent(s: string)
    ensures ReplaceTimes(ReplaceTimes(s)) == ReplaceTimes(s)
  {
  }

  /** The rewrite works character by character, so it splits over concatenation. */
  lemma ReplaceTimesConcat(a: string, b: string)
    ensures ReplaceTimes(a + b) == ReplaceTimes(a) + ReplaceTimes(b)
  {
  }

  /** The buffer after "=": on success the result text replaces it, on a
      syntax error or a division by zero it stays as it was. */
  function Computed(s: string, eval: string -> EvalResult): (r: string)
    ensures eval(ReplaceTimes(s)).Ok? ==> r <= eval(ReplaceTimes(s)).text && Fits(r)
    ensures !eval(ReplaceTimes(s)).Ok? ==> r == s
  {
    match eval(ReplaceTimes(s))
    case Ok(t) => FitText(t)
    case SyntaxErr => s
    case ZeroDivErr => s
  }

  /** A failed evaluation leaves the buffer as it was. */
  lemma ComputeFailureKeepsBuffer(s: string, eval: string -> EvalResult)
    requires !eval(ReplaceTimes(s)).Ok?
    ensures Computed(s, eval) == s
  {
  }

  /** A successful evaluation replaces the whole buffer by the result text
      (cut to the field's length), and the next digit is appended to that
      text rather than starting over. */
  lemma ComputeSuccessReplacesBuffer(s: string, eval: string -> EvalResult, key: char)
    requires eval(ReplaceTimes(s)).Ok?
    ensures Computed(s, eval) == FitText(eval(ReplaceTimes(s)).text)
    ensures Fits(eval(ReplaceTimes(s)).text) ==> Computed(s, eval) == eval(ReplaceTimes(s)).text
    ensures !IsOperator(key) && |eval(ReplaceTimes(s)).text| < MaxLength ==>
      Pressed(Computed(s, eval), key) == eval(ReplaceTimes(s)).text + [key]
  {
  }

  /** The multiplication the user typed as "2x3" reaches the evaluator as
      "2*3", and its result becomes the buffer. */
  lemma TimesReachesEvaluatorAsStar(eval: string -> EvalResult)
    requires eval("2*3") == Ok("6")
    ensures Computed("2x3", eval) == "6"
  {
    assert ReplaceTimes("2x3") == "2*3";
  }

  // ---------------------------------------------------------------------
  // The adjacency invariant
  // ---------------------------------------------------------------------

  /** The buffer does not begin with an operator and has no two operators
      side by side. */
  predicate WellFormed(s: string) {
    (|s| > 0 ==> !IsOperator(s[0])) &&
    forall i :: 0 < i < |s| ==> !(IsOperator(s[i - 1]) && IsOperator(s[i]))
  }

  /** Every prefix of a well-formed buffer is well-formed, so cutting text
      down to the field's length keeps the invariant. */
  lemma WellFormedPrefix(s: string, t: string)
    requires WellFormed(s) && t <= s
    ensures WellFormed(t)
  {
  }

  /** On a well-formed buffer the rule for operator keys is exactly the one
      that keeps it well-formed: a key is taken if and only if appending it
      leaves the buffer well-formed. */
  lemma AcceptsIffStaysWellFormed(s: string, key: char)
    requires WellFormed(s)
    ensures Accepts(s, key) <==> WellFormed(s + [key])
  {
    var t := s + [key];
    if Accepts(s, key) {
      forall i | 0 < i < |t| ensures !(IsOperator(t[i - 1]) && IsOperator(t[i])) {
        if i < |s| {
          assert t[i - 1] == s[i - 1] && t[i] == s[i];
        }
      }
    } else if |s| > 0 {
      assert IsOperator(t[|s| - 1]) && IsOperator(t[|s|]);
    }
  }

  /** Pressing any key keeps a well-formed buffer well-formed. */
  lemma PressedKeepsWellFormed(s: string, key: char)
    requires WellFormed(s)
    ensures WellFormed(Pressed(s, key))
  {
    if Accepts(s, key) {
      AcceptsIffStaysWellFormed(s, key);
      WellFormedPrefix(s + [key], Pressed(s, key));
    }
  }

  /** Deleting the last character keeps a well-formed buffer well-formed. */
  lemma BackspaceKeepsWellFormed(s: string)
    requires WellFormed(s)
    ensures WellFormed(Backspace(s))
  {
    WellFormedPrefix(s, Backspace(s));
  }

  /** A result text may well begin with an operator (a negative number), so
      the invariant does not survive "=". */
  lemma ComputeMayBreakWellFormed(eval: string -> EvalResult)
    requires eval("1-5") == Ok("-4")
    ensures WellFormed("1-5") && !WellFormed(Computed("1-5", eval))
  {
    ReplaceTimesWithoutTimes("1-5");
  }

  /** One input event of the calculator. */
  datatype Action = Press(key: char) | Delete | Clear | Equals

  /** The buffer after one event: the field's text always fits it, and an
      editing event adds at most one character and keeps the invariant. */
  function Step(s: string, a: Action, eval: string -> EvalResult): (r: string)
    ensures Fits(s) ==> Fits(r)
    ensures !a.Equals? ==> |r| <= |s| + 1
    ensures !a.Equals? && WellFormed(s) ==> WellFormed(r)
  {
    match a
    case Press(k) =>
      (if WellFormed(s) then PressedKeepsWellFormed(s, k); Pressed(s, k) else Pressed(s, k))
    case Delete =>
      (if WellFormed(s) then BackspaceKeepsWellFormed(s); Backspace(s) else Backspace(s))
    case Clear => Cleared(s)
    case Equals => Computed(s, eval)
  }

  /** Events that only edit the buffer: presses, backspace and clear. */
  predicate OnlyEdits(actions: seq<Action>) {
    forall i :: 0 <= i < |actions| ==> !actions[i].Equals?
  }

  /** The buffer after a sequence of events, oldest first: it still fits the
      field, and editing events make it at most one character longer each. */
  function Run(s: string, actions: seq<Action>, eval: string -> EvalResult): (r: string)
    ensures Fits(s) ==> Fits(r)
    ensures OnlyEdits(actions) ==> |r| <= |s| + |actions|
    decreases |actions|
  {
    if actions == [] then s
    else
      assert OnlyEdits(actions) ==> OnlyEdits(actions[1..]) by {
        if OnlyEdits(actions) {
          forall i | 0 <= i < |actions[1..]| ensures !actions[1..][i].Equals? {
            assert actions[1..][i] == actions[i + 1];
          }
        }
      }
      Run(Step(s, actions[0], eval), actions[1..], eval)
  }

  /** Any run of editing events keeps a well-formed buffer well-formed. */
  lemma {:induction false} EditsKeepWellFormed(s: string, actions: seq<Action>, eval: string -> EvalResult)
    requires WellFormed(s)
    requires OnlyEdits(actions)
    ensures WellFormed(Run(s, actions, eval))
    decreases |actions|
  {
    if actions != [] {
      assert !actions[0].Equals?;
      var next := Step(s, actions[0], eval);
      assert OnlyEdits(actions[1..]) by {
        forall i | 0 <= i < |actions[1..]| ensures !actions[1..][i].Equals? {
          assert actions[1..][i] == actions[i + 1];
        }
      }
      EditsKeepWellFormed(next, actions[1..], eval);
    }
  }

  /** Starting from the empty buffer and using only presses, backspace and
      clear, the buffer never begins with an operator and never holds two
      operators in a row. */
  lemma EditsFromEmptyWellFormed(actions: seq<Action>, eval: string -> EvalResult)
    requires OnlyEdits(actions)
    ensures WellFormed(Run("", actions, eval))
  {
    EditsKeepWellFormed("", actions, eval);
  }

  /** A run of digit presses spells the digits in order after what was
      there, as long as the field has room for them. */
  lemma {:induction false} DigitsConcatenate(s: string, digits: string, eval: string -> EvalResult)
    requires forall i :: 0 <= i < |digits| ==> '0' <= digits[i] <= '9'
    ensures |s| + |digits| <= MaxLength ==>
      Run(s, seq(|digits|, i requires 0 <= i < |digits| => Press(digits[i])), eval) == s + digits
    decreases |digits|
  {
    var presses := seq(|digits|, i requires 0 <= i < |digits| => Press(digits[i]));
    if digits != [] && |s| + |digits| <= MaxLength {
      var rest := digits[1..];
      assert presses[1..] == seq(|rest|, i requires 0 <= i < |rest| => Press(rest[i]));
      DigitsConcatenate(s + [digits[0]], rest, eval);
      assert s + [digits[0]] + rest == s + digits;
    }
  }

  /** A run that starts with event `a` is that event followed by the rest. */
  lemma RunFirst(s: string, a: Action, rest: seq<Action>, eval: string -> EvalResult)
    ensures Run(s, [a] + rest, eval) == Run(Step(s, a, eval), rest, eval)
  {
  }

  /** Typing "2+2", pressing "=" and then "5" shows "45". */
  lemma ResultIsExtendedNotReplaced(eval: string -> EvalResult)
    requires eval("2+2") == Ok("4")
    ensures Run("", [Press('2'), Press('+'), Press('2'), Equals, Press('5')], eval) == "45"
  {
    ReplaceTimesWithoutTimes("2+2");
    assert Step("", Press('2'), eval) == "2";
    assert Step("2", Press('+'), eval) == "2+";
    assert Step("2+", Press('2'), eval) == "2+2";
    assert Step("2+2", Equals, eval) == "4";
    assert Step("4", Press('5'), eval) == "45";
    RunFirst("45", Press('5'), [], eval);
    RunFirst("4", Equals, [Press('5')], eval);
    RunFirst("2+2", Press('2'), [Equals, Press('5')], eval);
    RunFirst("2+", Press('+'), [Press('2'), Equals, Press('5')], eval);
    RunFirst("", Press('2'), [Press('+'), Press('2'), Equals, Press('5')], eval);
  }

  /** Typing "1/0" and pressing "=" keeps "1/0" on the display. */
  lemma DivisionByZeroKeepsText(eval: string -> EvalResult)
    requires eval("1/0") == ZeroDivErr
    ensures Run("", [Press('1'), Press('/'), Press('0'), Equals], eval) == "1/0"
  {
    ReplaceTimesWithoutTimes("1/0");
    assert Step("", Press('1'), eval) == "1";
    assert Step("1", Press('/'), eval) == "1/";
    assert Step("1/", Press('0'), eval) == "1/0";
    assert Step("1/0", Equals, eval) == "1/0";
    RunFirst("1/0", Equals, [], eval);
    RunFirst("1/", Press('0'), [Equals], eval);
    RunFirst("1", Press('/'), [Press('0'), Equals], eval);
    RunFirst("", Press('1'), [Press('/'), Press('0'), Equals], eval);
  }

  // ---------------------------------------------------------------------
  // The character set of the buffer
  // ---------------------------------------------------------------------

  /** Every character of the buffer is one of the keys. */
  predicate OnlyKeys(s: string) {
    forall i :: 0 <= i < |s| ==> IsKey(s[i])
  }

  /** Every press in the run is of one of the keys (as every routed button is). */
  predicate PressesKeys(actions: seq<Action>) {
    forall i :: 0 <= i < |actions| ==> actions[i].Press? ==> IsKey(actions[i].key)
  }

  /** Pressing a key keeps a buffer of keys a buffer of keys. */
  lemma PressedKeepsKeys(s: string, key: char)
    requires OnlyKeys(s) && IsKey(key)
    ensures OnlyKeys(Pressed(s, key))
  {
    var r := Pressed(s, key);
    forall i | 0 <= i < |r| ensures IsKey(r[i]) {
      assert r[i] == (s + [key])[i];
    }
  }

  /** Deleting the last character keeps a buffer of keys a buffer of keys. */
  lemma BackspaceKeepsKeys(s: string)
    requires OnlyKeys(s)
    ensures OnlyKeys(Backspace(s))
  {
    var r := Backspace(s);
    forall i | 0 <= i < |r| ensures IsKey(r[i]) {
      assert r[i] == s[i];
    }
  }

  /** Any run of presses of keys, backspaces and clears leaves a buffer of
      keys holding only keys: digits, the point and the four operators. */
  lemma {:induction false} EditsKeepKeys(s: string, actions: seq<Action>, eval: string -> EvalResult)
    requires OnlyKeys(s)
    requires OnlyEdits(actions) && PressesKeys(actions)
    ensures OnlyKeys(Run(s, actions, eval))
    decreases |actions|
  {
    if actions != [] {
      var a := actions[0];
      assert !a.Equals? && (a.Press? ==> IsKey(a.key));
      match a {
        case Press(k) => PressedKeepsKeys(s, k);
        case Delete => BackspaceKeepsKeys(s);
        case Clear =>
      }
      var rest := actions[1..];
      assert OnlyEdits(rest) && PressesKeys(rest) by {
        forall i | 0 <= i < |rest| ensures !rest[i].Equals? && (rest[i].Press? ==> IsKey(rest[i].key)) {
          assert rest[i] == actions[i + 1];
        }
      }
      EditsKeepKeys(Step(s, a, eval), rest, eval);
    }
  }

  /** A result text may hold characters no key produces (Python prints the
      quotient 1/100000 as "1e-05"), so the character set holds only between
      evaluations. */
  lemma ComputeMayLeaveNonKeys(eval: string -> EvalResult)
    requires eval("1/100000") == Ok("1e-05")
    ensures OnlyKeys("1/100000")
    ensures !OnlyKeys(Computed("1/100000", eval))
  {
    var typed, shown := "1/100000", "1e-05";
    ReplaceTimesWithoutTimes(typed);
    assert Computed(typed, eval) == FitText(shown) == shown;
    assert shown[1] == 'e' && !IsKey(shown[1]);
    forall i | 0 <= i < |typed| ensures IsKey(typed[i]) {
      assert typed[i] in "1/0";
    }
  }

  // ---------------------------------------------------------------------
  // The calculator widget's buffer
  // ---------------------------------------------------------------------

  /** The calculator window, reduced to the text of its result field. */
  class Calculator {
    /** The text of the result field (its placeholder is not part of it). */
    var display: string

    /** The field's text never exceeds its maximum length. */
    predicate Valid()
      reads this
    {
      Fits(display)
    }

    constructor ()
      ensures Valid() && display == ""
    {
      display := "";
    }

    /** A button (or its shortcut) for a digit, the point or an operator. */
    method ButtonClicked(key: char)
      requires Valid()
      modifies this
      ensures Valid()
      ensures display == Pressed(old(display), key)
      ensures old(WellFormed(display)) ==> WellFormed(display)
      ensures IsKey(key) && old(OnlyKeys(display)) ==> OnlyKeys(display)
    {
      if IsOperator(key) {
        if |display| == 0 {
          return;
        } else if IsOperator(display[|display| - 1]) {
          return;
        }
      }
      if WellFormed(display) {
        PressedKeepsWellFormed(display, key);
      }
      if IsKey(key) && OnlyKeys(display) {
        PressedKeepsKeys(display, key);
      }
      display := FitText(display + [key]);
    }

    /** The "=" button or the return key: rewrite 'x' to '*', evaluate, and
        keep the buffer on a syntax error or a division by zero. */
    method Compute(eval: string -> EvalResult)
      requires Valid()
      modifies this
      ensures Valid()
      ensures display == Computed(old(display), eval)
      ensures !eval(ReplaceTimes(old(display))).Ok? ==> display == old(display)
    {
      var result := eval(ReplaceTimes(display));
      match result
      case Ok(t) => display := FitText(t);
      case SyntaxErr => return;
      case ZeroDivErr => return;
    }

    /** The backspace key. */
    method DeleteLastCharacter()
      requires Valid()
      modifies this
      ensures Valid()
      ensures display == Backspace(old(display))
      ensures |old(display)| > 0 ==> display == old(display)[..|old(display)| - 1]
      ensures old(display) == [] ==> display == []
      ensures old(WellFormed(display)) ==> WellFormed(display)
      ensures old(OnlyKeys(display)) ==> OnlyKeys(display)
    {
      if WellFormed(display) {
        BackspaceKeepsWellFormed(display);
      }
      if OnlyKeys(display) {
        BackspaceKeepsKeys(display);
      }
      display := FitText(SliceTo(display, |display| - 1));
    }

    /** The "c" button, bound straight to the result field's clear. */
    method Clear()
      requires Valid()
      modifies this
      ensures Valid()
      ensures display == Cleared(old(display)) && display == []
    {
      display := "";
    }
  }
}
