/**
 Properties of the calculator engine that relate several operations: what a
 sequence of keystrokes builds, which calls undo each other, which calls must
 fail, and the shape of the accumulator the keystrokes keep.
 */
module EngineProperties {
  import opened PhpText
  import opened Engine

  /**
   The operator symbols are not numeric strings, so the loose comparisons of
   the switch in `calculate` are plain string equality.
   */
  lemma OperatorSymbolsAreNotNumeric()
    ensures !IsNumericString(PLUS) && !IsNumericString(MINUS)
    ensures !IsNumericString(TIMES) && !IsNumericString(DIVIDE)
  {
    SymbolIsNotNumeric('+');
    SymbolIsNotNumeric('-');
    SymbolIsNotNumeric('*');
    SymbolIsNotNumeric('/');
  }

  /**
   The four operator names record four different symbols, and the initial
   operator matches none of them.
   */
  lemma OperatorSymbolsAreDistinct()
    ensures OPERATOR_INIT_VALUE !in {PLUS, MINUS, TIMES, DIVIDE}
    ensures PLUS !in {MINUS, TIMES, DIVIDE} && MINUS !in {TIMES, DIVIDE} && TIMES != DIVIDE
    ensures INPUT_CONTROLS.Values == {PLUS, MINUS, TIMES, DIVIDE}
  {
    assert INPUT_CONTROLS["plus"] == PLUS && INPUT_CONTROLS["minus"] == MINUS;
    assert INPUT_CONTROLS["times"] == TIMES && INPUT_CONTROLS["divide"] == DIVIDE;
  }

  /** A one-character string that is neither a digit nor a point is not numeric. */
  lemma SymbolIsNotNumeric(c: char)
    requires !IsDigit(c) && c != '.'
    ensures !IsNumericString([c])
  {
    var u := Unsigned([c]);
    if IsWhitespace(c) || c == '+' || c == '-' {
      assert u == [];
    } else {
      assert u == [c];
      assert DigitRun(u) == 0;
    }
  }

  // ---------------------------------------------------------------- append

  /** The accumulator after typing `keys` one by one with `append` as written. */
  function TypeKeys(r: Record, keys: seq<string>): Record
    decreases |keys|
  {
    if keys == [] then r else TypeKeys(Append(r, keys[0]), keys[1..])
  }

  /** The accumulator after typing `keys` one by one with the intended `append`. */
  function IntendedTypeKeys(r: Record, keys: seq<string>): Record
    decreases |keys|
  {
    if keys == [] then r else IntendedTypeKeys(IntendedAppend(r, keys[0]), keys[1..])
  }

  function Concat(keys: seq<string>): string {
    if keys == [] then "" else keys[0] + Concat(keys[1..])
  }

  /** Every key is a single digit. */
  predicate AreDigitKeys(keys: seq<string>)
    decreases |keys|
  {
    keys == [] || (|keys[0]| == 1 && IsDigit(keys[0][0]) && AreDigitKeys(keys[1..]))
  }


  /** A numeral with a non-zero digit is not loosely '0', so `append` concatenates to it. */
  lemma AppendToNonZeroNumeral(r: Record, value: string)
    requires IsPartialNumeral(r.accumulator) && HasNonZeroDigit(r.accumulator)
    ensures Append(r, value).accumulator == r.accumulator + value
  {
    NumeralLooselyZero(r.accumulator);
  }

  /** Appending one digit keeps a partial numeral a partial numeral, and keeps its non-zero digits. */
  lemma AppendDigitKeepsNumeral(s: string, d: char)
    requires IsPartialNumeral(s) && IsDigit(d)
    ensures IsPartialNumeral(s + [d])
    ensures HasNonZeroDigit(s) ==> HasNonZeroDigit(s + [d])
  {
    if HasNonZeroDigit(s) {
      var i :| 0 <= i < |s| && IsDigit(s[i]) && s[i] != '0';
      assert (s + [d])[i] == s[i];
    }
    var t := s + [d];
    if |s| > 0 {
      assert Magnitude(t) == Magnitude(s) + [d];
    } else {
      assert Magnitude(t) == [d];
    }
  }

  /** One digit typed after a non-zero digit is appended and keeps the accumulator a numeral with a non-zero digit. */
  lemma TypeOneDigit(r: Record, key: string)
    requires IsPartialNumeral(r.accumulator) && HasNonZeroDigit(r.accumulator)
    requires |key| == 1 && IsDigit(key[0])
    ensures Append(r, key) == r.(accumulator := r.accumulator + key)
    ensures IsPartialNumeral(Append(r, key).accumulator) && HasNonZeroDigit(Append(r, key).accumulator)
  {
    AppendToNonZeroNumeral(r, key);
    assert key == [key[0]];
    AppendDigitKeepsNumeral(r.accumulator, key[0]);
  }

  /** Typing the first key and then the rest appends all of them. */
  lemma ConcatFirst(a: string, keys: seq<string>)
    requires keys != []
    ensures a + keys[0] + Concat(keys[1..]) == a + Concat(keys)
  {
  }

  /**
   Once the accumulator is a numeral with a non-zero digit, every digit typed
   with `append` is kept: the accumulator grows by exactly the keys typed.
   */
  lemma {:induction false} TypingAfterNonZeroDigit(r: Record, keys: seq<string>)
    requires IsPartialNumeral(r.accumulator) && HasNonZeroDigit(r.accumulator)
    requires AreDigitKeys(keys)
    ensures TypeKeys(r, keys).accumulator == r.accumulator + Concat(keys)
    ensures TypeKeys(r, keys).(accumulator := r.accumulator) == r
    decreases |keys|
  {
    if keys != [] {
      var r1 := Append(r, keys[0]);
      TypeOneDigit(r, keys[0]);
      assert r1.accumulator == r.accumulator + keys[0];
      TypingAfterNonZeroDigit(r1, keys[1..]);
      ConcatFirst(r.accumulator, keys);
    }
  }

  /**
   From the initial record, a non-zero first digit replaces the "0" and every
   digit typed after it is kept.
   */
  lemma TypingFromInitial(d: char, rest: seq<string>)
    requires '1' <= d <= '9'
    requires AreDigitKeys(rest)
    ensures TypeKeys(Initial(), [[d]] + rest).accumulator == [d] + Concat(rest)
  {
    var keys := [[d]] + rest;
    assert keys[0] == [d] && keys[1..] == rest;
    InitialValueIsLooselyZero();
    var r1 := Append(Initial(), [d]);
    assert r1.accumulator == [d];
    assert Magnitude([d]) == [d];
    assert HasNonZeroDigit([d]) by { assert IsDigit([d][0]) && [d][0] != '0'; }
    TypingAfterNonZeroDigit(r1, rest);
  }

  /**
   As written, `append` treats "0." as zero: pressing 0, then the point, then 5
   leaves "5" in the accumulator instead of "0.5".
   */
  lemma AppendDropsZeroPoint()
    ensures Middot(Initial()).Ok?
    ensures Middot(Initial()).next.accumulator == "0."
    ensures Append(Middot(Initial()).next, "5").accumulator == "5"
  {
    assert Middot(Initial()) == Ok(Initial().(accumulator := "0."));
    ZeroPointIsLooselyZero();
  }

  /**
   With the intended `append`, every key typed after the accumulator has left
   the initial "0" is kept: pressing 0, the point, then 5 gives "0.5".
   */
  lemma {:induction false} IntendedTypingKeepsKeys(r: Record, keys: seq<string>)
    requires r.accumulator != INIT_VALUE && r.accumulator != ""
    ensures IntendedTypeKeys(r, keys).accumulator == r.accumulator + Concat(keys)
    ensures IntendedTypeKeys(r, keys).(accumulator := r.accumulator) == r
    decreases |keys|
  {
    if keys != [] {
      var r1 := IntendedAppend(r, keys[0]);
      assert r1.accumulator == r.accumulator + keys[0];
      assert r1.accumulator[0] == r.accumulator[0];
      assert |r1.accumulator| >= |r.accumulator|;
      assert r1.accumulator != INIT_VALUE by {
        if |r.accumulator| == 1 { assert r1.accumulator[0] != '0' || |r1.accumulator| > 1; }
      }
      IntendedTypingKeepsKeys(r1, keys[1..]);
      assert r.accumulator + keys[0] + Concat(keys[1..]) == r.accumulator + Concat(keys);
    }
  }

  /** Starting from the initial record, the first non-zero key replaces the "0" and every later key is appended. */
  lemma IntendedDigitEntry(first: string, rest: seq<string>)
    requires first != INIT_VALUE && first != ""
    ensures IntendedTypeKeys(Initial(), [first] + rest).accumulator == first + Concat(rest)
  {
    var r1 := IntendedAppend(Initial(), first);
    assert r1.accumulator == first;
    assert ([first] + rest)[1..] == rest;
    IntendedTypingKeepsKeys(r1, rest);
  }

  // ---------------------------------------------------------------- operator, calculate

  /** A second operator key captures the accumulator's "0", so the first left operand is lost. */
  lemma SecondOperatorDiscardsOperand(r: Record, first: string, second: string)
    requires first in INPUT_CONTROLS && second in INPUT_CONTROLS
    ensures SelectOperator(SelectOperator(r, first), second).input == INIT_VALUE
    ensures SelectOperator(SelectOperator(r, first), second).operator == INPUT_CONTROLS[second]
  {
  }

  /** Right after an operator key, `calculate` succeeds for plus, minus and times and fails for divide. */
  lemma CalculateRightAfterOperator(r: Record, name: string, arith: FloatArith)
    requires name in INPUT_CONTROLS
    ensures Calculate(SelectOperator(r, name), arith) ==
              if name == "divide" then Fail(DivisionByZero)
              else Ok(Record(arith.apply(OperationOf(INPUT_CONTROLS[name]).value, r.accumulator, INIT_VALUE),
                             r.accumulator + INPUT_CONTROLS[name] + INIT_VALUE,
                             INPUT_CONTROLS[name], r.result, r.state))
  {
    assert FloatvalIsZero(INIT_VALUE) by {
      assert Unsigned(INIT_VALUE) == INIT_VALUE;
    }
  }

  /** After `reset` no operator is pending, so `calculate` fails and `plusMinus` refuses the "0". */
  lemma InitialRefusesCalculateAndSign(arith: FloatArith)
    ensures Calculate(Initial(), arith) == Fail(NotImplemented)
    ensures PlusMinus(Initial()) == Fail(ZeroAccumulator)
  {
    InitialValueIsLooselyZero();
  }

  /** An accumulator that `append` would treat as zero is also a zero divisor for `calculate`. */
  lemma LooseZeroDivisorFails(r: Record, arith: FloatArith)
    requires r.operator == DIVIDE && LooselyEqualsZero(r.accumulator)
    ensures Calculate(r, arith) == Fail(DivisionByZero)
  {
    ZeroTextIsNumeric();
  }

  /** Some divisors that `floatval` reads as zero are not loosely '0': text without a numeric prefix. */
  lemma NonNumericDivisorFails(r: Record, arith: FloatArith)
    requires r.operator == DIVIDE && r.accumulator == "abc"
    ensures !LooselyEqualsZero(r.accumulator)
    ensures Calculate(r, arith) == Fail(DivisionByZero)
  {
    var a := r.accumulator;
    assert WhitespaceRun(a) == 0 && SkipWhitespace(a) == a;
    assert Unsigned(a) == a;
    assert DigitRun(a) == 0 && a[0] != '.';
    assert MantissaLength(a) == 0;
    assert !IsNumericString(a) && FloatvalIsZero(a);
  }

  /** The initial "0" is loosely '0'. */
  lemma InitialValueIsLooselyZero()
    ensures LooselyEqualsZero(INIT_VALUE)
  {
    assert HasDigit(INIT_VALUE) by { assert IsDigit(INIT_VALUE[0]); }
    NumeralLooselyZero(INIT_VALUE);
  }

  /** With `PLUS` pending, `calculate` always succeeds: the trail grows and the sum is stored. */
  lemma CalculatePlus(r: Record, arith: FloatArith)
    requires r.operator == PLUS
    ensures Calculate(r, arith) ==
              Ok(r.(input := r.input + PLUS + r.accumulator, accumulator := arith.apply(Add, r.input, r.accumulator)))
  {
    assert OperationOf(PLUS) == Some(Add);
  }

  /** 4, plus, 3, equals: the trail reads "4+3" and the accumulator holds the sum of "4" and "3". */
  lemma ChainedComputation(r: Record, arith: FloatArith)
    requires r.accumulator == "4"
    ensures Append(SelectOperator(r, "plus"), "3").accumulator == "3"
    ensures Calculate(Append(SelectOperator(r, "plus"), "3"), arith) ==
              Ok(r.(input := "4+3", operator := PLUS, accumulator := arith.apply(Add, "4", "3")))
  {
    var selected := SelectOperator(r, "plus");
    assert selected == r.(input := "4", operator := PLUS, accumulator := INIT_VALUE);
    InitialValueIsLooselyZero();
    var entered := Append(selected, "3");
    assert entered == r.(input := "4", operator := PLUS, accumulator := "3");
    CalculatePlus(entered, arith);
    assert "4" + PLUS + "3" == "4+3";
  }

  // ---------------------------------------------------------------- middot, plusMinus

  /** A second `middot` in a row always fails, and the failure leaves the point that the first one added. */
  lemma MiddotTwiceFails(r: Record)
    requires Middot(r).Ok?
    ensures Middot(Middot(r).next) == Fail(PointAlreadyPresent)
  {
  }

  /** On a non-zero accumulator without '-', `plusMinus` twice gives back the original record. */
  lemma PlusMinusInvolution(r: Record)
    requires !LooselyEqualsZero(r.accumulator) && '-' !in r.accumulator
    ensures PlusMinus(r).Ok? && PlusMinus(r).next.accumulator == "-" + r.accumulator
    ensures PlusMinus(PlusMinus(r).next) == Ok(r)
  {
    NegationKeepsNonZero(r.accumulator);
    RemoveAllOfNegated(r.accumulator);
  }

  /** On "-" followed by a non-zero text without '-', `plusMinus` twice gives back the original record. */
  lemma PlusMinusRestoresNegative(r: Record, magnitude: string)
    requires r.accumulator == "-" + magnitude
    requires !LooselyEqualsZero(magnitude) && '-' !in magnitude
    ensures PlusMinus(r).Ok? && PlusMinus(r).next.accumulator == magnitude
    ensures PlusMinus(PlusMinus(r).next) == Ok(r)
  {
    NegationKeepsNonZero(magnitude);
    RemoveAllOfNegated(magnitude);
  }

  // ---------------------------------------------------------------- the shape of the accumulator

  /** The accumulator is a partial or complete decimal numeral. */
  predicate ValidRecord(r: Record) {
    IsPartialNumeral(r.accumulator)
  }

  /** Floating point that only ever stores plain decimal numerals (PHP may print "1.0E+25" or "INF"). */
  ghost predicate PrintsNumerals(arith: FloatArith) {
    (forall op, l, x :: IsPartialNumeral(arith.apply(op, l, x))) &&
    (forall a :: IsPartialNumeral(arith.percent(a)))
  }

  lemma InitialIsValid()
    ensures ValidRecord(Initial())
  {
    assert Magnitude(INIT_VALUE) == INIT_VALUE;
  }

  /** Typing a digit keeps the accumulator a numeral, whether it replaces a zero or is appended. */
  lemma AppendDigitKeepsValid(r: Record, d: char)
    requires ValidRecord(r) && IsDigit(d)
    ensures ValidRecord(Append(r, [d]))
  {
    if LooselyEqualsZero(r.accumulator) {
      assert Magnitude([d]) == [d];
    } else {
      AppendDigitKeepsNumeral(r.accumulator, d);
    }
  }

  lemma MiddotKeepsValid(r: Record)
    requires ValidRecord(r) && Middot(r).Ok?
    ensures ValidRecord(Middot(r).next)
  {
    var s := r.accumulator;
    var t := s + ".";
    if |s| > 0 {
      assert Magnitude(t) == Magnitude(s) + ".";
      var b := Magnitude(s);
      forall i | 0 <= i < |b| ensures b[i] != '.' {
        assert b[i] == s[|s| - |b| + i];
      }
    } else {
      assert Magnitude(t) == ".";
    }
  }

  /** In a partial numeral the only '-' is the leading one. */
  lemma NumeralMinusIsLeading(s: string)
    requires IsPartialNumeral(s)
    ensures '-' !in Magnitude(s)
    ensures '-' in s ==> s[0] == '-' && RemoveAll(s, '-') == s[1..]
  {
    if '-' in s {
      assert s == [s[0]] + s[1..];
    }
  }

  lemma PlusMinusKeepsValid(r: Record)
    requires ValidRecord(r) && PlusMinus(r).Ok?
    ensures ValidRecord(PlusMinus(r).next)
  {
    var s := r.accumulator;
    NumeralMinusIsLeading(s);
    if '-' !in s {
      assert Magnitude("-" + s) == s;
      assert Magnitude(s) == s by {
        if |s| > 0 { assert s[0] != '-'; }
      }
    } else {
      var b := s[1..];
      assert Magnitude(b) == b by {
        if |b| > 0 { assert b[0] != '-'; }
      }
    }
  }

  lemma SelectOperatorKeepsValid(r: Record, name: string)
    requires name in INPUT_CONTROLS
    ensures ValidRecord(SelectOperator(r, name))
  {
    InitialIsValid();
  }

  /** `calculate` and `percentage` keep the accumulator a numeral only when floating point prints numerals. */
  lemma ArithmeticKeepsValid(r: Record, arith: FloatArith)
    requires ValidRecord(r) && PrintsNumerals(arith)
    ensures Calculate(r, arith).Ok? ==> ValidRecord(Calculate(r, arith).next)
    ensures ValidRecord(Percentage(r, arith))
  {
  }
}
