/**
 The calculator engine as values: the record one session holds, the constants
 of the Calculator class, and one step function per operation of
 CalculatorManager. The classes in module Manager are proved to update their
 fields exactly as these functions say.
 */
module Engine {
  import opened PhpText

  // The Calculator class that defines these constants is not part of this
  // model, so the values below are assumed. Most proofs need only INIT_VALUE
  // being "0" and the four operator symbols being distinct, non-numeric and
  // different from OPERATOR_INIT_VALUE. OperatorSymbolsAreNotNumeric is proved
  // from the four concrete characters, and ChainedComputation, which states
  // the trail "4+3", relies on PLUS being "+".
  const INIT_VALUE: string := "0"
  const OPERATOR_INIT_VALUE: string := ""
  const PLUS: string := "+"
  const MINUS: string := "-"
  const TIMES: string := "*"
  const DIVIDE: string := "/"

  /** The action names the manager accepts as operators, with the symbol each one records. */
  const INPUT_CONTROLS: map<string, string> :=
    map["divide" := DIVIDE, "times" := TIMES, "minus" := MINUS, "plus" := PLUS]

  /** ACCUMULATE_STATE while digits are typed, RESULT_STATE after a result is shown. */
  datatype Phase = AccumulateState | ResultState

  /** The five fields of the Calculator record. */
  datatype Record = Record(accumulator: string, input: string, operator: string, result: string, state: Phase)

  /** The exceptions the manager throws; each is thrown before any field is written. */
  datatype CalcError =
    | PointAlreadyPresent   // middot on an accumulator that has a '.'
    | ZeroAccumulator       // plusMinus on an accumulator that is loosely '0'
    | DivisionByZero        // calculate with DIVIDE and a divisor that parses to zero
    | NotImplemented        // calculate with no known operator pending

  /** The message each exception carries, which the controller shows in place of the input trail. */
  function Message(e: CalcError): (m: string)
    ensures |m| > 0
  {
    match e
    case PointAlreadyPresent => "L'accumulateur contient déjà un point"
    case ZeroAccumulator => "L'accumulateur contient zéro"
    case DivisionByZero => "Division par zéro impossible"
    case NotImplemented => "La fonction n'est pas encore implémentée"
  }

  /** Each exception carries its own message, so the text shown identifies the error. */
  lemma MessagesIdentifyErrors(e1: CalcError, e2: CalcError)
    ensures Message(e1) == Message(e2) <==> e1 == e2
  {
    if e1 != e2 {
      var m1, m2 := Message(e1), Message(e2);
      assert |m1| != |m2| || m1[0] != m2[0];
    }
  }

  /** An operation either yields the new record or fails with nothing written. */
  datatype Outcome = Ok(next: Record) | Fail(error: CalcError)

  datatype ArithOp = Add | Subtract | Multiply | Divide

  /**
   PHP's floating point as the engine uses it, given as a parameter:
   apply(op, l, r) is the text stored for round(floatval(l) op floatval(r), 8),
   percent(a) the text stored for round(floatval(a) / 100, 8).
   */
  datatype FloatArith = FloatArith(apply: (ArithOp, string, string) -> string, percent: string -> string)

  /**
   The record a session starts from and `reset` returns to: the accumulator is
   loosely '0', so the first key replaces it, and no operator is pending.
   */
  function Initial(): (r: Record)
    ensures LooselyEqualsZero(r.accumulator) && r.result == r.accumulator
    ensures r.operator !in {PLUS, MINUS, TIMES, DIVIDE}
    ensures r.input == "" && r.state == AccumulateState
  {
    ZeroTextIsNumeric();
    Record(INIT_VALUE, "", OPERATOR_INIT_VALUE, INIT_VALUE, AccumulateState)
  }

  /** `append(value)`: a keystroke replaces an accumulator that is loosely '0' and is appended otherwise. */
  function Append(r: Record, value: string): (r': Record)
    ensures r'.(accumulator := r.accumulator) == r
    ensures |value| <= |r'.accumulator| && r'.accumulator[|r'.accumulator| - |value|..] == value
    ensures LooselyEqualsZero(r.accumulator) ==> r'.accumulator == value
    ensures !LooselyEqualsZero(r.accumulator) ==> r'.accumulator == r.accumulator + value
  {
    var before := if LooselyEqualsZero(r.accumulator) then "" else r.accumulator;
    r.(accumulator := before + value)
  }

  /**
   The evidently intended `append`: only the literal initial "0" is replaced
   (a strict comparison), so the digits typed after "0." are kept.
   */
  function IntendedAppend(r: Record, value: string): (r': Record)
    ensures r'.(accumulator := r.accumulator) == r
    ensures r.accumulator == INIT_VALUE ==> r'.accumulator == value
    ensures r.accumulator != INIT_VALUE ==> r'.accumulator == r.accumulator + value
  {
    var before := if r.accumulator == INIT_VALUE then "" else r.accumulator;
    r.(accumulator := before + value)
  }

  /** `operator(name)`: the accumulator becomes the left operand, `name`'s symbol the pending operator. */
  function SelectOperator(r: Record, name: string): (r': Record)
    requires name in INPUT_CONTROLS
    ensures r'.input == r.accumulator && r'.accumulator == INIT_VALUE
    ensures r'.operator == INPUT_CONTROLS[name] && r'.operator in {PLUS, MINUS, TIMES, DIVIDE}
    ensures r'.result == r.result && r'.state == r.state
  {
    r.(input := r.accumulator, operator := INPUT_CONTROLS[name], accumulator := INIT_VALUE)
  }

  /**
   The arithmetic operation a recorded operator symbol selects. The switch in
   `calculate` compares loosely, which for these non-numeric symbols is plain
   string equality.
   */
  function OperationOf(symbol: string): (op: Option<ArithOp>)
    ensures op.Some? <==> symbol in {PLUS, MINUS, TIMES, DIVIDE}
    ensures op == Some(Add) <==> symbol == PLUS
    ensures op == Some(Subtract) <==> symbol == MINUS
    ensures op == Some(Multiply) <==> symbol == TIMES
    ensures op == Some(Divide) <==> symbol == DIVIDE
  {
    if symbol == PLUS then Some(Add)
    else if symbol == MINUS then Some(Subtract)
    else if symbol == TIMES then Some(Multiply)
    else if symbol == DIVIDE then Some(Divide)
    else None
  }

  datatype Option<T> = None | Some(value: T)

  /**
   `calculate()`: applies the pending operator to the input and the accumulator,
   extends the input into the trail `input + operator + accumulator` and
   stores the result in the accumulator.
   */
  function Calculate(r: Record, arith: FloatArith): (o: Outcome)
    ensures o.Fail? <==>
              r.operator !in {PLUS, MINUS, TIMES, DIVIDE} ||
              (r.operator == DIVIDE && FloatvalIsZero(r.accumulator))
    ensures o.Fail? ==>
              o.error == (if r.operator == DIVIDE then DivisionByZero else NotImplemented)
    ensures o.Ok? ==> o.next.input == r.input + r.operator + r.accumulator
    ensures o.Ok? ==> o.next.accumulator == arith.apply(OperationOf(r.operator).value, r.input, r.accumulator)
    ensures o.Ok? ==> o.next.operator == r.operator && o.next.result == r.result && o.next.state == r.state
  {
    match OperationOf(r.operator)
    case None => Fail(NotImplemented)
    case Some(op) =>
      if op == Divide && FloatvalIsZero(r.accumulator) then Fail(DivisionByZero)
      else
        var value := arith.apply(op, r.input, r.accumulator);
        Ok(r.(input := r.input + r.operator + r.accumulator, accumulator := value))
  }

  /** `percentage()`: the accumulator divided by 100; nothing else changes and it never fails. */
  function Percentage(r: Record, arith: FloatArith): (r': Record)
    ensures r'.(accumulator := r.accumulator) == r
    ensures r'.accumulator == arith.percent(r.accumulator)
  {
    r.(accumulator := arith.percent(r.accumulator))
  }

  /** `middot()`: appends a '.' unless the accumulator already holds one. */
  function Middot(r: Record): (o: Outcome)
    ensures o.Fail? <==> '.' in r.accumulator
    ensures o.Fail? ==> o.error == PointAlreadyPresent
    ensures o.Ok? ==> o.next.(accumulator := r.accumulator) == r && '.' in o.next.accumulator
    ensures o.Ok? ==> o.next.accumulator == r.accumulator + "."
  {
    if '.' in r.accumulator then Fail(PointAlreadyPresent)
    else
      var acc := r.accumulator + ".";
      assert acc[|acc| - 1] == '.';
      Ok(r.(accumulator := acc))
  }

  /**
   `plusMinus()`: refuses an accumulator that is loosely '0'; otherwise puts a
   '-' in front when there is none, and removes every '-' when there is one.
   */
  function PlusMinus(r: Record): (o: Outcome)
    ensures o.Fail? <==> LooselyEqualsZero(r.accumulator)
    ensures o.Fail? ==> o.error == ZeroAccumulator
    ensures o.Ok? ==> o.next.(accumulator := r.accumulator) == r
    ensures o.Ok? ==> ('-' in o.next.accumulator <==> '-' !in r.accumulator)
    ensures o.Ok? && '-' !in r.accumulator ==> o.next.accumulator == "-" + r.accumulator
    ensures o.Ok? && '-' in r.accumulator ==> o.next.accumulator == RemoveAll(r.accumulator, '-')
  {
    if LooselyEqualsZero(r.accumulator) then Fail(ZeroAccumulator)
    else if '-' !in r.accumulator then
      var acc := "-" + r.accumulator;
      assert acc[0] == '-';
      Ok(r.(accumulator := acc))
    else Ok(r.(accumulator := RemoveAll(r.accumulator, '-')))
  }
}
