/**
 CalculatorManager drives one Calculator record in place. Every method checks
 its error condition first and writes the record only when it succeeds; each
 is proved to leave the record exactly as the matching function of module
 Engine says, and to leave it untouched when it fails.
 */
module Manager {
  import opened PhpText
  import opened Engine

  /** The record one session holds; its setters are plain field assignments. */
  class Calculator {
    var accumulator: string
    var input: string
    var operator: string
    var result: string
    var state: Phase

    /** A record as stored in the session, whatever its fields hold. */
    constructor (accumulator: string, input: string, operator: string, result: string, state: Phase)
      ensures Snapshot() == Record(accumulator, input, operator, result, state)
    {
      this.accumulator := accumulator;
      this.input := input;
      this.operator := operator;
      this.result := result;
      this.state := state;
    }

    /** The five fields as a value. */
    function Snapshot(): Record
      reads this
    {
      Record(accumulator, input, operator, result, state)
    }
  }

  /** How a method ended: normally, or with the exception it threw. */
  datatype Status = Done | Failed(error: CalcError)

  /** `status` and the record `after` are what the outcome `o` of a step function says. */
  predicate Reports(o: Outcome, status: Status, after: Record) {
    match o
    case Ok(next) => status == Done && after == next
    case Fail(e) => status == Failed(e)
  }

  class CalculatorManager {
    const calculator: Calculator
    /** The floating point of the PHP runtime, which the model does not define. */
    const arith: FloatArith

    constructor (calculator: Calculator, arith: FloatArith)
      ensures this.calculator == calculator && this.arith == arith
      ensures calculator.Snapshot() == old(calculator.Snapshot())
    {
      this.calculator := calculator;
      this.arith := arith;
    }

    /** Exactly one of the two display states holds. */
    predicate IsAccumulateState()
      reads calculator
      ensures IsAccumulateState() <==> !IsResultState()
    {
      calculator.state == AccumulateState
    }

    predicate IsResultState()
      reads calculator
    {
      calculator.state == ResultState
    }

    function GetResult(): (r: string)
      reads calculator
      ensures r == calculator.Snapshot().result
    {
      calculator.result
    }

    function GetInput(): (i: string)
      reads calculator
      ensures i == calculator.Snapshot().input
    {
      calculator.input
    }

    function GetAccumulator(): (a: string)
      reads calculator
      ensures a == calculator.Snapshot().accumulator
    {
      calculator.accumulator
    }

    /** Types `value`: it replaces an accumulator that is loosely '0' and is appended to any other. */
    method Append(value: string)
      modifies calculator
      ensures calculator.Snapshot() == Engine.Append(old(calculator.Snapshot()), value)
      ensures calculator.accumulator == if LooselyEqualsZero(old(calculator.accumulator)) then value
                                  else old(calculator.accumulator) + value
    {
      var before := calculator.accumulator;
      if LooselyEqualsZero(before) {
        before := "";
      }
      calculator.accumulator := before + value;
    }

    /** Restores the initial record from any record; a second call changes nothing more. */
    method Reset()
      modifies calculator
      ensures calculator.Snapshot() == Initial()
    {
      calculator.result := INIT_VALUE;
      calculator.input := "";
      calculator.accumulator := INIT_VALUE;
      calculator.operator := OPERATOR_INIT_VALUE;
      calculator.state := AccumulateState;
    }

    /** Captures the accumulator as the left operand and `name`'s symbol as the pending operator. */
    method Operator(name: string)
      requires name in INPUT_CONTROLS
      modifies calculator
      ensures calculator.Snapshot() == SelectOperator(old(calculator.Snapshot()), name)
      ensures calculator.input == old(calculator.accumulator) && calculator.operator == INPUT_CONTROLS[name]
      ensures calculator.accumulator == INIT_VALUE
      ensures calculator.result == old(calculator.result) && calculator.state == old(calculator.state)
    {
      calculator.input := calculator.accumulator;
      calculator.operator := INPUT_CONTROLS[name];
      calculator.accumulator := INIT_VALUE;
    }

    /** Applies the pending operator; fails, with nothing written, on a zero divisor or no known operator. */
    method Calculate() returns (status: Status)
      modifies calculator
      ensures Reports(Engine.Calculate(old(calculator.Snapshot()), arith), status, calculator.Snapshot())
      ensures status.Failed? ==> unchanged(calculator)
      ensures status.Done? ==> calculator.input == old(calculator.input) + old(calculator.operator) + old(calculator.accumulator)
    {
      var operator := calculator.operator;
      var op: ArithOp;
      if operator == PLUS {
        op := Add;
      } else if operator == MINUS {
        op := Subtract;
      } else if operator == TIMES {
        op := Multiply;
      } else if operator == DIVIDE {
        if FloatvalIsZero(calculator.accumulator) {
          return Failed(DivisionByZero);
        }
        op := Divide;
      } else {
        return Failed(NotImplemented);
      }
      var value := arith.apply(op, calculator.input, calculator.accumulator);
      calculator.input := calculator.input + calculator.operator + calculator.accumulator;
      calculator.accumulator := value;
      status := Done;
    }

    /** Divides the accumulator by 100; nothing else changes and it never fails. */
    method Percentage()
      modifies calculator
      ensures calculator.Snapshot() == Engine.Percentage(old(calculator.Snapshot()), arith)
      ensures calculator.accumulator == arith.percent(old(calculator.accumulator))
    {
      calculator.accumulator := arith.percent(calculator.accumulator);
    }

    /** Appends a decimal point; fails, with nothing written, when the accumulator already has one. */
    method Middot() returns (status: Status)
      modifies calculator
      ensures Reports(Engine.Middot(old(calculator.Snapshot())), status, calculator.Snapshot())
      ensures status.Failed? <==> '.' in old(calculator.accumulator)
      ensures status.Failed? ==> unchanged(calculator)
    {
      var accumulator := calculator.accumulator;
      if '.' in accumulator {
        return Failed(PointAlreadyPresent);
      }
      calculator.accumulator := accumulator + ".";
      status := Done;
    }

    /** Toggles the minus sign; fails, with nothing written, when the accumulator is loosely '0'. */
    method PlusMinus() returns (status: Status)
      modifies calculator
      ensures Reports(Engine.PlusMinus(old(calculator.Snapshot())), status, calculator.Snapshot())
      ensures status.Failed? <==> LooselyEqualsZero(old(calculator.accumulator))
      ensures status.Failed? ==> unchanged(calculator)
    {
      var accumulator := calculator.accumulator;
      if LooselyEqualsZero(accumulator) {
        return Failed(ZeroAccumulator);
      }
      if '-' !in accumulator {
        calculator.accumulator := "-" + accumulator;
      } else {
        calculator.accumulator := RemoveAll(accumulator, '-');
      }
      status := Done;
    }
  }
}
