# Calculator engine model

A Dafny model of the engine of a four-function web calculator written in PHP:
the class `CalculatorManager`, which drives one `Calculator` record with five
fields (`accumulator`, `input`, `operator`, `result`, `state`). Each
keystroke operation updates that record in place. `append` types a key,
`operator` captures the left operand, `calculate` applies the pending operator,
`percentage` divides by 100, `middot` adds a decimal point, `plusMinus` toggles
the sign and `reset` clears everything. The three operations that can throw
do so before any field is written.

Files:

- `php_text.dfy` (module `PhpText`): the PHP string semantics the engine
  depends on. It covers `is_numeric` on strings (PHP 8 grammar), when
  `floatval` yields zero, and what the loose comparison `$s == '0'` means (two
  numeric strings compare as numbers, so `"0."`, `"0.0"`, `"00"`, `"-0"` are all
  equal to `'0'`). It also defines `str_replace` of one character by nothing and
  the shape of a partial decimal numeral.
- `engine.dfy` (module `Engine`): the record as a datatype, the constants, the
  exceptions and their messages, and one step function per operation.
  Failures are an `Outcome` (`Ok(next)` or `Fail(error)`).
- `engine_properties.dfy` (module `EngineProperties`): lemmas that relate
  several operations. They cover typed key sequences, the sign toggle as an
  involution, which calls must fail, and the numeral shape the keystrokes
  keep. It also holds both halves of the finding below.
- `manager.dfy` (module `Manager`): the classes `Calculator` (the session
  record) and `CalculatorManager`. The manager holds the record and its
  methods write the record's fields with `modifies calculator`. Each method is
  proved to leave the record as the matching `Engine` function says. Each
  failing method is proved to leave it `unchanged`.

The PHP runtime's floating point is a parameter, `FloatArith`. Its
`apply(op, l, r)` is the text stored for `round(floatval(l) op floatval(r), 8)`
and its `percent(a)` is the text stored for `round(floatval(a) / 100, 8)`. The
manager receives it at construction.

The model follows the code as written, which in places is less tidy than the
engine's intent suggests:

- `append` replaces every accumulator that is loosely equal to `'0'`, not only
  the literal `"0"`.
- `plusMinus` tests for a `-` anywhere, not only a leading one.
- The division test is `floatval(accumulator) == 0`. That test also holds for
  text with no numeric prefix, such as `"abc"`.
- `calculate` fails for any operator that is not one of the four symbols, not
  only for the unset one.
- The accumulator is not always a decimal numeral. The keystroke operations
  keep it one (`EngineProperties.*KeepsValid`). After `calculate` or
  `percentage` it is one only if PHP prints the float as a plain numeral, which
  PHP does not do for, e.g., `1.0E+25` or `INF`.

## Model

| member | source | states |
|---|---|---|
| `PhpText.RemoveAll` | app/app/model/CalculatorManager.php:185 | `str_replace('-', '', s)` leaves no `-` and removes exactly the `-` characters: the multiset of the rest is unchanged, and a string without `-` is returned as is |
| `PhpText.RemoveAllConcat` | app/app/model/CalculatorManager.php:185 | removal from a concatenation is the concatenation of the removals, so the kept characters stay in their order |
| `PhpText.RemoveAllSingle` | app/app/model/CalculatorManager.php:185 | a lone `-` is removed entirely; with `RemoveAllConcat` and the no-`-` clause this fixes `str_replace`'s result on every string |
| `PhpText.IsNumericString` | app/app/model/CalculatorManager.php:85 | `is_numeric`, which decides whether `$s == '0'` compares as numbers: every numeric string holds a digit, and a partial numeral is numeric exactly when it holds a digit |
| `PhpText.FloatvalIsZero` | app/app/model/CalculatorManager.php:125-138 | `floatval($s) == 0`: it holds for every text without a non-zero digit (text with no numeric prefix included) and fails for every text starting with a non-zero digit |
| `PhpText.LooselyEqualsZero` | app/app/model/CalculatorManager.php:85 | `$s == '0'` holds exactly when `s` is a numeric string whose value is zero (a non-numeric `s` would have to be `"0"`, which is numeric); `NumeralLooselyZero` characterizes it on numerals |
| `PhpText.ZeroTextIsNumeric` | app/app/model/CalculatorManager.php:85 | `'0'` is a numeric string of value zero, so `$s == '0'` compares numerically whenever `s` is numeric |
| `PhpText.ZeroPointIsLooselyZero` | app/app/model/CalculatorManager.php:85 | `"0."`, the accumulator after the keys 0 and `.`, is loosely `'0'` |
| `PhpText.NumeralLooselyZero` | app/app/model/CalculatorManager.php:179 | on a partial numeral, `$s == '0'` holds exactly when the numeral has a digit and all its digits are `0` (both directions) |
| `PhpText.NegationKeepsNonZero` | app/app/model/CalculatorManager.php:179-183 | a text without `-` that is not loosely `'0'` stays so once `plusMinus` prefixes `-` |
| `PhpText.RemoveAllOfNegated` | app/app/model/CalculatorManager.php:185 | removing every `-` from `-` followed by a text without `-` gives that text back |
| `Engine.Initial` | app/app/model/CalculatorManager.php:96-103 | the record `reset` writes: an accumulator that is loosely `'0'` (so the first key replaces it) and equal to the result, no operator pending, an empty input and the accumulate state |
| `Engine.Message` | app/app/model/CalculatorManager.php:139-180 | the text of each exception thrown at lines 139, 144, 167 and 180; none is empty |
| `Engine.MessagesIdentifyErrors` | app/app/model/CalculatorManager.php:139-180 | two exceptions carry the same text exactly when they are the same error, so the text the controller shows identifies the error |
| `Engine.Append` | app/app/model/CalculatorManager.php:82-90 | only the accumulator changes; it ends with the key; it is exactly the key when the old accumulator was loosely `'0'`, and old accumulator ++ key otherwise |
| `Engine.IntendedAppend` | app/app/model/CalculatorManager.php:82-90 | corrected `append`: the literal `"0"` is replaced by the key; any other accumulator is extended by the key; other fields unchanged |
| `Engine.SelectOperator` | app/app/model/CalculatorManager.php:110-115 | the new input is the old accumulator, the operator is `INPUT_CONTROLS[name]` (one of the four symbols), the accumulator is `INIT_VALUE`; result and state are untouched |
| `Engine.OperationOf` | app/app/model/CalculatorManager.php:127-145 | the switch selects an operation exactly for the four symbols: addition exactly for `PLUS`, subtraction for `MINUS`, multiplication for `TIMES`, division for `DIVIDE` |
| `Engine.Calculate` | app/app/model/CalculatorManager.php:121-148 | fails exactly when the operator is not one of the four, or is `DIVIDE` with a divisor `floatval` reads as zero, with the matching exception; on success the input becomes old input ++ operator ++ old accumulator, the accumulator the result computed from the old operands, and operator, result and state are kept |
| `Engine.Percentage` | app/app/model/CalculatorManager.php:153-157 | never fails; the accumulator becomes `percent` of the old one and nothing else changes |
| `Engine.Middot` | app/app/model/CalculatorManager.php:163-170 | fails with `PointAlreadyPresent` exactly when the accumulator holds a `.`; on success only the accumulator changes, to the old one ++ `"."` |
| `Engine.PlusMinus` | app/app/model/CalculatorManager.php:176-187 | fails with `ZeroAccumulator` exactly when the accumulator is loosely `'0'`; on success only the accumulator changes: `"-"` ++ old when the old one has no `-`, the old one with every `-` removed otherwise, so it holds a `-` exactly when the old one did not |
| `EngineProperties.OperatorSymbolsAreNotNumeric` | app/app/model/CalculatorManager.php:127-145 | none of the four operator symbols is a numeric string, so the loose `switch` in `calculate` compares them as plain strings |
| `EngineProperties.OperatorSymbolsAreDistinct` | app/app/model/CalculatorManager.php:19-24 | the four operator symbols are distinct, differ from the initial operator, and are exactly the values of `INPUT_CONTROLS` |
| `EngineProperties.AppendToNonZeroNumeral` | app/app/model/CalculatorManager.php:82-90 | on a numeral with a non-zero digit, `append` concatenates |
| `EngineProperties.TypingAfterNonZeroDigit` | app/app/model/CalculatorManager.php:82-90 | once the accumulator is a numeral with a non-zero digit, typing any sequence of digit keys appends exactly those keys and changes nothing else |
| `EngineProperties.AppendDropsZeroPoint` | app/app/model/CalculatorManager.php:85-88 | as written, the keys 0, `.`, 5 leave `"5"` in the accumulator, because `"0."` is loosely `'0'` |
| `EngineProperties.TypingFromInitial` | app/app/model/CalculatorManager.php:82-90 | as written, from the initial record a first digit 1-9 replaces the `"0"` and every digit typed after it is kept |
| `EngineProperties.IntendedTypingKeepsKeys` | app/app/model/CalculatorManager.php:82-90 | with the corrected `append`, every key typed after the accumulator has left `"0"` is kept, e.g. `"0."` then 5 gives `"0.5"` |
| `EngineProperties.IntendedDigitEntry` | app/app/model/CalculatorManager.php:82-90 | with the corrected `append`, from the initial record the first key replaces `"0"` and every later key is appended |
| `EngineProperties.SecondOperatorDiscardsOperand` | app/app/model/CalculatorManager.php:110-115 | a second operator key re-captures the `"0"` left by the first, so the first operand is lost and the last operator wins |
| `EngineProperties.CalculateRightAfterOperator` | app/app/model/CalculatorManager.php:110-148 | right after an operator key, `calculate` fails with `DivisionByZero` for divide and otherwise yields the trail `operand ++ symbol ++ "0"` |
| `EngineProperties.InitialValueIsLooselyZero` | app/app/model/CalculatorManager.php:85 | the initial accumulator `"0"` is loosely `'0'` |
| `EngineProperties.InitialRefusesCalculateAndSign` | app/app/model/CalculatorManager.php:96-144 | after `reset`, `calculate` fails with `NotImplemented` and `plusMinus` fails with `ZeroAccumulator` |
| `EngineProperties.LooseZeroDivisorFails` | app/app/model/CalculatorManager.php:138-139 | every accumulator that is loosely `'0'` is a zero divisor for `calculate` |
| `EngineProperties.NonNumericDivisorFails` | app/app/model/CalculatorManager.php:124-139 | `"abc"` is not loosely `'0'`, yet dividing by it fails, since `floatval("abc")` is 0 |
| `EngineProperties.CalculatePlus` | app/app/model/CalculatorManager.php:127-147 | with `PLUS` pending, `calculate` never fails: the trail becomes input, `+`, accumulator and the accumulator holds the rounded sum |
| `EngineProperties.ChainedComputation` | app/app/model/CalculatorManager.php:110-148 | from accumulator `"4"`: plus, 3, equals gives the trail `"4+3"` and stores the sum of `"4"` and `"3"` |
| `EngineProperties.MiddotTwiceFails` | app/app/model/CalculatorManager.php:163-170 | a second `middot` right after a successful one fails with `PointAlreadyPresent` |
| `EngineProperties.PlusMinusInvolution` | app/app/model/CalculatorManager.php:176-187 | on an accumulator that is not loosely `'0'` and has no `-`, `plusMinus` prefixes `-` and a second call restores the record |
| `EngineProperties.PlusMinusRestoresNegative` | app/app/model/CalculatorManager.php:176-187 | on `-` followed by a non-zero text without `-`, `plusMinus` strips the sign and a second call restores the record |
| `EngineProperties.InitialIsValid` | app/app/model/CalculatorManager.php:96-103 | the record `reset` produces has a numeral accumulator |
| `EngineProperties.AppendDigitKeepsValid` | app/app/model/CalculatorManager.php:82-90 | typing a digit keeps the accumulator a numeral |
| `EngineProperties.MiddotKeepsValid` | app/app/model/CalculatorManager.php:163-170 | a successful `middot` keeps the accumulator a numeral (at most one point) |
| `EngineProperties.NumeralMinusIsLeading` | app/app/model/CalculatorManager.php:182-185 | in a numeral the only `-` is the leading one, so removing every `-` removes just that one |
| `EngineProperties.PlusMinusKeepsValid` | app/app/model/CalculatorManager.php:176-187 | a successful `plusMinus` keeps the accumulator a numeral |
| `EngineProperties.SelectOperatorKeepsValid` | app/app/model/CalculatorManager.php:110-115 | an operator key leaves a numeral accumulator |
| `EngineProperties.ArithmeticKeepsValid` | app/app/model/CalculatorManager.php:146-157 | a documented assumption rather than a result: `calculate` and `percentage` keep a numeral accumulator only if floating point prints plain numerals (`PrintsNumerals`, which the model does not establish) |
| `Manager.CalculatorManager.constructor` | app/app/model/CalculatorManager.php:32-35 | the manager holds the given record, which it does not change |
| `Manager.CalculatorManager.IsAccumulateState` | app/app/model/CalculatorManager.php:40-51 | exactly one of `isAccumulateState` and `isResultState` holds |
| `Manager.CalculatorManager.GetResult` | app/app/model/CalculatorManager.php:56-59 | reads the record's result |
| `Manager.CalculatorManager.GetInput` | app/app/model/CalculatorManager.php:64-67 | reads the record's input |
| `Manager.CalculatorManager.GetAccumulator` | app/app/model/CalculatorManager.php:72-75 | reads the record's accumulator |
| `Manager.CalculatorManager.Append` | app/app/model/CalculatorManager.php:82-90 | writes the accumulator as `Engine.Append` says: the key alone after a loosely-zero accumulator, old ++ key otherwise, nothing else |
| `Manager.CalculatorManager.Reset` | app/app/model/CalculatorManager.php:96-103 | from any record, sets result and accumulator to `INIT_VALUE`, input to `""`, operator to `OPERATOR_INIT_VALUE`, state to `ACCUMULATE_STATE`; so a second call changes nothing |
| `Manager.CalculatorManager.Operator` | app/app/model/CalculatorManager.php:110-115 | input := old accumulator, operator := `INPUT_CONTROLS[name]`, accumulator := `INIT_VALUE`; result and state untouched |
| `Manager.CalculatorManager.Calculate` | app/app/model/CalculatorManager.php:121-148 | reports what `Engine.Calculate` says; on failure the record is unchanged; on success the input is the trail built from the old input, operator and accumulator |
| `Manager.CalculatorManager.Percentage` | app/app/model/CalculatorManager.php:153-157 | only the accumulator changes, to the percent of the old one |
| `Manager.CalculatorManager.Middot` | app/app/model/CalculatorManager.php:163-170 | fails exactly when the accumulator holds a `.`, and then nothing changes; otherwise a `.` is appended |
| `Manager.CalculatorManager.PlusMinus` | app/app/model/CalculatorManager.php:176-187 | fails exactly when the accumulator is loosely `'0'`, and then nothing changes; otherwise the sign is toggled as `Engine.PlusMinus` says |

## Findings

| source | as written | input that shows it | evidently intended | confidence | as-written member | corrected member |
|---|---|---|---|---|---|---|
| app/app/model/CalculatorManager.php:85 | `if ($before == '0')` compares loosely, so `"0."` and `"0.0"` count as `'0'` and are replaced by the next key | keys 0, `.`, 5 (accumulator `"0."`, then `append('5')`) give `"5"` | replace only the literal initial `"0"` (`===`), so the keys give `"0.5"` | high; not executed | `EngineProperties.AppendDropsZeroPoint` | `EngineProperties.IntendedTypingKeepsKeys` |

`Engine.Append` and `Manager.CalculatorManager.Append` model the code as
written. `Engine.IntendedAppend` is the corrected step. The typing lemmas
`IntendedTypingKeepsKeys` and `IntendedDigitEntry` use it.

## Left out

- Floating point: `floatval` of the operands, the `+ - * /` on doubles, `round(…, 8)` and the conversion of the rounded float back to text are the parameter `FloatArith`. No concrete result is claimed, e.g. `"0.33333333"` for 1 ÷ 3 or `"0.5"` for 50 %.
- Engine.Calculate: the new accumulator is stated as `apply(op, input, accumulator)`, not as a rounded number, because floating point is not modelled.
- Engine.Percentage: the new accumulator is stated as `percent(accumulator)`, not as a number divided by 100, for the same reason.
- PhpText.FloatvalIsZero: a literal that underflows to zero, such as `"1e-400"`, counts as non-zero. `LooselyEqualsZero` inherits this.
- PhpText.IsNumericString: follows PHP 8, where trailing whitespace is allowed. PHP 7 rejects it.
- The PHP `Calculator` class is not part of this model. The Dafny class `Manager.Calculator` stands in for it as a plain record of five fields whose setters are field assignments; any validation the PHP setters may do is not modelled. The values of its constants are assumed: `INIT_VALUE` `"0"`, `OPERATOR_INIT_VALUE` `""`, and the symbols `"+"`, `"-"`, `"*"`, `"/"`. Most proofs need only that `INIT_VALUE` is `"0"` and that the four symbols are distinct, non-numeric and differ from the initial operator. `OperatorSymbolsAreNotNumeric` is proved from the four concrete characters, and `ChainedComputation` states the trail `"4+3"`, so it relies on `PLUS` being `"+"`.
- Manager.CalculatorManager.IsAccumulateState: the state is one of two tags. So the loose `==` at line 42 and the strict `===` at line 50 both reduce to tag equality, and string states such as `"0.0"` are not modelled.
- Manager.CalculatorManager.Operator: requires `name` to be a key of `INPUT_CONTROLS`. The controller passes only `plus`, `minus`, `times` and `divide` (app/app/controller/AppController.php:85-89). The undefined-key read for any other name is not modelled.
- The controller (app/app/controller/AppController.php) is not modelled. It covers action dispatch, catching exceptions and rendering the view. Session storage of the record is not modelled either.
- The unused `NumericHelper` import is not modelled.
