/** Semantic values, failures and the two-way result every modelled operation returns. */
module Values {

  /** A decimal is held as its exact decimal text; times and durations as microseconds. */
  datatype Value =
    | Missing
    | Null
    | Bool(flag: bool)
    | Int(number: int)
    | Dec(text: string)
    | Str(chars: string)
    | Id(uuid: string)
    | Time(instant: int)
    | Span(length: int)
    | List(items: seq<Value>)
    | Dict(fields: map<string, Value>)

  type State = map<string, Value>

  datatype Option<+T> = None | Some(value: T)

  /** One constructor for each exception class the modelled code raises. */
  datatype Error =
    | ScopeResolution
    | EvaluationFailed
    | NativeTypeError
    | NativeKeyError
    | DerivationCycle
    | ResourceUnresolved
    | ResourceCycle
    | BranchCondition
    | RepeatCount
    | RepeatLimit
    | RoutingLimit
    | SelectionLimit
    | SchedulerInvalid
    | InvariantDefinition
    | InvariantViolation
    | GeneratorFailed(code: string)

  /** The failure code evidence records: the exception's own code, or the name of its class. */
  function CodeOf(e: Error): string {
    match e
    case ScopeResolution => "ScopeResolutionError"
    case EvaluationFailed => "ExpressionEvaluationError"
    case NativeTypeError => "TypeError"
    case NativeKeyError => "KeyError"
    case DerivationCycle => "DerivationCycleError"
    case ResourceUnresolved => "ResourceResolutionError"
    case ResourceCycle => "ResourceCycleError"
    case BranchCondition => "BranchConditionError"
    case RepeatCount => "RepeatCountError"
    case RepeatLimit => "RepeatLimitError"
    case RoutingLimit => "ACTOR_CONTROL_ROUTING_LIMIT_EXCEEDED"
    case SelectionLimit => "ACTOR_SCHEDULER_SELECTION_LIMIT_EXCEEDED"
    case SchedulerInvalid => "SCHEDULER_COORDINATE_INVALID"
    case InvariantDefinition => "InvariantDefinitionError"
    case InvariantViolation => "InvariantViolation"
    case GeneratorFailed(code) => code
  }

  datatype Result<+T> = Ok(value: T) | Err(error: Error) {
    predicate IsFailure() { Err? }
    function PropagateFailure<U>(): Result<U>
      requires Err?
    {
      Err(error)
    }
    function Extract(): T
      requires Ok?
    {
      value
    }
  }

  /** Walks nested dictionaries along a path; None when a segment is absent. */
  function Descend(value: Value, path: seq<string>): Option<Value>
    decreases |path|
  {
    if path == [] then Some(value)
    else if value.Dict? && path[0] in value.fields then Descend(value.fields[path[0]], path[1..])
    else None
  }

  /** `str(n)` for a natural number. */
  function Digits(n: nat): (s: string)
    ensures s != []
  {
    if n < 10 then [Digit(n)] else Digits(n / 10) + [Digit(n % 10)]
  }

  function Digit(n: nat): char
    requires n < 10
  {
    '0' + n as char
  }

  lemma {:induction false} DigitsInjective(a: nat, b: nat)
    requires Digits(a) == Digits(b)
    ensures a == b
  {
    var x, y := Digits(a), Digits(b);
    if a < 10 || b < 10 {
      LongerDigits(a);
      LongerDigits(b);
    } else {
      assert x[..|x| - 1] == Digits(a / 10) && y[..|y| - 1] == Digits(b / 10);
      DigitsInjective(a / 10, b / 10);
      assert x[|x| - 1] == Digit(a % 10) && y[|y| - 1] == Digit(b % 10);
    }
  }

  /** A positive number's first digit is not zero. */
  lemma {:induction false} DigitsLead(n: nat)
    ensures n > 0 ==> Digits(n)[0] != '0'
    decreases n
  {
    if n >= 10 { DigitsLead(n / 10); }
  }

  lemma LongerDigits(n: nat)
    ensures n < 10 <==> |Digits(n)| == 1
  {
  }
}
