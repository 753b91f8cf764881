/**
 * Values shared by every part of the Medusa code generator: the three
 * variable types, the compile errors that replace the compiler's panics,
 * the two keyword tables and decimal rendering of label and slot numbers.
 */
module MedusaTypes {

  /** `VariableDataType`: the static type of a variable or of an expression. */
  datatype DataType = Int | Str | Float

  datatype Option<+T> = None | Some(value: T)

  /**
   * One error per `panic!`, `todo!()` or failed `unwrap` that the compiler can
   * reach on a parsed program; the compiler aborts on the first one.
   */
  datatype CompileError =
    | UndeclaredVariable(name: string)
    | OperandTypesDiffer(left: DataType, right: DataType)
    | NonNumericOperand(operand: DataType)
    | ModuloOnFloat
    | EmptyTypeStack
    | UnknownCast(text: string)
    | UnknownTypeKeyword(keyword: string)
    | AssignmentTypeMismatch(declared: DataType, actual: DataType)
    | ComparisonTypesDiffer(left: DataType, right: DataType)
    | StringOrdering
    | Unimplemented
    | UnexpectedStatement
    | UnreadableTemplate

  datatype Result<+T> = Ok(value: T) | Err(error: CompileError) {
    predicate IsFailure() { Err? }

    function PropagateFailure<U>(): Result<U>
      requires Err?
    {
      Err(error)
    }

    function Extract(): T
      requires Ok?
    {
      value
    }
  }

  /** The outcome of a compiler step that yields nothing but state changes. */
  datatype Outcome = Pass | Fail(error: CompileError)

  predicate IsNumeric(t: DataType) { t == Int || t == Float }

  /** The declaration keyword for a type. */
  function Keyword(t: DataType): (kw: string)
    ensures TypeOfKeyword(kw) == Some(t)
  {
    match t
    case Int => "int"
    case Str => "string"
    case Float => "float"
  }

  /** The type a declaration keyword names; any other text is the `unreachable!()` arm. */
  function TypeOfKeyword(kw: string): (r: Option<DataType>)
    ensures r.Some? <==> kw == "int" || kw == "string" || kw == "float"
  {
    if kw == "int" then Some(Int)
    else if kw == "string" then Some(Str)
    else if kw == "float" then Some(Float)
    else None
  }

  /** The source text of the cast that converts to a type. */
  function CastText(t: DataType): (text: string)
    ensures CastTarget(text) == Some(t)
  {
    match t
    case Int => "(int)"
    case Str => "(string)"
    case Float => "(float)"
  }

  /** The destination type a cast token names; any other text is the `unreachable!()` arm. */
  function CastTarget(text: string): (r: Option<DataType>)
    ensures r.Some? <==> text == "(int)" || text == "(float)" || text == "(string)"
  {
    if text == "(int)" then Some(Int)
    else if text == "(float)" then Some(Float)
    else if text == "(string)" then Some(Str)
    else None
  }

  function DigitChar(d: nat): (c: char)
    requires d < 10
    ensures '0' <= c <= '9'
    ensures c as int - '0' as int == d
  {
    (48 + d) as char
  }

  predicate IsDigit(c: char) { '0' <= c <= '9' }

  function DigitValue(c: char): (d: nat)
    requires IsDigit(c)
    ensures d < 10
  {
    c as int - '0' as int
  }

  /** The elements of `s` last first. */
  function Reversed<T>(s: seq<T>): (r: seq<T>)
    ensures |r| == |s|
    ensures forall k :: 0 <= k < |s| ==> r[k] == s[|s| - 1 - k]
  {
    if s == [] then [] else [s[|s| - 1]] + Reversed(s[..|s| - 1])
  }

  /** Decimal text of a natural number, most significant digit first (`u64::to_string`). */
  function NatText(n: nat): (s: string)
    ensures |s| >= 1
    ensures forall k :: 0 <= k < |s| ==> IsDigit(s[k])
    ensures |s| > 1 ==> s[0] != '0'
    decreases n
  {
    if n < 10 then [DigitChar(n)] else NatText(n / 10) + [DigitChar(n % 10)]
  }

  /** Value of a digit string read most significant first. */
  function DigitsValue(s: string): nat
    requires forall k :: 0 <= k < |s| ==> IsDigit(s[k])
  {
    if s == [] then 0
    else 10 * DigitsValue(s[..|s| - 1]) + DigitValue(s[|s| - 1])
  }

  /** Reading back the rendered number gives the number: distinct numbers render differently. */
  lemma {:induction false} NatTextRoundTrip(n: nat)
    ensures DigitsValue(NatText(n)) == n
    decreases n
  {
    if n >= 10 {
      NatTextRoundTrip(n / 10);
      var s := NatText(n);
      assert s[..|s| - 1] == NatText(n / 10);
    }
  }

  lemma NatTextInjective(m: nat, n: nat)
    ensures NatText(m) == NatText(n) ==> m == n
  {
    NatTextRoundTrip(m);
    NatTextRoundTrip(n);
  }
}
