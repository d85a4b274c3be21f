/**
 * `validateRetryCount(retryCount = 0)`: the command-line retry count, checked and
 * normalised before a data client is built with it. It rejects with a plain
 * string, not an error object.
 */
module Validators {
  import opened Results
  import opened Js

  /** The runtime value handed in: what the command-line parser can produce. */
  datatype JsValue = Undefined | Null | Bool(b: bool) | Number(n: JsNumber) | Str(s: string) | Object

  /** JavaScript truthiness. */
  predicate Truthy(v: JsValue) {
    match v
    case Undefined => false
    case Null => false
    case Bool(b) => b
    case Number(n) => n.Int? && n.value != 0
    case Str(s) => s != []
    case Object => true
  }

  /** lodash `isNumber`: true for every number, NaN included. */
  predicate IsNumber(v: JsValue) { v.Number? }

  const NotANumber := "Retry count must be a number"
  const OutOfRange := "Out of range"

  /** The value after the default parameter, `true` to 3, and `parseInt` of a string. */
  function Normalised(retryCount: JsValue): JsValue {
    var v0 := if retryCount.Undefined? then Number(Int(0)) else retryCount;
    var v1 := if Truthy(v0) && v0 == Bool(true) then Number(Int(3)) else v0;
    if v1.Str? then Number(ParseInt(v1.s)) else v1
  }

  /**
   * The source as written: after normalisation a non-number rejects, a number
   * below 0 or above 5 rejects, and anything else resolves. NaN compares false
   * with both bounds, so it resolves.
   */
  function ValidateRetryCountAsWritten(retryCount: JsValue): (r: Result<JsNumber, string>)
    ensures r.Err? ==> r.error == NotANumber || r.error == OutOfRange
  {
    var v := Normalised(retryCount);
    if !IsNumber(v) then Err(NotANumber)
    else match v.n
      case NaN => Ok(NaN)
      case Int(x) => if x < 0 || x > 5 then Err(OutOfRange) else Ok(Int(x))
  }

  /**
   * The evident intent: a value that does not read as a number is rejected as
   * not a number, NaN included; the rest is as written.
   */
  function ValidateRetryCount(retryCount: JsValue): (r: Result<JsNumber, string>)
    ensures r.Ok? ==> r.value.Int? && 0 <= r.value.value <= 5
  {
    var v := Normalised(retryCount);
    if !IsNumber(v) || v.n.NaN? then Err(NotANumber)
    else if v.n.value < 0 || v.n.value > 5 then Err(OutOfRange)
    else Ok(v.n)
  }

  /** `true` means the default of three retries. */
  lemma TrueMeansThree()
    ensures ValidateRetryCountAsWritten(Bool(true)) == Ok(Int(3))
    ensures ValidateRetryCount(Bool(true)) == Ok(Int(3))
  {
  }

  /** An omitted count is 0, as is an explicit 0. */
  lemma UndefinedMeansZero()
    ensures ValidateRetryCountAsWritten(Undefined) == Ok(Int(0))
    ensures ValidateRetryCountAsWritten(Number(Int(0))) == Ok(Int(0))
    ensures ValidateRetryCount(Undefined) == Ok(Int(0))
  {
  }

  /** A number is returned unchanged when it lies in [0, 5] and rejected as out of range otherwise. */
  lemma NumbersInRange(x: int)
    ensures 0 <= x <= 5 ==> ValidateRetryCountAsWritten(Number(Int(x))) == Ok(Int(x))
    ensures (x < 0 || x > 5) ==> ValidateRetryCountAsWritten(Number(Int(x))) == Err(OutOfRange)
    ensures ValidateRetryCount(Number(Int(x))) == ValidateRetryCountAsWritten(Number(Int(x)))
  {
  }

  /** A string of digits is read in base 10 and then range-checked like a number. */
  lemma DigitStrings(n: nat)
    ensures ValidateRetryCountAsWritten(Str(NatToString(n))) == ValidateRetryCountAsWritten(Number(Int(n)))
    ensures ValidateRetryCount(Str(NatToString(n))) == ValidateRetryCount(Number(Int(n)))
  {
    ParseIntOfNatToString(n, []);
    assert Normalised(Str(NatToString(n))) == Number(Int(n));
  }

  /** `'3'` resolves 3 and `'7'` is out of range. */
  lemma TestedStrings()
    ensures ValidateRetryCountAsWritten(Str("3")) == Ok(Int(3))
    ensures ValidateRetryCountAsWritten(Str("7")) == Err(OutOfRange)
  {
    DigitStrings(3);
    DigitStrings(7);
    assert NatToString(3) == "3";
    assert NatToString(7) == "7";
  }

  /** A value that is neither a number nor a string nor `true` is not a number. */
  lemma NonNumbersRejected(v: JsValue)
    requires v == Bool(false) || v == Null || v == Object
    ensures ValidateRetryCountAsWritten(v) == Err(NotANumber)
    ensures ValidateRetryCount(v) == Err(NotANumber)
  {
  }

  /**
   * As written, a string `parseInt` cannot read passes as NaN: `'three'` resolves
   * NaN. The corrected check rejects it as not a number.
   */
  lemma NonNumericStringResolvesNaN(s: string)
    requires s != [] && !IsDigit(s[0]) && !IsJsWhiteSpace(s[0]) && s[0] != '-' && s[0] != '+'
    ensures ValidateRetryCountAsWritten(Str(s)) == Ok(NaN)
    ensures ValidateRetryCount(Str(s)) == Err(NotANumber)
  {
    ParseIntOfNonNumeric(s);
  }

  /** The correction changes only the NaN case: wherever the source resolves a number, so does it. */
  lemma CorrectionOnlyRejectsNaN(v: JsValue)
    ensures ValidateRetryCountAsWritten(v) != Ok(NaN) ==> ValidateRetryCount(v) == ValidateRetryCountAsWritten(v)
    ensures ValidateRetryCountAsWritten(v) == Ok(NaN) ==> ValidateRetryCount(v) == Err(NotANumber)
  {
  }
}
