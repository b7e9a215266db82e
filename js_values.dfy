/**
 * The scalar JavaScript values a user record or a search criterion can hold,
 * property lookup on a record (a missing property reads as `undefined`), and
 * the text `Array.prototype.join` writes for one element.
 */
module JsValues {

  /** A JSON-like scalar. Numbers are integers; strict equality (`===`) on
      these values is structural equality. */
  datatype Value = Undefined | Null | Bool(b: bool) | Num(n: int) | Str(s: string)

  /** An object with string keys, such as one fetched user record. */
  type Record = map<string, Value>

  /** `record[key]` for an own property: the stored value, or `undefined`
      when the record has no own property of that name. */
  function Get(record: Record, key: string): Value
  {
    if key in record then record[key] else Undefined
  }

  function DigitChar(d: nat): (c: char)
    requires d < 10
    ensures '0' <= c <= '9'
  {
    "0123456789"[d]
  }

  /** Decimal notation of a natural number, without leading zeros. */
  function NatToDecimal(n: nat): (s: string)
    ensures 1 <= |s|
    ensures forall i :: 0 <= i < |s| ==> '0' <= s[i] <= '9'
    decreases n
  {
    if n < 10 then [DigitChar(n)] else NatToDecimal(n / 10) + [DigitChar(n % 10)]
  }

  /** `String(n)` for an integral number. */
  function IntToDecimal(n: int): string
  {
    if n < 0 then "-" + NatToDecimal(-n) else NatToDecimal(n)
  }

  /** The text `join` writes for one element: `undefined` and `null` become the
      empty string, every other value its `String(...)` conversion. */
  function JoinText(v: Value): string
  {
    match v
    case Undefined => ""
    case Null => ""
    case Bool(b) => if b then "true" else "false"
    case Num(n) => IntToDecimal(n)
    case Str(s) => s
  }
}
