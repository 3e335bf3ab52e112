/** The few PHP runtime notions the logger relies on: loosely typed values,
    their conversion to strings and to booleans, and the array union `+`. */
module Php {

  /** The result of an `array_search`: an index, or PHP's `false`. */
  datatype Option<T> = None | Some(value: T)

  /** A PHP value as it can reach the logger through an options array or
      the arguments of a level call. Floats and objects are not modelled;
      array keys are always strings here. */
  datatype Value =
    | Null
    | Bool(b: bool)
    | Int(i: int)
    | Str(s: string)
    | Arr(entries: map<string, Value>)

  function Digit(d: nat): char
    requires d < 10
  {
    "0123456789"[d]
  }

  /** Decimal digits of a natural number, as PHP's int-to-string cast writes them. */
  function NatToString(n: nat): string
    decreases n
  {
    if n < 10 then [Digit(n)] else NatToString(n / 10) + [Digit(n % 10)]
  }

  function IntToString(i: int): string
  {
    if i < 0 then "-" + NatToString(-i) else NatToString(i)
  }

  /** PHP's conversion of a value to string: `null` and `false` give "",
      `true` gives "1", an array gives "Array". */
  function ToStr(v: Value): string
  {
    match v
    case Null => ""
    case Bool(b) => if b then "1" else ""
    case Int(i) => IntToString(i)
    case Str(s) => s
    case Arr(_) => "Array"
  }

  /** PHP's conversion of a value to boolean, as an `if` applies it. */
  predicate Truthy(v: Value)
  {
    match v
    case Null => false
    case Bool(b) => b
    case Int(i) => i != 0
    case Str(s) => s != "" && s != "0"
    case Arr(entries) => entries != map[]
  }

  /** PHP's array union `left + right`: every key of either side, with the
      left operand's value wherever both sides have the key. */
  function Union(left: map<string, Value>, right: map<string, Value>): (r: map<string, Value>)
    ensures r.Keys == left.Keys + right.Keys
    ensures forall k :: k in left ==> r[k] == left[k]
    ensures forall k :: k in right && k !in left ==> r[k] == right[k]
  {
    right + left
  }
}
