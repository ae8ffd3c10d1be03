/** JavaScript values as the request handlers see them, and the handful of
    JavaScript operations the handlers apply to them: truthiness and `||`,
    property access, and `Object.entries`. */
module Js {

  datatype Option<+T> = None | Some(value: T)

  /** A value parsed from a JSON request body, or `undefined` for a property
      that is not there. Numbers are integers. */
  datatype Value =
    | Undefined
    | Null
    | Bool(b: bool)
    | Num(n: int)
    | Str(s: string)
    | Arr(items: seq<Value>)
    | Obj(props: map<string, Value>)

  /** The values `!v` is true of (NaN and -0 are not integers, so they are not here). */
  predicate Falsy(v: Value) {
    v == Undefined || v == Null || v == Bool(false) || v == Num(0) || v == Str("")
  }

  /** `v || d` */
  function Or(v: Value, d: Value): Value {
    if Falsy(v) then d else v
  }

  /** `typeof v === 'object'` */
  predicate IsObject(v: Value) {
    v.Null? || v.Arr? || v.Obj?
  }

  /** A destructured field of a request body: `const { k } = body`. */
  function Get(body: map<string, Value>, k: string): Value {
    if k in body then body[k] else Undefined
  }

  /** `v.k` for a key that names no built-in property (the handlers only read
      column names). `None` is the TypeError thrown when `v` is null or undefined. */
  function Prop(v: Value, k: string): Option<Value> {
    match v
    case Undefined => None
    case Null => None
    case Obj(props) => Some(if k in props then props[k] else Undefined)
    case _ => Some(Undefined)
  }

  /** `Object.entries(v)` as a map from key to value. `None` is the TypeError
      thrown for null and undefined; arrays and strings are keyed by index,
      numbers and booleans have no entries. */
  function Entries(v: Value): Option<map<string, Value>> {
    match v
    case Undefined => None
    case Null => None
    case Obj(props) => Some(props)
    case Arr(items) => Some(Indexed(items))
    case Str(s) => Some(Indexed(Chars(s)))
    case _ => Some(map[])
  }

  /** The one-character strings of `s`, one per code point; JavaScript
      splits a string into UTF-16 code units instead. */
  function Chars(s: string): (r: seq<Value>)
    ensures |r| == |s|
  {
    seq(|s|, i requires 0 <= i < |s| => Str([s[i]]))
  }

  /** Index keys `"0"`, `"1"`, … mapped to the elements of `xs`. */
  function Indexed(xs: seq<Value>): map<string, Value>
    decreases |xs|
  {
    if xs == [] then map[]
    else Indexed(xs[..|xs| - 1])[NatText(|xs| - 1) := xs[|xs| - 1]]
  }

  /** The decimal text of `n`, as `String(n)` writes it. */
  function NatText(n: nat): (r: string)
    ensures |r| > 0
    decreases n
  {
    if n < 10 then [Digit(n)] else NatText(n / 10) + [Digit(n % 10)]
  }

  function Digit(d: nat): char
    requires d < 10
  {
    "0123456789"[d]
  }

  /** The decimal text of an integer, with a leading `-` when negative. */
  function IntText(n: int): string {
    if n < 0 then "-" + NatText(-n) else NatText(n)
  }
}
