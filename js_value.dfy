/** JavaScript values as the host sees them, the JavaScript operators the
    source relies on (`&&`, `||`, property access, `Object.keys`), and the
    errors a rejected promise carries. */
module Js {

  datatype Option<T> = None | Some(value: T)

  /** A value produced by `JSON.parse` or by the message decoder.  Numbers
      are integer-valued; `JObj` keeps its properties in `Object.keys`
      order. */
  datatype JsVal =
    | JUndefined
    | JNull
    | JBool(b: bool)
    | JNum(n: int)
    | JStr(s: string)
    | JArr(items: seq<JsVal>)
    | JObj(props: seq<(string, JsVal)>)

  /** The errors with which the modelled promises reject. */
  datatype Error =
    | TypeError(reason: string)
    | NotASubdirectory(dir: JsVal, base: JsVal)
    | NotAFile(file: JsVal)
    | MkdirFailed(path: string)
    | WriteFailed(path: string)
    | URIError(uri: string)

  datatype Result<T> = Ok(value: T) | Err(error: Error)

  datatype Outcome = Pass | Fail(error: Error)

  /** JavaScript truthiness. */
  predicate Truthy(v: JsVal) {
    match v
    case JUndefined => false
    case JNull => false
    case JBool(b) => b
    case JNum(n) => n != 0
    case JStr(s) => s != ""
    case _ => true
  }

  /** `a && b` */
  function And(a: JsVal, b: JsVal): JsVal {
    if Truthy(a) then b else a
  }

  /** `a || b` */
  function Or(a: JsVal, b: JsVal): JsVal {
    if Truthy(a) then a else b
  }

  /** The first property named `key`, or `undefined`. */
  function Lookup(props: seq<(string, JsVal)>, key: string): JsVal {
    if props == [] then JUndefined
    else if props[0].0 == key then props[0].1
    else Lookup(props[1..], key)
  }

  /** `v[key]` for a named (non-index) property. */
  function GetProp(v: JsVal, key: string): JsVal {
    match v
    case JObj(props) => Lookup(props, key)
    case _ => JUndefined
  }

  /** Assigns `key` in place when present, appends it otherwise. */
  function Assign(props: seq<(string, JsVal)>, key: string, x: JsVal): seq<(string, JsVal)> {
    if props == [] then [(key, x)]
    else if props[0].0 == key then [(key, x)] + props[1..]
    else [props[0]] + Assign(props[1..], key, x)
  }

  /** `v[key] = x` on an object; other values are left as they are. */
  function SetProp(v: JsVal, key: string, x: JsVal): JsVal {
    match v
    case JObj(props) => JObj(Assign(props, key, x))
    case _ => v
  }

  lemma {:induction false} AssignLookup(props: seq<(string, JsVal)>, key: string, x: JsVal, other: string)
    ensures Lookup(Assign(props, key, x), key) == x
    ensures other != key ==> Lookup(Assign(props, key, x), other) == Lookup(props, other)
  {
    if props != [] && props[0].0 != key {
      AssignLookup(props[1..], key, x, other);
      assert Assign(props, key, x)[1..] == Assign(props[1..], key, x);
    }
  }

  /** Assigning a property makes it read back, and leaves every other
      property as it was. */
  lemma SetPropGet(v: JsVal, key: string, x: JsVal, other: string)
    requires v.JObj?
    ensures GetProp(SetProp(v, key, x), key) == x
    ensures other != key ==> GetProp(SetProp(v, key, x), other) == GetProp(v, other)
  {
    AssignLookup(v.props, key, x, other);
  }

  predicate IsDigit(c: char) {
    '0' <= c <= '9'
  }

  /** A canonical decimal numeral: digits only, no leading zero. */
  predicate IsDecimal(s: string) {
    |s| > 0 && (forall i :: 0 <= i < |s| ==> IsDigit(s[i])) && (|s| > 1 ==> s[0] != '0')
  }

  function Digit(d: nat): (c: char)
    requires d < 10
    ensures IsDigit(c) && c as int - '0' as int == d
  {
    ('0' as int + d) as char
  }

  /** `${n}` for a non-negative integer below 10^21. */
  function Decimal(n: nat): (r: string)
    ensures IsDecimal(r)
    ensures n < 10 <==> |r| == 1
  {
    if n < 10 then [Digit(n)] else Decimal(n / 10) + [Digit(n % 10)]
  }

  /** The number a string of digits denotes. */
  function DecimalValue(s: string): int
    requires forall i :: 0 <= i < |s| ==> IsDigit(s[i])
  {
    if s == [] then 0 else DecimalValue(s[..|s| - 1]) * 10 + (s[|s| - 1] as int - '0' as int)
  }

  /** Reading back the decimal rendering of `n` gives `n`. */
  lemma {:induction false} DecimalRoundTrip(n: nat)
    ensures DecimalValue(Decimal(n)) == n
  {
    if n >= 10 {
      var d := Decimal(n / 10);
      DecimalRoundTrip(n / 10);
      assert (d + [Digit(n % 10)])[..|d|] == d;
    }
  }

  /** Two different numbers never render alike. */
  lemma DecimalInjective(a: nat, b: nat)
    requires Decimal(a) == Decimal(b)
    ensures a == b
  {
    DecimalRoundTrip(a);
    DecimalRoundTrip(b);
  }

  /** `Object.keys(v)` paired with the values: an object's own properties,
      the indices of an array or of a string's characters, nothing for
      other primitives. */
  function OwnEntries(v: JsVal): seq<(string, JsVal)>
  {
    match v
    case JObj(props) => props
    case JArr(items) => seq(|items|, i requires 0 <= i < |items| => (Decimal(i), items[i]))
    case JStr(s) => seq(|s|, i requires 0 <= i < |s| => (Decimal(i), JStr([s[i]])))
    case _ => []
  }
}
