/**
 * JavaScript values as the watchdog script sees them: what `JSON.parse` hands
 * back, what a property read yields, and the three JavaScript operations the
 * script applies to them (truthiness, strict equality, numeric and string
 * coercion).
 */
module JsValues {
  import opened Wrappers

  /** A JavaScript value. Numbers are integers (timestamps and minute counts);
      `JObj` is a plain object whose absent properties read as `JUndef`. */
  datatype JValue =
    | JUndef
    | JNull
    | JBool(b: bool)
    | JNum(n: int)
    | JStr(s: string)
    | JArr(items: seq<JValue>)
    | JObj(fields: map<string, JValue>)

  /** JavaScript truthiness (`if (v)`, `!v`, `a && b`). */
  predicate Truthy(v: JValue) {
    match v
    case JUndef => false
    case JNull => false
    case JBool(b) => b
    case JNum(n) => n != 0
    case JStr(s) => s != ""
    case JArr(_) => true
    case JObj(_) => true
  }

  /** JavaScript `===`. Primitives compare by value; arrays and objects compare by
      reference, and every array or object node produced by `JSON.parse` is a
      fresh reference, so two of them are never `===`. */
  predicate StrictEq(a: JValue, b: JValue) {
    match (a, b)
    case (JUndef, JUndef) => true
    case (JNull, JNull) => true
    case (JBool(x), JBool(y)) => x == y
    case (JNum(x), JNum(y)) => x == y
    case (JStr(x), JStr(y)) => x == y
    case _ => false
  }

  /** Property read `v.name` for the property names the script uses, none of which
      exists on a prototype: only an object's own field is found. */
  function Prop(v: JValue, name: string): (r: JValue)
    ensures !v.JObj? ==> r == JUndef
    ensures v.JObj? && name !in v.fields ==> r == JUndef
  {
    if v.JObj? && name in v.fields then v.fields[name] else JUndef
  }

  predicate IsDigit(c: char) {
    '0' <= c <= '9'
  }

  predicate AllDigits(s: string) {
    forall i :: 0 <= i < |s| ==> IsDigit(s[i])
  }

  function DigitChar(d: nat): (c: char)
    requires d < 10
    ensures IsDigit(c) && c as int - '0' as int == d
  {
    (('0' as int) + d) as char
  }

  /** The value of a run of decimal digits. */
  function DigitsValue(s: string): nat
    requires AllDigits(s)
    decreases |s|
  {
    if s == [] then 0 else DigitsValue(s[..|s| - 1]) * 10 + (s[|s| - 1] as int - '0' as int)
  }

  /** Decimal rendering of a non-negative integer, as `String(n)` produces it. */
  function NatToDecimal(n: nat): (r: string)
    ensures r != [] && AllDigits(r)
    ensures |r| > 1 ==> r[0] != '0'
    decreases n
  {
    if n < 10 then [DigitChar(n)] else NatToDecimal(n / 10) + [DigitChar(n % 10)]
  }

  /** Reading back a rendered natural number gives the number. */
  lemma {:induction false} DecimalRoundTrip(n: nat)
    ensures DigitsValue(NatToDecimal(n)) == n
    decreases n
  {
    if n >= 10 {
      DecimalRoundTrip(n / 10);
      var s := NatToDecimal(n);
      assert s[..|s| - 1] == NatToDecimal(n / 10);
    }
  }

  /** Decimal rendering of an integer, with a leading '-' when negative. */
  function IntToDecimal(n: int): (r: string)
    ensures r != []
  {
    if n < 0 then "-" + NatToDecimal(-n) else NatToDecimal(n)
  }

  /** `Number(s)` for the strings the model distinguishes: the empty string is 0,
      an optionally signed run of decimal digits is its value, anything else is
      `NaN` (`None`). */
  function StringToNumber(s: string): (r: Option<int>)
    ensures AllDigits(s) ==> r.Some?
    ensures s != [] && !IsDigit(s[0]) && s[0] != '-' && s[0] != '+' ==> r == None
  {
    if s == [] then Some(0)
    else if (s[0] == '-' || s[0] == '+') && |s| > 1 && AllDigits(s[1..]) then
      var magnitude: int := DigitsValue(s[1..]);
      Some(if s[0] == '-' then -magnitude else magnitude)
    else if AllDigits(s) then Some(DigitsValue(s))
    else None
  }

  /** Converting a rendered integer back to a number gives the integer. */
  lemma NumberOfDecimal(n: int)
    ensures StringToNumber(IntToDecimal(n)) == Some(n)
  {
    if n < 0 {
      DecimalRoundTrip(-n);
      var s := IntToDecimal(n);
      assert s[1..] == NatToDecimal(-n);
    } else {
      DecimalRoundTrip(n);
    }
  }

  /** The outcome of a JavaScript operation that may throw: its value, or the
      `TypeError` that the enclosing `try` catches. */
  datatype Completion<+T> = Normal(value: T) | TypeError

  /** Whether converting `v` to a primitive throws. Values from `JSON.parse`
      carry no callable property, so an object's own `toString` field hides the
      inherited method while `valueOf` returns the object itself, and the
      conversion ends in a `TypeError`; an array converts through `join`, which
      converts each element in turn. */
  predicate ConversionThrows(v: JValue)
    decreases v
  {
    match v
    case JObj(fields) => "toString" in fields
    case JArr(items) => exists i :: 0 <= i < |items| && ConversionThrows(items[i])
    case _ => false
  }

  /** JavaScript string conversion (a template-literal hole `${v}`). */
  function ToStr(v: JValue): (r: Completion<string>)
    ensures r.TypeError? <==> ConversionThrows(v)
    ensures v.JStr? ==> r == Normal(v.s)
    ensures v.JNum? ==> r == Normal(IntToDecimal(v.n))
    decreases v
  {
    match v
    case JUndef => Normal("undefined")
    case JNull => Normal("null")
    case JBool(b) => Normal(if b then "true" else "false")
    case JNum(n) => Normal(IntToDecimal(n))
    case JStr(s) => Normal(s)
    case JArr(items) => JoinItems(items)
    case JObj(fields) => if "toString" in fields then TypeError else Normal("[object Object]")
  }

  /** `Array.prototype.join(',')`: null and undefined elements render as empty,
      and the first element whose conversion throws ends the join. */
  function JoinItems(items: seq<JValue>): (r: Completion<string>)
    ensures r.TypeError? <==> exists i :: 0 <= i < |items| && ConversionThrows(items[i])
    decreases items
  {
    if items == [] then Normal("")
    else
      var first := if items[0].JUndef? || items[0].JNull? then Normal("") else ToStr(items[0]);
      if first.TypeError? then TypeError
      else if |items| == 1 then first
      else
        match JoinItems(items[1..])
        case TypeError =>
          assert forall i :: 0 < i < |items| ==> items[i] == items[1..][i - 1];
          TypeError
        case Normal(rest) =>
          assert forall i :: 0 < i < |items| ==> items[i] == items[1..][i - 1];
          Normal(first.value + "," + rest)
  }

  /** JavaScript numeric coercion (the operand of binary `-`): objects and arrays
      convert through their string form. `Normal(None)` is `NaN`. */
  function ToNumber(v: JValue): (r: Completion<Option<int>>)
    ensures r.TypeError? <==> ConversionThrows(v)
    ensures v.JNum? ==> r == Normal(Some(v.n))
    ensures v.JUndef? ==> r == Normal(None)
    ensures v.JObj? && !ConversionThrows(v) ==> r == Normal(None)
  {
    match v
    case JUndef => Normal(None)
    case JNull => Normal(Some(0))
    case JBool(b) => Normal(Some(if b then 1 else 0))
    case JNum(n) => Normal(Some(n))
    case JStr(s) => Normal(StringToNumber(s))
    case _ =>
      match ToStr(v)
      case TypeError => TypeError
      case Normal(s) => Normal(StringToNumber(s))
  }

  /** A number written as decimal text, or wrapped in a one-element array,
      converts back to the number. */
  lemma RenderedNumberToNumber(n: int)
    ensures ToNumber(JStr(IntToDecimal(n))) == Normal(Some(n))
    ensures ToNumber(JArr([JNum(n)])) == Normal(Some(n))
  {
    NumberOfDecimal(n);
    assert JoinItems([JNum(n)]) == Normal(IntToDecimal(n));
  }
}
