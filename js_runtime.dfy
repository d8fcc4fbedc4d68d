/**
  The fragment of the JavaScript runtime that the download handler relies on:
  the values a JSON request body can hold, their truthiness (what `!x` tests),
  their conversion to a string (what `encodeURIComponent` does to its
  argument first), integer-to-decimal conversion (template literals), and the
  abrupt completions ("thrown errors") that the handler's `catch` turns into
  a 500 response.

  JavaScript strings are sequences of UTF-16 code units; only the request's
  reference needs that precision (a lone surrogate in it makes
  `encodeURIComponent` throw), so `JsValue` strings are `seq<CodeUnit>` while
  messages and decoded response bodies are Dafny strings.
 */
module JsRuntime {

  /** One byte of a Node.js Buffer. */
  newtype Byte = x: int | 0 <= x < 0x100

  /** One UTF-16 code unit of a JavaScript string. */
  newtype CodeUnit = x: int | 0 <= x < 0x1_0000

  datatype Option<+T> = None | Some(value: T)

  /** `Some(p + x)` when `o` is `Some(x)`; `None` stays `None`. */
  function PrependTo<T>(p: seq<T>, o: Option<seq<T>>): Option<seq<T>>
  {
    match o
    case None => None
    case Some(x) => Some(p + x)
  }

  /** A value that was thrown: an Error object carries a message; anything else does not. */
  datatype Fault = ErrorValue(message: string) | OtherValue

  /** The result of evaluating JavaScript code: a value, or a throw. */
  datatype Completion<+T> = Normal(value: T) | Threw(fault: Fault)

  /**
    A property or element the handler dereferences: missing (`undefined`),
    `null`, or a value of the declared type.
   */
  datatype Slot<+T> = Absent | Null | Present(value: T)

  /** A value produced by parsing a JSON text (plus `undefined`, the value of a missing property). */
  datatype JsValue =
    | Undefined
    | JsNull
    | Bool(b: bool)
    | Num(n: int)
    | Str(units: seq<CodeUnit>)
    | Arr(elements: seq<JsValue>)
    | Obj(fields: map<seq<CodeUnit>, JsValue>)

  /** The message the handler's `catch` reports for a thrown value (route.ts:119). */
  function CatchMessage(f: Fault): (m: string)
    ensures f.ErrorValue? ==> m == f.message
    ensures f.OtherValue? ==> m == "Internal server error"
  {
    match f
    case ErrorValue(msg) => msg
    case OtherValue => "Internal server error"
  }

  /** V8's message for reading property `prop` of `undefined` or `null`. */
  function ReadPropertyError<T>(base: Slot<T>, prop: string): (f: Fault)
    requires !base.Present?
    ensures f.ErrorValue?
  {
    ErrorValue("Cannot read properties of " + (if base.Null? then "null" else "undefined")
               + " (reading '" + prop + "')")
  }

  /** ToBoolean: the values `!x` accepts are exactly the falsy ones. */
  predicate Truthy(v: JsValue)
  {
    match v
    case Undefined => false
    case JsNull => false
    case Bool(b) => b
    case Num(n) => n != 0
    case Str(units) => |units| > 0
    case Arr(_) => true
    case Obj(_) => true
  }

  /** Exactly five JSON-representable values are falsy. */
  lemma FalsyValues(v: JsValue)
    ensures !Truthy(v) <==> v in {Undefined, JsNull, Bool(false), Num(0), Str([])}
  {
  }

  // ---------------------------------------------------------------------
  // Decimal text of an integer
  // ---------------------------------------------------------------------

  predicate IsDigit(c: char) { '0' <= c <= '9' }

  function DigitChar(d: int): (c: char)
    requires 0 <= d < 10
    ensures IsDigit(c) && c as int - '0' as int == d
  {
    "0123456789"[d]
  }

  /** The decimal digits of `n`, most significant first, without leading zeros. */
  function Digits(n: nat): (s: string)
    ensures |s| > 0 && forall i :: 0 <= i < |s| ==> IsDigit(s[i])
    ensures |s| > 1 ==> s[0] != '0'
  {
    if n < 10 then [DigitChar(n)] else Digits(n / 10) + [DigitChar(n % 10)]
  }

  /** The value a string of decimal digits denotes. */
  function DigitsValue(s: string): nat
    requires forall i :: 0 <= i < |s| ==> IsDigit(s[i])
  {
    if s == [] then 0
    else
      assert IsDigit(s[|s| - 1]);
      10 * DigitsValue(s[..|s| - 1]) + (s[|s| - 1] as int - '0' as int)
  }

  /** Reading the digits back gives the number: Digits is injective. */
  lemma {:induction false} DigitsRoundTrip(n: nat)
    ensures DigitsValue(Digits(n)) == n
  {
    if n >= 10 {
      DigitsRoundTrip(n / 10);
      var s := Digits(n);
      assert s[..|s| - 1] == Digits(n / 10);
    }
  }

  /**
    Number::toString for an integral number: a minus sign exactly when the
    number is negative, then digits without a leading zero that read back as
    its magnitude.
   */
  function Decimal(n: int): (s: string)
    ensures |s| > 0
    ensures (s[0] == '-') <==> n < 0
    ensures var d := if n < 0 then s[1..] else s;
      && |d| > 0
      && (forall i :: 0 <= i < |d| ==> IsDigit(d[i]))
      && (|d| > 1 ==> d[0] != '0')
      && DigitsValue(d) == (if n < 0 then -n else n)
  {
    var m := if n < 0 then -n else n;
    DigitsRoundTrip(m);
    if n < 0 then
      assert ("-" + Digits(m))[1..] == Digits(m);
      "-" + Digits(m)
    else Digits(n)
  }

  /** A text of ASCII characters as code units (every literal of the model is ASCII). */
  function Ascii(s: string): (u: seq<CodeUnit>)
    requires forall i :: 0 <= i < |s| ==> s[i] < 128 as char
    ensures |u| == |s| && forall i :: 0 <= i < |s| ==> u[i] as int == s[i] as int
  {
    seq(|s|, i requires 0 <= i < |s| => s[i] as int as CodeUnit)
  }

  function DecimalUnits(n: int): (u: seq<CodeUnit>)
    ensures |u| == |Decimal(n)| && forall i :: 0 <= i < |u| ==> u[i] as int == Decimal(n)[i] as int
  {
    var s := Decimal(n);
    assert forall i :: 0 <= i < |s| ==> s[i] == '-' || IsDigit(s[i]);
    Ascii(s)
  }

  // ---------------------------------------------------------------------
  // ToString
  // ---------------------------------------------------------------------

  const ToPrimitiveError := ErrorValue("Cannot convert object to primitive value")

  /** A size of a value that decreases into its elements. */
  function Size(v: JsValue): (n: nat)
    ensures n >= 1
  {
    match v
    case Arr(es) => 1 + SizeAll(es)
    case _ => 1
  }

  function SizeAll(es: seq<JsValue>): nat
  {
    if es == [] then 0 else Size(es[0]) + SizeAll(es[1..])
  }

  /**
    ToString of a JSON value. An object is "[object Object]" unless it has
    its own `toString` property: a parsed JSON value is never callable, so
    ToPrimitive then falls back to `valueOf`, which gives the object back,
    and the conversion throws. An array is its elements joined by ",", with
    `null` and `undefined` elements written as the empty string.
   */
  function ToJsString(v: JsValue): (r: Completion<seq<CodeUnit>>)
    decreases Size(v), 0
  {
    match v
    case Undefined => Normal(Ascii("undefined"))
    case JsNull => Normal(Ascii("null"))
    case Bool(b) => Normal(if b then Ascii("true") else Ascii("false"))
    case Num(n) => Normal(DecimalUnits(n))
    case Str(units) => Normal(units)
    case Arr(es) => JoinElements(es)
    case Obj(fields) =>
      if Ascii("toString") in fields then Threw(ToPrimitiveError) else Normal(Ascii("[object Object]"))
  }

  /** Array.prototype.join with separator ",", converting the elements in order. */
  function JoinElements(es: seq<JsValue>): (r: Completion<seq<CodeUnit>>)
    decreases SizeAll(es), 1
  {
    if es == [] then Normal([])
    else
      var head := if es[0].Undefined? || es[0].JsNull? then Normal([]) else ToJsString(es[0]);
      match head
      case Threw(f) => Threw(f)
      case Normal(first) =>
        if |es| == 1 then Normal(first)
        else
          match JoinElements(es[1..])
          case Threw(f) => Threw(f)
          case Normal(rest) => Normal(first + Ascii(",") + rest)
  }
}
