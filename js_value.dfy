/** The JavaScript values the episode handlers read and write: what
    `JSON.parse` of a request body or a Lambda event can produce, restricted
    to integers for numbers, plus the two conversions the handlers rely on,
    truthiness (the test behind `x && {...}` spreads) and string conversion
    (template literals such as `${value}`). */
module JsValue {

  datatype Option<T> = None | Some(value: T)

  /** The outcome of evaluating a JavaScript expression: a value, or an
      exception identified by its `name` (`TypeError`, ...). */
  datatype Result<T> = Ok(value: T) | Throw(error: string)

  datatype Value =
    | Undefined
    | Null
    | Bool(b: bool)
    | Int(n: int)
    | Str(s: string)
      /** A plain object as the list of its own properties in insertion
          order, the order `Object.entries` reports them in. */
    | Obj(fields: seq<(string, Value)>)

  type Entries = seq<(string, Value)>

  /** `null` and `undefined`: reading a property of one throws a TypeError. */
  predicate Nullish(v: Value) {
    v.Undefined? || v.Null?
  }

  /** ECMAScript ToBoolean: `undefined`, `null`, `false`, `0` and `""` are
      falsy, every object is truthy. */
  predicate Truthy(v: Value)
    ensures Truthy(v) ==> !Nullish(v)
    ensures v.Obj? ==> Truthy(v)
  {
    match v
    case Undefined => false
    case Null => false
    case Bool(b) => b
    case Int(n) => n != 0
    case Str(s) => s != ""
    case Obj(_) => true
  }

  /** ECMAScript ToString, as a template literal `${v}` applies it to a
      value whose conversion returns; an object gets the text of the
      inherited `Object.prototype.toString`. */
  function ToStr(v: Value): (s: string)
    ensures v.Int? ==> ParseInt(s) == v.n
    ensures v.Str? ==> s == v.s
  {
    match v
    case Undefined => "undefined"
    case Null => "null"
    case Bool(b) => if b then "true" else "false"
    case Int(n) => IntToDecimalRoundTrip(n); IntToDecimal(n)
    case Str(s) => s
    case Obj(_) => "[object Object]"
  }

  /** The values ToBoolean maps to `false`. */
  lemma FalsyValues(v: Value)
    ensures !Truthy(v) <==> v == Undefined || v == Null || v == Bool(false) || v == Int(0) || v == Str("")
  {
  }

  predicate IsDigit(c: char) {
    '0' <= c <= '9'
  }

  function Digit(d: nat): (c: char)
    requires d < 10
    ensures IsDigit(c)
  {
    (48 + d) as char
  }

  function DigitValue(c: char): int {
    c as int - 48
  }

  /** Shortest decimal numeral of a natural number. */
  function NatToDecimal(n: nat): string {
    if n < 10 then [Digit(n)] else NatToDecimal(n / 10) + [Digit(n % 10)]
  }

  /** A numeral is a non-empty string of digits without a leading zero. */
  lemma {:induction false} NatToDecimalIsNumeral(n: nat)
    ensures var s := NatToDecimal(n);
      && |s| > 0
      && (forall i :: 0 <= i < |s| ==> IsDigit(s[i]))
      && (s[0] == '0' ==> n == 0 && |s| == 1)
  {
    if n >= 10 {
      NatToDecimalIsNumeral(n / 10);
    }
  }

  /** Number-to-string conversion of an integer: a minus sign for negative
      values, then the decimal numeral of the magnitude. */
  function IntToDecimal(n: int): (s: string)
    ensures |s| > 0 && (s[0] == '-' <==> n < 0)
    ensures forall i :: (if n < 0 then 1 else 0) <= i < |s| ==> IsDigit(s[i])
  {
    if n < 0 then
      NatToDecimalIsNumeral(-n);
      var s := "-" + NatToDecimal(-n);
      assert forall i :: 1 <= i < |s| ==> s[i] == NatToDecimal(-n)[i - 1];
      s
    else
      NatToDecimalIsNumeral(n);
      NatToDecimal(n)
  }

  /** Value of a numeral, read from its last digit backwards. */
  function ParseNat(s: string): int {
    if s == [] then 0 else 10 * ParseNat(s[..|s| - 1]) + DigitValue(s[|s| - 1])
  }

  /** Value of an optionally signed numeral. */
  function ParseInt(s: string): int {
    if |s| > 0 && s[0] == '-' then -ParseNat(s[1..]) else ParseNat(s)
  }

  lemma {:induction false} NatToDecimalRoundTrip(n: nat)
    ensures ParseNat(NatToDecimal(n)) == n
  {
    if n >= 10 {
      var s := NatToDecimal(n / 10) + [Digit(n % 10)];
      assert s[..|s| - 1] == NatToDecimal(n / 10);
      NatToDecimalRoundTrip(n / 10);
    }
  }

  /** The string form of an integer determines the integer. */
  lemma IntToDecimalRoundTrip(n: int)
    ensures ParseInt(IntToDecimal(n)) == n
  {
    if n < 0 {
      SignedParse(NatToDecimal(-n));
      NatToDecimalRoundTrip(-n);
    } else {
      NatToDecimalIsNumeral(n);
      UnsignedParse(NatToDecimal(n));
      NatToDecimalRoundTrip(n);
    }
  }

  lemma SignedParse(s: string)
    ensures ParseInt("-" + s) == -ParseNat(s)
  {
    assert ("-" + s)[0] == '-' && ("-" + s)[1..] == s;
  }

  lemma UnsignedParse(s: string)
    requires |s| > 0 && IsDigit(s[0])
    ensures ParseInt(s) == ParseNat(s)
  {
  }

  /** Distinct integers have distinct string forms. */
  lemma ToStrIntInjective(a: int, b: int)
    ensures ToStr(Int(a)) == ToStr(Int(b)) ==> a == b
  {
    IntToDecimalRoundTrip(a);
    IntToDecimalRoundTrip(b);
  }
}
