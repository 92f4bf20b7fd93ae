/**
 * The JSON values a request body carries, with the JavaScript conversions
 * the handlers apply to them: truthiness, `Number(v)` and Mongoose's
 * `ObjectId.isValid`.
 */
module Js {
  import opened Wrappers
  import opened Text

  /** A request body field; `Undefined` is a missing key. */
  datatype Value =
    | Undefined
    | Null
    | Bool(b: bool)
    | Num(x: real)
    | Str(s: string)
    | Arr(items: seq<Value>)
    | Obj

  /** `!v`. */
  predicate Falsy(v: Value) {
    match v
    case Undefined => true
    case Null => true
    case Bool(b) => !b
    case Num(x) => x == 0.0
    case Str(s) => s == []
    case Arr(_) => false
    case Obj => false
  }

  predicate IsDigit(c: char) { '0' <= c <= '9' }

  predicate AllDigits(s: string) {
    forall i :: 0 <= i < |s| ==> IsDigit(s[i])
  }

  /** The value of a string of decimal digits. */
  function DigitsValue(s: string): (r: nat)
    requires AllDigits(s)
    decreases |s|
  {
    if s == [] then 0 else DigitsValue(s[..|s| - 1]) * 10 + (s[|s| - 1] as int - '0' as int)
  }

  /** The value of the digits after a decimal point, `0.d1d2…`. */
  function Fraction(s: string): (r: real)
    requires AllDigits(s)
    ensures 0.0 <= r < 1.0
  {
    if s == [] then 0.0 else ((s[0] as int - '0' as int) as real + Fraction(s[1..])) / 10.0
  }

  /** The first index of `c` in `s`, or `|s|`. */
  function IndexOf(s: string, c: char): (r: nat)
    ensures r <= |s|
    ensures forall i :: 0 <= i < r ==> s[i] != c
    ensures r < |s| ==> s[r] == c
  {
    if s == [] then 0 else if s[0] == c then 0 else 1 + IndexOf(s[1..], c)
  }

  /** An unsigned decimal literal `digits[.digits]` with at least one digit. */
  function UnsignedDecimal(s: string): (r: Option<real>)
    ensures r.Some? ==> r.value >= 0.0
  {
    var p := IndexOf(s, '.');
    var whole, frac := s[..p], if p < |s| then s[p + 1..] else [];
    if AllDigits(whole) && AllDigits(frac) && |whole| + |frac| > 0
    then
      Some(DigitsValue(whole) as real + Fraction(frac))
    else None
  }

  /**
   * `Number(s)` for a string: white space trimmed, the empty string is 0,
   * otherwise an optionally signed decimal literal; None stands for NaN.
   */
  function StringToNumber(s: string): Option<real> {
    var t := Trim(s);
    if t == [] then Some(0.0)
    else if t[0] == '-' then
      match UnsignedDecimal(t[1..])
      case Some(x) => Some(-x)
      case None => None
    else if t[0] == '+' then UnsignedDecimal(t[1..])
    else UnsignedDecimal(t)
  }

  /** `Number(v)`; None stands for NaN. */
  function ToNumber(v: Value): Option<real> {
    match v
    case Undefined => None
    case Null => Some(0.0)
    case Bool(b) => Some(if b then 1.0 else 0.0)
    case Num(x) => Some(x)
    case Str(s) => StringToNumber(s)
    case Arr(items) =>
      if items == [] then Some(0.0)
      else if |items| == 1 then
        match items[0]
        case Num(x) => Some(x)
        case Str(s) => StringToNumber(s)
        case Null => Some(0.0)
        case Undefined => Some(0.0)
        case _ => None
      else None
    case Obj => None
  }

  /** The decimal digits of `n`, without leading zeros. */
  function Decimal(n: nat): (r: string)
    ensures AllDigits(r) && |r| > 0
    decreases n
  {
    if n < 10 then [('0' as int + n) as char] else Decimal(n / 10) + [('0' as int + n % 10) as char]
  }

  lemma {:induction false} DecimalValue(n: nat)
    ensures DigitsValue(Decimal(n)) == n
    decreases n
  {
    if n >= 10 {
      DecimalValue(n / 10);
      var d := Decimal(n);
      assert d[..|d| - 1] == Decimal(n / 10);
    }
  }

  lemma UnsignedDecimalOf(n: nat)
    ensures UnsignedDecimal(Decimal(n)) == Some(n as real)
  {
    var d := Decimal(n);
    DecimalValue(n);
    assert IndexOf(d, '.') == |d|;
    assert d[..|d|] == d;
  }

  /** A whole number written out in decimal reads back as itself. */
  lemma NumberOfDecimal(n: nat)
    ensures ToNumber(Str(Decimal(n))) == Some(n as real)
  {
    var d := Decimal(n);
    UnsignedDecimalOf(n);
    DigitsNotSpace(d);
    TrimKeepsTrimmed(d);
    assert StringToNumber(d) == UnsignedDecimal(d);
  }

  lemma DigitsNotSpace(d: string)
    requires AllDigits(d) && |d| > 0
    ensures !IsSpace(d[0]) && !IsSpace(d[|d| - 1]) && d[0] != '-' && d[0] != '+'
  {
    assert IsDigit(d[0]) && IsDigit(d[|d| - 1]);
  }

  /** So does its negation. */
  lemma NumberOfNegativeDecimal(n: nat)
    ensures ToNumber(Str("-" + Decimal(n))) == Some(-(n as real))
  {
    var d := Decimal(n);
    var m := "-" + d;
    UnsignedDecimalOf(n);
    DigitsNotSpace(d);
    assert m[1..] == d && m[|m| - 1] == d[|d| - 1];
    TrimKeepsTrimmed(m);
    assert StringToNumber(m) == Some(-(n as real));
  }

  predicate IsHex(c: char) {
    IsDigit(c) || 'a' <= c <= 'f' || 'A' <= c <= 'F'
  }

  /** `mongoose.Types.ObjectId.isValid(s)` for a string: 24 hex digits, or any 12 characters. */
  predicate ValidObjectIdString(s: string) {
    (|s| == 24 && forall i :: 0 <= i < 24 ==> IsHex(s[i])) || |s| == 12
  }

  /** `mongoose.Types.ObjectId.isValid(v)` for a body value. */
  predicate ValidObjectId(v: Value) {
    match v
    case Str(s) => ValidObjectIdString(s)
    case Num(x) => x.Floor as real == x && x >= 0.0
    case _ => false
  }

  /** What `if (!v || !v.trim())` followed by `v.trim()` makes of a required text field. */
  datatype Required = Blank | Crash | Present(text: string)

  function RequiredText(v: Value): (r: Required)
    ensures r == Blank <==> Falsy(v) || (v.Str? && Trim(v.s) == [])
    ensures r == Crash <==> !Falsy(v) && !v.Str?
    ensures r.Present? ==> v.Str? && r.text == Trim(v.s)
  {
    if Falsy(v) then Blank
    else if !v.Str? then Crash
    else if Trim(v.s) == [] then Blank
    else Present(Trim(v.s))
  }

  /** Accepted text is non-blank and already trimmed. */
  lemma PresentIsTrimmed(v: Value)
    requires RequiredText(v).Present?
    ensures var t := RequiredText(v).text; t != [] && Trim(t) == t && !IsSpace(t[0]) && !IsSpace(t[|t| - 1])
  {
    TrimIdempotent(v.s);
  }

  /** `String(v)` for a value that passed `isValidObjectId`. */
  function IdText(v: Value): string
    requires ValidObjectId(v)
  {
    if v.Str? then v.s else Decimal(v.x.Floor)
  }
}
