/**
 * The JavaScript values the modelled code inspects: decoded JSON bodies with
 * their truthiness, the `||` default operator, optional property reads
 * (`v?.key`), `parseInt(v, 10)` and the decimal text of an integer.
 */
module Js {
  import opened Text

  /** A value that `JSON.parse` can produce; numbers are kept to integers. */
  datatype JsValue =
    | Undefined
    | Null
    | Bool(b: bool)
    | Num(n: int)
    | Str(s: string)
    | Arr(elems: seq<JsValue>)
    | Obj(props: map<string, JsValue>)

  /** JavaScript truthiness: undefined, null, false, 0 and "" are falsy. */
  predicate Truthy(v: JsValue) {
    match v
    case Undefined => false
    case Null => false
    case Bool(b) => b
    case Num(n) => n != 0
    case Str(s) => s != ""
    case Arr(_) => true
    case Obj(_) => true
  }

  /** `a || b`: the left operand when it is truthy, otherwise the right one. */
  function Or(a: JsValue, b: JsValue): (r: JsValue)
    ensures Truthy(b) ==> Truthy(r)
    ensures Truthy(a) ==> r == a
    ensures !Truthy(a) ==> r == b
  {
    if Truthy(a) then a else b
  }

  /**
   * `v?.key` on a decoded JSON value: the own property of an object, and
   * `undefined` for anything else (none of the keys read in the modelled
   * code names a property of strings, numbers or arrays).
   */
  function Get(v: JsValue, key: string): JsValue {
    if v.Obj? && key in v.props then v.props[key] else Undefined
  }

  /** `String(v)` (or `${v}`) of a decoded JSON value. */
  function ToJsString(v: JsValue): string
    decreases v, 1
  {
    match v
    case Undefined => "undefined"
    case Null => "null"
    case Bool(b) => if b then "true" else "false"
    case Num(n) => DecimalString(n)
    case Str(s) => s
    case Arr(es) => ElementsString(es, v)
    case Obj(_) => "[object Object]"
  }

  /** `Array.prototype.join(",")` as `toString` uses it: null and undefined print as "". */
  function ElementsString(es: seq<JsValue>, ghost whole: JsValue): string
    requires forall e :: e in es ==> e < whole
    decreases whole, 0, |es|
  {
    if es == [] then ""
    else
      assert es[0] in es;
      assert forall e :: e in es[1..] ==> e in es;
      var first := if es[0].Undefined? || es[0].Null? then "" else ToJsString(es[0]);
      if |es| == 1 then first else first + "," + ElementsString(es[1..], whole)
  }

  // ----- numbers -----

  /** A Number as `parseInt` returns it (negative zero is read as 0). */
  datatype Number = NaN | Infinity(negative: bool) | Finite(value: int)

  /**
   * 2^1024 - 2^970: the least integer that rounds to Infinity when converted
   * to an IEEE 754 double (round to nearest, ties to even).
   */
  const OverflowThreshold: int := 179769313486231580793728971405303415079934132710037826936173778980444968292764750946649017977587207096330286416692887910946555547851940402630657488671505820681908902000708383676273854845817711531764475730270069855571366959622842914819860834936475292719074168444365510704342711559699508093042880177904174497792

  predicate IsDigit(c: char) {
    '0' <= c <= '9'
  }

  predicate AllDigits(s: string) {
    forall i :: 0 <= i < |s| ==> IsDigit(s[i])
  }

  function DigitChar(d: nat): (c: char)
    requires d < 10
    ensures IsDigit(c) && c as int - '0' as int == d
  {
    ('0' as int + d) as char
  }

  /** The longest prefix of `s` made of decimal digits. */
  function DigitPrefix(s: string): (d: string)
    ensures |d| <= |s| && d == s[..|d|] && AllDigits(d)
    ensures |d| == |s| || !IsDigit(s[|d|])
  {
    if s != [] && IsDigit(s[0]) then [s[0]] + DigitPrefix(s[1..]) else []
  }

  /** The value of a string of decimal digits, most significant first. */
  function DigitsValue(d: string): nat
    requires AllDigits(d)
  {
    if d == [] then 0 else DigitsValue(d[..|d| - 1]) * 10 + (d[|d| - 1] as int - '0' as int)
  }

  /**
   * `parseInt(s, 10)`: leading white space is skipped, one optional sign is
   * read, then the longest run of decimal digits; no digits gives NaN, and a
   * magnitude that does not fit a double gives an infinity.
   */
  function ParseInt(s: string): (n: Number)
  {
    var t := TrimStart(s);
    if t != [] && (t[0] == '-' || t[0] == '+') then ParseDigits(t[0] == '-', t[1..])
    else ParseDigits(false, t)
  }

  /** The digit run at the start of `unsigned`, read with the sign already seen. */
  function ParseDigits(negative: bool, unsigned: string): (n: Number)
  {
    var digits := DigitPrefix(unsigned);
    if digits == [] then NaN
    else
      var m: int := DigitsValue(digits);
      if m >= OverflowThreshold then Infinity(negative)
      else Finite(if negative then -(m as int) else m)
  }

  /** The shortest decimal digits of a natural number. */
  function NatDigits(n: nat): (d: string)
    ensures |d| >= 1 && AllDigits(d)
    ensures DigitsValue(d) == n
  {
    if n < 10 then [DigitChar(n)]
    else
      var d := NatDigits(n / 10) + [DigitChar(n % 10)];
      assert d[..|d| - 1] == NatDigits(n / 10);
      d
  }

  /** `String(n)` for an integer: an optional minus sign and the digits. */
  function DecimalString(n: int): (s: string)
    ensures s != [] && (IsDigit(s[0]) || s[0] == '-')
  {
    if n < 0 then "-" + NatDigits(-n) else NatDigits(n)
  }

  /** The digit prefix of digits followed by a non-digit is those digits. */
  lemma {:induction false} DigitPrefixOfDigits(d: string, rest: string)
    requires AllDigits(d)
    requires rest == [] || !IsDigit(rest[0])
    ensures DigitPrefix(d + rest) == d
  {
    if d != [] {
      assert (d + rest)[1..] == d[1..] + rest;
      DigitPrefixOfDigits(d[1..], rest);
    } else {
      assert d + rest == rest;
    }
  }

  /**
   * `parseInt` reads back the decimal text of an integer, whatever non-digit
   * text follows it: the two functions are inverse on the integers a double
   * holds finitely.
   */
  lemma ParseIntDecimal(n: int, rest: string)
    requires -OverflowThreshold < n < OverflowThreshold
    requires rest == [] || !IsDigit(rest[0])
    ensures ParseInt(DecimalString(n) + rest) == Finite(n)
  {
    if n < 0 {
      var d := NatDigits(-n);
      ParseIntNegativeDigits(DecimalString(n) + rest, d, rest);
    } else {
      var d := NatDigits(n);
      ParseIntUnsignedDigits(DecimalString(n) + rest, d, rest);
    }
  }

  /** `parseInt` of a minus sign, a digit run and a non-digit tail. */
  lemma ParseIntNegativeDigits(s: string, d: string, rest: string)
    requires d != [] && AllDigits(d) && DigitsValue(d) < OverflowThreshold
    requires rest == [] || !IsDigit(rest[0])
    requires s == "-" + d + rest
    ensures ParseInt(s) == Finite(-(DigitsValue(d) as int))
  {
    assert s[0] == '-' && s[1..] == d + rest;
    ParseIntSkipsSign(s);
    ParseDigitsOfDigits(true, d, rest);
  }

  /** `parseInt` of a digit run and a non-digit tail. */
  lemma ParseIntUnsignedDigits(s: string, d: string, rest: string)
    requires d != [] && AllDigits(d) && DigitsValue(d) < OverflowThreshold
    requires rest == [] || !IsDigit(rest[0])
    requires s == d + rest
    ensures ParseInt(s) == Finite(DigitsValue(d))
  {
    assert s[0] == d[0] && IsDigit(d[0]);
    ParseIntSkipsSign(s);
    ParseDigitsOfDigits(false, d, rest);
  }

  /** Without leading white space, `parseInt` reads one sign and then the digits. */
  lemma ParseIntSkipsSign(s: string)
    requires s != [] && !IsWhiteSpace(s[0])
    ensures s[0] == '-' || s[0] == '+' ==> ParseInt(s) == ParseDigits(s[0] == '-', s[1..])
    ensures s[0] != '-' && s[0] != '+' ==> ParseInt(s) == ParseDigits(false, s)
  {
    TrimStartNoop(s);
  }

  /** Reading a digit run followed by a non-digit gives the run's value. */
  lemma ParseDigitsOfDigits(negative: bool, d: string, rest: string)
    requires d != [] && AllDigits(d) && DigitsValue(d) < OverflowThreshold
    requires rest == [] || !IsDigit(rest[0])
    ensures ParseDigits(negative, d + rest) == Finite(if negative then -(DigitsValue(d) as int) else DigitsValue(d))
  {
    DigitPrefixOfDigits(d, rest);
  }
}
