/** JavaScript value coercions that `server/index.js` relies on, restricted
    to strings: truthiness, `String(x)`, `Number(x) || d`, `x || null`, and
    the date codec used for request bodies and sheet cells. A date is an
    integer day number; its text form is the decimal numeral of that number. */
module Coercion {
  import opened Wrappers

  /** A possibly absent JavaScript string value (None is `undefined`). */
  type JsString = Option<string>

  /** JavaScript truthiness of a string-or-undefined value. */
  predicate Truthy(x: JsString) {
    x.Some? && x.value != ""
  }

  /** `String(x)`: an absent value prints as "undefined". */
  function ToText(x: JsString): (r: string)
    ensures x.Some? ==> r == x.value
    ensures x.None? ==> r == "undefined"
  {
    match x
    case Some(s) => s
    case None => "undefined"
  }

  /** `x || null` and `x ? String(x) : null`: falsy values become null. */
  function OrNull(x: JsString): (r: Option<string>)
    ensures r.Some? <==> Truthy(x)
    ensures r.Some? ==> r == x
  {
    if Truthy(x) then x else None
  }

  predicate IsDigit(c: char) {
    '0' <= c <= '9'
  }

  predicate AllDigits(s: string) {
    forall i :: 0 <= i < |s| ==> IsDigit(s[i])
  }

  function DigitChar(d: nat): (c: char)
    requires d < 10
    ensures IsDigit(c) && c as int - '0' as int == d
  {
    (('0' as int) + d) as char
  }

  function DigitValue(c: char): nat
    requires IsDigit(c)
  {
    c as int - '0' as int
  }

  /** Decimal numeral of a natural number, without leading zeros. */
  function NatToText(n: nat): (s: string)
    ensures s != [] && AllDigits(s)
    decreases n
  {
    if n < 10 then [DigitChar(n)] else NatToText(n / 10) + [DigitChar(n % 10)]
  }

  /** Value of a string of decimal digits (the empty string is 0). */
  function DigitsValue(s: string): nat
    requires AllDigits(s)
    decreases |s|
  {
    if s == [] then 0 else DigitsValue(s[..|s| - 1]) * 10 + DigitValue(s[|s| - 1])
  }

  lemma {:induction false} DigitsValueOfNatToText(n: nat)
    ensures DigitsValue(NatToText(n)) == n
    decreases n
  {
    var s := NatToText(n);
    if n >= 10 {
      DigitsValueOfNatToText(n / 10);
      assert s[..|s| - 1] == NatToText(n / 10);
    }
  }

  /** `String(n)` for an integer. */
  function IntToText(n: int): (s: string)
    ensures s != ""
  {
    if n < 0 then "-" + NatToText(-n) else NatToText(n)
  }

  /** `Number(s)` for integer numerals: "" is 0, an optional '-' followed by
      digits is that integer, anything else is NaN (None). */
  function ToNumber(s: string): (r: Option<int>)
    ensures s != [] && AllDigits(s) ==> r == Some(DigitsValue(s))
    ensures s != [] && !AllDigits(s) && s[0] != '-' ==> r.None?
  {
    if s == "" then Some(0)
    else if s[0] == '-' then
      if |s| > 1 && AllDigits(s[1..]) then Some(-(DigitsValue(s[1..]) as int)) else None
    else if AllDigits(s) then Some(DigitsValue(s))
    else None
  }

  lemma ToNumberOfIntToText(n: int)
    ensures ToNumber(IntToText(n)) == Some(n)
  {
    var s := IntToText(n);
    if n < 0 {
      var t := NatToText(-n);
      assert s == "-" + t && s[0] == '-' && s[1..] == t;
      DigitsValueOfNatToText(-n);
      assert ToNumber(s) == Some(-(DigitsValue(t) as int));
    } else {
      assert s == NatToText(n) && s != [] && AllDigits(s);
      DigitsValueOfNatToText(n);
    }
  }

  /** `Number(x) || d`: NaN, undefined and 0 all fall back to `d`. */
  function NumberOr(x: JsString, d: int): (r: int)
    ensures r == d || (x.Some? && ToNumber(x.value) == Some(r) && r != 0)
    ensures x.Some? && ToNumber(x.value).Some? && ToNumber(x.value).value != 0 ==> r == ToNumber(x.value).value
  {
    if x.None? then d
    else match ToNumber(x.value)
      case Some(n) => if n != 0 then n else d
      case None => d
  }

  /** Text form of a day number, as the export writes a date cell. */
  function DayToText(day: int): (s: string)
    ensures s != ""
  {
    IntToText(day)
  }

  /** `new Date(x)` judged valid or Invalid Date: undefined and "" are
      invalid, as is any text that is not a day numeral. */
  function ParseDay(x: JsString): (r: Option<int>)
    ensures !Truthy(x) ==> r.None?
    ensures Truthy(x) ==> r == ToNumber(x.value)
  {
    if Truthy(x) then ToNumber(x.value) else None
  }

  lemma ParseDayOfDayToText(day: int)
    ensures ParseDay(Some(DayToText(day))) == Some(day)
  {
    ToNumberOfIntToText(day);
  }
}
