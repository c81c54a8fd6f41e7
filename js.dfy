/** The few JavaScript value semantics the codec relies on. */
module Js {

  import opened Wrappers

  /**
   * A JavaScript value as the codec produces it: either a number or a string.
   * The hand-written walker stores numbers (from varints) and strings (from
   * length-delimited fields) under the same keys, so a status code may end up
   * being a string.
   */
  datatype JsValue = Num(n: int) | Text(s: string)

  /** JavaScript truthiness: 0 and the empty string are falsy. */
  predicate Truthy(v: JsValue)
  {
    match v
    case Num(n) => n != 0
    case Text(s) => s != ""
  }

  /**
   * `v || fallback`, where an absent value (`undefined`) is modelled as None:
   * a truthy value is kept, anything else gives way to the fallback, so a
   * truthy fallback makes the result truthy.
   */
  function OrElse(v: Option<JsValue>, fallback: JsValue): (r: JsValue)
    ensures Truthy(fallback) ==> Truthy(r)
    ensures r == fallback || (v == Some(r) && Truthy(r))
    ensures v.Some? && Truthy(v.value) ==> r == v.value
  {
    if v.Some? && Truthy(v.value) then v.value else fallback
  }

  /** `s || fallback` on strings: only the empty string is replaced, so a non-empty fallback gives a non-empty result. */
  function StringOr(s: string, fallback: string): (r: string)
    ensures fallback != "" ==> r != ""
    ensures r == s || (s == "" && r == fallback)
    ensures s != "" ==> r == s
  {
    if s != "" then s else fallback
  }

  /** The decimal numeral JavaScript prints for a non-negative integer (`'' + n`). */
  function DecimalString(n: nat): (r: string)
    ensures |r| > 0
    ensures forall i :: 0 <= i < |r| ==> '0' <= r[i] <= '9'
    decreases n
  {
    if n < 10 then [DigitChar(n)] else DecimalString(n / 10) + [DigitChar(n % 10)]
  }

  function DigitChar(d: nat): (c: char)
    requires d < 10
    ensures '0' <= c <= '9' && c as int - '0' as int == d
  {
    (('0' as int) + d) as char
  }

  /** The value a decimal numeral denotes; DecimalString is its inverse. */
  function DecimalValue(s: string): int
    decreases |s|
  {
    if s == [] then 0 else 10 * DecimalValue(s[..|s| - 1]) + (s[|s| - 1] as int - '0' as int)
  }

  lemma {:induction false} DecimalRoundTrip(n: nat)
    ensures DecimalValue(DecimalString(n)) == n
  {
    if n >= 10 {
      DecimalRoundTrip(n / 10);
      var s := DecimalString(n);
      assert s[..|s| - 1] == DecimalString(n / 10);
    }
  }
}
