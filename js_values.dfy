/**
 * The JavaScript values that flow into and out of the sql.js engine, and the
 * two JavaScript coercions the core depends on: loose equality (`v == true`,
 * `v == false`, `v == undefined`) and the string form `String(v)` that an
 * object property key takes.
 *
 * Numbers are integers here; fractions, NaN and the infinities are not part
 * of this model.
 */
module JsValues {
  import opened Wrappers

  type byte = b: int | 0 <= b < 256

  datatype JsValue =
    | Undefined
    | Null
    | Bool(b: bool)
    | Num(n: int)
    | Str(s: string)
    /** a `Uint8Array`, which sql.js binds as a blob */
    | Bytes(data: seq<byte>)

  /** The values sql.js accepts as `SqlValue`: number, string, Uint8Array or null. */
  predicate IsSqlValue(v: JsValue) {
    v.Null? || v.Num? || v.Str? || v.Bytes?
  }

  // ---------------------------------------------------------------------------
  // Decimal digits

  predicate IsDigit(c: char) {
    '0' <= c <= '9'
  }

  predicate IsDigits(s: string) {
    forall i :: 0 <= i < |s| ==> IsDigit(s[i])
  }

  function DigitValue(c: char): nat
    requires IsDigit(c)
  {
    (c as int) - ('0' as int)
  }

  function DigitChar(d: nat): (c: char)
    requires d < 10
    ensures IsDigit(c) && DigitValue(c) == d
  {
    (('0' as int) + d) as char
  }

  /** The value of a string of decimal digits, most significant first. */
  function DigitsValue(s: string): nat
    requires IsDigits(s)
  {
    if |s| == 0 then 0 else DigitsValue(s[..|s| - 1]) * 10 + DigitValue(s[|s| - 1])
  }

  /** The decimal rendering of a natural number, as `Number.prototype.toString` gives it. */
  function NatToString(n: nat): (s: string)
    ensures |s| > 0
  {
    if n < 10 then [DigitChar(n)] else NatToString(n / 10) + [DigitChar(n % 10)]
  }

  /** The decimal rendering of an integer, with a leading '-' when negative. */
  function IntToString(i: int): (s: string)
    ensures |s| > 0
  {
    if i < 0 then "-" + NatToString(-i) else NatToString(i)
  }

  /** Reading back the decimal rendering gives the number: the rendering is unambiguous. */
  lemma {:induction false} NatToStringRoundTrip(n: nat)
    ensures IsDigits(NatToString(n)) && DigitsValue(NatToString(n)) == n
  {
    if n >= 10 {
      NatToStringRoundTrip(n / 10);
      var s := NatToString(n);
      assert s[..|s| - 1] == NatToString(n / 10);
    }
  }

  // ---------------------------------------------------------------------------
  // Strings as numbers

  /**
   * The white space `Number` skips around its text (ECMAScript's
   * StrWhiteSpaceChar): tab, vertical tab, form feed, the byte-order mark,
   * every space separator of Unicode category Zs, and the line terminators.
   */
  predicate IsJsWhitespace(c: char) {
    || c == '\t' || c == '\U{B}' || c == '\U{C}' || c == '\U{FEFF}'
    || c == ' ' || c == '\U{A0}' || c == '\U{1680}' || '\U{2000}' <= c <= '\U{200A}'
    || c == '\U{202F}' || c == '\U{205F}' || c == '\U{3000}'
    || c == '\n' || c == '\r' || c == '\U{2028}' || c == '\U{2029}'
  }

  function TrimStart(s: string): (r: string)
    ensures |r| <= |s|
    ensures r == s[|s| - |r|..]
  {
    if |s| > 0 && IsJsWhitespace(s[0]) then TrimStart(s[1..]) else s
  }

  function TrimEnd(s: string): (r: string)
    ensures |r| <= |s|
    ensures r == s[..|r|]
  {
    if |s| > 0 && IsJsWhitespace(s[|s| - 1]) then TrimEnd(s[..|s| - 1]) else s
  }

  function Trim(s: string): string {
    TrimEnd(TrimStart(s))
  }

  /**
   * `Number(s)` for the strings this model covers: after trimming, the empty
   * string is 0, and a run of decimal digits, optionally after one `+` or
   * `-`, is its value; every other string is taken to be NaN.
   */
  function StringToNumber(s: string): Option<int> {
    var t := Trim(s);
    if t == "" then Some(0) else if IsDigits(t) then Some(DigitsValue(t)) else SignedValue(t)
  }

  /** A sign followed by at least one decimal digit and nothing else, or NaN. */
  function SignedValue(t: string): Option<int> {
    if |t| > 1 && (t[0] == '+' || t[0] == '-') && IsDigits(t[1..]) then
      var n: int := DigitsValue(t[1..]);
      Some(if t[0] == '-' then -n else n)
    else None
  }

  /**
   * A string that starts with neither white space, a digit, a sign nor a
   * decimal point is no number that equals 0 or 1 (in JavaScript `Number`
   * gives NaN, or Infinity for `"Infinity"`), so it is neither loosely true
   * nor loosely false: a JSON object's text (`{...}`) and ordinary names are
   * among them.
   */
  lemma NonNumericText(s: string)
    requires |s| > 0 && !IsJsWhitespace(s[0]) && !IsDigit(s[0])
    requires s[0] != '+' && s[0] != '-' && s[0] != '.'
    ensures StringToNumber(s) == None
    ensures !LooselyTrue(Str(s)) && !LooselyFalse(Str(s))
  {
    assert TrimStart(s) == s;
    var t := TrimEnd(s);
    assert |t| > 0 by {
      if |t| == 0 {
        TrimEndEmptyMeansWhitespace(s);
      }
    }
    assert t[0] == s[0] && !IsDigit(t[0]) && t[0] != '+' && t[0] != '-';
  }

  lemma {:induction false} TrimEndEmptyMeansWhitespace(s: string)
    requires TrimEnd(s) == ""
    ensures forall i :: 0 <= i < |s| ==> IsJsWhitespace(s[i])
  {
    if |s| > 0 {
      assert IsJsWhitespace(s[|s| - 1]);
      TrimEndEmptyMeansWhitespace(s[..|s| - 1]);
      forall i | 0 <= i < |s| ensures IsJsWhitespace(s[i]) {
        if i < |s| - 1 {
          assert s[i] == s[..|s| - 1][i];
        }
      }
    }
  }

  // ---------------------------------------------------------------------------
  // String(v)

  /** `Array.prototype.join(',')` of a byte array, which is how a Uint8Array turns into a string. */
  function JoinBytes(bs: seq<byte>): string {
    if |bs| == 0 then ""
    else if |bs| == 1 then NatToString(bs[0])
    else NatToString(bs[0]) + "," + JoinBytes(bs[1..])
  }

  /** `String(v)`: the text a value becomes when used as an object property key. */
  function PropertyKey(v: JsValue): string {
    match v
    case Undefined => "undefined"
    case Null => "null"
    case Bool(b) => if b then "true" else "false"
    case Num(n) => IntToString(n)
    case Str(s) => s
    case Bytes(bs) => JoinBytes(bs)
  }

  // ---------------------------------------------------------------------------
  // Loose equality against booleans and undefined

  /**
   * `v == b` for a boolean `b` whose numeric value is `k`: the boolean becomes
   * the number `k`, a string is converted with `Number`, a Uint8Array first
   * becomes its joined text.
   */
  predicate LooselyEqualsNumber(v: JsValue, k: int) {
    match v
    case Undefined => false
    case Null => false
    case Bool(b) => (if b then 1 else 0) == k
    case Num(n) => n == k
    case Str(s) => StringToNumber(s) == Some(k)
    case Bytes(bs) => StringToNumber(JoinBytes(bs)) == Some(k)
  }

  /** `v == true` */
  predicate LooselyTrue(v: JsValue) {
    LooselyEqualsNumber(v, 1)
  }

  /** `v == false` */
  predicate LooselyFalse(v: JsValue) {
    LooselyEqualsNumber(v, 0)
  }

  /** `v == undefined`, which also holds for `null` */
  predicate LooselyNullish(v: JsValue) {
    v.Undefined? || v.Null?
  }
}
