/** The JavaScript semantics the core relies on: values as `JSON.parse` returns them, truthiness,
    property access, and the `String` and `Number` methods the components call. */
module Js {
  import opened Wrappers

  /** A JavaScript value. Numbers are integers here (see README, "Left out"). */
  datatype JsValue =
    | JUndefined
    | JNull
    | JBool(b: bool)
    | JNumber(n: int)
    | JString(s: string)
    | JArray(items: seq<JsValue>)
    | JObject(props: map<string, JsValue>)

  /** JavaScript's `Boolean(v)`: undefined, null, false, 0 and "" are falsy; objects and arrays
      are truthy even when empty. */
  predicate Truthy(v: JsValue) {
    match v
    case JUndefined => false
    case JNull => false
    case JBool(b) => b
    case JNumber(n) => n != 0
    case JString(s) => s != ""
    case JArray(_) => true
    case JObject(_) => true
  }

  /** `v.key` for a key that no built-in prototype defines (here always "url").
      None is the TypeError that reading a property of null or undefined throws. */
  function Get(v: JsValue, key: string): (r: Option<JsValue>)
    ensures r.None? <==> v.JNull? || v.JUndefined?
    ensures v.JObject? && key in v.props ==> r == Some(v.props[key])
    ensures v.JObject? && key !in v.props ==> r == Some(JUndefined)
  {
    match v
    case JUndefined => None
    case JNull => None
    case JObject(props) => Some(if key in props then props[key] else JUndefined)
    case _ => Some(JUndefined)
  }

  /** Truthiness of a nullable string field: present and non-empty. */
  predicate StrTruthy(o: Option<string>) {
    o.Some? && o.value != ""
  }

  /** Truthiness of a nullable number field: present and non-zero. */
  predicate NumTruthy(o: Option<int>) {
    o.Some? && o.value != 0
  }

  /** `s.startsWith(prefix)`. */
  predicate StartsWith(s: string, prefix: string) {
    |prefix| <= |s| && s[..|prefix|] == prefix
  }

  lemma StartsWithConcat(prefix: string, rest: string)
    ensures StartsWith(prefix + rest, prefix)
    ensures (prefix + rest)[|prefix|..] == rest
  {
    assert (prefix + rest)[..|prefix|] == prefix;
  }

  /** `s.indexOf(pat)`: the first position at which `pat` occurs in `s`, None for -1. */
  function IndexOf(s: string, pat: string): (r: Option<nat>)
    ensures r.Some? ==> r.value + |pat| <= |s| && StartsWith(s[r.value..], pat)
    ensures r.Some? ==> forall k :: 0 <= k < r.value ==> !StartsWith(s[k..], pat)
    ensures r.None? ==> forall k :: 0 <= k <= |s| ==> !StartsWith(s[k..], pat)
    decreases |s|
  {
    if StartsWith(s, pat) then Some(0)
    else if |s| == 0 then None
    else
      var rest := IndexOf(s[1..], pat);
      assert forall k :: 1 <= k <= |s| ==> s[k..] == s[1..][k - 1..];
      match rest
      case Some(i) => Some(i + 1)
      case None => None
  }

  /** `s.replace(pat, rep)` with a string pattern: only the first occurrence is replaced. */
  function ReplaceFirst(s: string, pat: string, rep: string): (r: string)
    ensures IndexOf(s, pat).None? ==> r == s
    ensures IndexOf(s, pat).Some? ==>
              var i := IndexOf(s, pat).value; r == s[..i] + rep + s[i + |pat|..]
  {
    match IndexOf(s, pat)
    case Some(i) => s[..i] + rep + s[i + |pat|..]
    case None => s
  }

  predicate IsDigit(c: char) {
    '0' <= c <= '9'
  }

  function DigitChar(d: nat): (c: char)
    requires d < 10
    ensures IsDigit(c)
  {
    ['0', '1', '2', '3', '4', '5', '6', '7', '8', '9'][d]
  }

  function DigitValue(c: char): (d: nat)
    requires IsDigit(c)
    ensures d < 10
  {
    (c as int - '0' as int) as nat
  }

  /** The decimal numeral of `n`, no leading zeros: `n.toString()` for a non-negative integer. */
  function NatToString(n: nat): (r: string)
    ensures |r| >= 1
    ensures forall k :: 0 <= k < |r| ==> IsDigit(r[k])
    ensures r[0] == '0' ==> n == 0
    decreases n
  {
    if n < 10 then [DigitChar(n)] else NatToString(n / 10) + [DigitChar(n % 10)]
  }

  /** The value of a string of decimal digits. */
  function DigitsValue(s: string): nat
    requires forall k :: 0 <= k < |s| ==> IsDigit(s[k])
    decreases |s|
  {
    if s == [] then 0 else DigitsValue(s[..|s| - 1]) * 10 + DigitValue(s[|s| - 1])
  }

  /** Reading the numeral back gives the number: distinct numbers print differently. */
  lemma {:induction false} NatToStringRoundTrip(n: nat)
    ensures DigitsValue(NatToString(n)) == n
    decreases n
  {
    var r := NatToString(n);
    if n < 10 {
      assert r == [DigitChar(n)];
      assert DigitValue(DigitChar(n)) == n;
    } else {
      NatToStringRoundTrip(n / 10);
      assert r[..|r| - 1] == NatToString(n / 10);
      assert DigitValue(DigitChar(n % 10)) == n % 10;
    }
  }

  /** `n.toString()` for an integer (magnitude below 10^21, where JavaScript switches to
      exponent notation). */
  function IntToString(n: int): (r: string)
    ensures |r| >= 1
    ensures (r[0] == '-') <==> n < 0
    ensures forall k :: 0 < k < |r| ==> IsDigit(r[k])
    ensures n >= 0 ==> forall k :: 0 <= k < |r| ==> IsDigit(r[k])
  {
    if n < 0 then "-" + NatToString(-n) else NatToString(n)
  }
}
