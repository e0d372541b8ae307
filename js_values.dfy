/**
  The JavaScript values that flow through the guardrail helpers, with the
  pieces of JavaScript semantics the helpers rely on made explicit:
  truthiness (`if (v)`, `a && b`, `!v`), nullish coalescing (`a ?? b`),
  strict comparison with `true` (`v === true`), `.length`, property lookup,
  `Object.entries` and the conversion of a count to its decimal string.
  Numbers are mathematical reals (no NaN), and an object is the list of its
  own enumerable properties in enumeration order, each key at most once (the
  datatype does not enforce this; a list with a repeated key stands for no
  JavaScript object).  A string is a sequence of Unicode scalar values, not
  of UTF-16 code units.
*/
module JsValues {
  import opened Wrappers

  datatype JsValue =
    | Undefined
    | Null
    | Bool(b: bool)
    | Num(n: real)
    | Str(s: string)
    | Arr(items: seq<JsValue>)
    | Obj(fields: seq<(string, JsValue)>)

  /** JavaScript truthiness: `undefined`, `null`, `false`, `0` and `""` are falsy;
      every array and every object, even an empty one, is truthy. */
  predicate Truthy(v: JsValue) {
    match v
    case Undefined => false
    case Null => false
    case Bool(b) => b
    case Num(n) => n != 0.0
    case Str(s) => s != ""
    case Arr(_) => true
    case Obj(_) => true
  }

  /** The values on which `??` (and `?.`) give up: `null` and `undefined`. */
  predicate Nullish(v: JsValue) {
    v.Undefined? || v.Null?
  }

  /** `a ?? b`: falls back only on `null`/`undefined`, never on other falsy values. */
  function Coalesce(a: JsValue, b: JsValue): JsValue {
    if Nullish(a) then b else a
  }

  /** `v === true`. */
  predicate IsTrue(v: JsValue) {
    v == Bool(true)
  }

  /** The `length` property of an array or a string; `None` where it reads
      `undefined`.  A string's length counts Unicode scalar values, where
      JavaScript counts UTF-16 code units; the two differ for characters
      outside the Basic Multilingual Plane. */
  function Length(v: JsValue): Option<nat> {
    match v
    case Arr(items) => Some(|items|)
    case Str(s) => Some(|s|)
    case _ => None
  }

  /** `v.length > 0`, where `undefined > 0` is false. */
  predicate HasPositiveLength(v: JsValue) {
    Length(v).Some? && Length(v).value > 0
  }

  /** `v[key]`: the value of the first property named `key`, `undefined` when there is none. */
  function Property(v: JsValue, key: string): JsValue {
    if !v.Obj? then Undefined
    else PropertyOf(v.fields, key)
  }

  function PropertyOf(fields: seq<(string, JsValue)>, key: string): JsValue {
    if fields == [] then Undefined
    else if fields[0].0 == key then fields[0].1
    else PropertyOf(fields[1..], key)
  }

  /** The decimal digit character for `d`. */
  function DigitChar(d: nat): (c: char)
    requires d < 10
    ensures '0' <= c <= '9'
  {
    ('0' as int + d) as char
  }

  predicate IsDigit(c: char) {
    '0' <= c <= '9'
  }

  function DigitValue(c: char): nat {
    if IsDigit(c) then c as int - '0' as int else 0
  }

  /** How JavaScript turns a non-negative integer into a string (`"x:" + 12`):
      its decimal digits, without leading zeros. */
  function DecimalString(n: nat): (r: string)
    ensures |r| > 0
    ensures forall i :: 0 <= i < |r| ==> IsDigit(r[i])
    ensures r[0] == '0' ==> n == 0
    ensures r[0] == '0' ==> r == "0"
    ensures n == 0 ==> r == "0"
  {
    if n < 10 then [DigitChar(n)]
    else DecimalString(n / 10) + [DigitChar(n % 10)]
  }

  /** Reads a string of decimal digits back as a number. */
  function DecimalValue(s: string): nat {
    if s == [] then 0
    else DecimalValue(s[..|s| - 1]) * 10 + DigitValue(s[|s| - 1])
  }

  /** The decimal rendering loses nothing: it reads back as the same number. */
  lemma {:induction false} DecimalRoundTrip(n: nat)
    ensures DecimalValue(DecimalString(n)) == n
  {
    var r := DecimalString(n);
    if n < 10 {
      assert r[..|r| - 1] == [];
    } else {
      assert r[..|r| - 1] == DecimalString(n / 10);
      DecimalRoundTrip(n / 10);
    }
  }

  /** Distinct numbers render as distinct strings (so counts are never confused). */
  lemma DecimalStringInjective(m: nat, n: nat)
    requires DecimalString(m) == DecimalString(n)
    ensures m == n
  {
    DecimalRoundTrip(m);
    DecimalRoundTrip(n);
  }

  /** Every index below `n` renders as a key that reads back as that index. */
  lemma IndexKeysReadBack(n: nat)
    ensures forall i: nat :: i < n ==> DecimalValue(DecimalString(i)) == i
  {
    forall i: nat | i < n ensures DecimalValue(DecimalString(i)) == i {
      DecimalRoundTrip(i);
    }
  }

  /** `Object.entries(v)` for a value that is not `null`/`undefined`: an object's
      own properties; an array's or a string's indices (as canonical decimal
      strings, which read back as the index) with their elements; nothing for a
      boolean or a number.  On `null`/`undefined` it throws, hence the
      precondition.  A string's entries are its Unicode scalar values, one per
      key, where JavaScript gives one per UTF-16 code unit. */
  function Entries(v: JsValue): (r: seq<(string, JsValue)>)
    requires !Nullish(v)
    ensures v.Obj? ==> r == v.fields
    ensures v.Arr? ==> |r| == |v.items| && forall i :: 0 <= i < |r| ==> r[i].1 == v.items[i]
    ensures v.Str? ==> |r| == |v.s| && forall i :: 0 <= i < |r| ==> r[i].1 == Str([v.s[i]])
    ensures v.Arr? || v.Str? ==> forall i :: 0 <= i < |r| ==> r[i].0 == DecimalString(i) && DecimalValue(r[i].0) == i
    ensures !(v.Obj? || v.Arr? || v.Str?) ==> r == []
  {
    match v
    case Obj(fields) => fields
    case Arr(items) =>
      IndexKeysReadBack(|items|);
      IndexKeyed(items)
    case Str(s) =>
      IndexKeysReadBack(|s|);
      IndexKeyed(Chars(s))
    case _ => []
  }

  /** A string's characters, each as a one-character string. */
  function Chars(s: string): seq<JsValue> {
    seq(|s|, i requires 0 <= i < |s| => Str([s[i]]))
  }

  /** Each element paired with its index as a decimal string. */
  function IndexKeyed(xs: seq<JsValue>): seq<(string, JsValue)> {
    seq(|xs|, i requires 0 <= i < |xs| => (DecimalString(i), xs[i]))
  }
}
