/**
 * Values produced by `JSON.parse`, and the JavaScript coercions the diary applies
 * to them: truthiness, property access, `typeof` tests, `String(v)` and `Number(v)`.
 * Numbers are integers in this model.
 */
module JsonValue {
  import opened Common

  datatype Json =
    | JNull
    | JBool(b: bool)
    | JNumber(n: int)
    | JString(s: string)
    | JArray(items: seq<Json>)
    | JObject(fields: map<string, Json>)

  /** JavaScript truthiness: `null`, `false`, `0` and `""` are falsy; arrays and objects are truthy. */
  predicate Truthy(v: Json)
  {
    match v
    case JNull => false
    case JBool(b) => b
    case JNumber(n) => n != 0
    case JString(s) => s != ""
    case JArray(_) => true
    case JObject(_) => true
  }

  /** Truthiness of a property that may be missing (`undefined` is falsy). */
  predicate TruthyOpt(v: Option<Json>)
  {
    v.Some? && Truthy(v.value)
  }

  /** `v[key]` for a parsed value: only objects carry named properties; `None` is `undefined`. */
  function Get(v: Json, key: string): (r: Option<Json>)
    ensures r.Some? <==> v.JObject? && key in v.fields
    ensures r.Some? ==> r.value == v.fields[key]
  {
    if v.JObject? && key in v.fields then Some(v.fields[key]) else None
  }

  /** `typeof v === 'string'`. */
  predicate IsString(v: Option<Json>)
  {
    v.Some? && v.value.JString?
  }

  /** `Array.isArray(v)`. */
  predicate IsArray(v: Option<Json>)
  {
    v.Some? && v.value.JArray?
  }

  /**
   * `String(v)`. An array is written as its elements joined by commas, with
   * `null` elements written as the empty string (`Array.prototype.join`).
   */
  function ToStr(v: Json): (s: string)
    ensures v.JString? ==> s == v.s
    ensures v.JNumber? ==> StringToNumber(s) == Some(v.n)
    decreases v, 1, 0
  {
    match v
    case JNull => "null"
    case JBool(b) => if b then "true" else "false"
    case JNumber(n) => NumberTextRoundTrip(n); IntToString(n)
    case JString(s) => s
    case JArray(items) => JoinFrom(items, 0)
    case JObject(_) => "[object Object]"
  }

  /** The elements `items[i..]` joined by commas, as `join` writes them. */
  function JoinFrom(items: seq<Json>, i: nat): string
    requires i <= |items|
    decreases JArray(items), 0, |items| - i
  {
    if i == |items| then ""
    else
      var head := if items[i].JNull? then "" else ToStr(items[i]);
      if i + 1 == |items| then head else head + "," + JoinFrom(items, i + 1)
  }

  /** A sign followed by at least one decimal digit. */
  predicate SignedDigits(t: string)
  {
    |t| > 1 && (t[0] == '+' || t[0] == '-') && AllDigits(t[1..])
  }

  /**
   * `Number(s)` for a string: surrounding whitespace is ignored, a blank string
   * is 0, an optional sign followed by decimal digits is that integer, and
   * anything else is `NaN` (`None`).
   */
  function StringToNumber(s: string): (r: Option<int>)
    ensures r.Some? <==> Trim(s) == "" || AllDigits(Trim(s)) || SignedDigits(Trim(s))
    ensures Trim(s) == "" ==> r == Some(0)
    ensures AllDigits(Trim(s)) ==> r == Some(DigitsValue(Trim(s)))
    ensures SignedDigits(Trim(s)) && Trim(s)[0] == '+' ==> r == Some(DigitsValue(Trim(s)[1..]))
    ensures SignedDigits(Trim(s)) && Trim(s)[0] == '-' ==> r == Some(0 - DigitsValue(Trim(s)[1..]))
  {
    var t := Trim(s);
    if t == "" then Some(0 as int)
    else if AllDigits(t) then Some(DigitsValue(t))
    else if SignedDigits(t) then
      if t[0] == '+' then Some(DigitsValue(t[1..]) as int) else Some(0 - DigitsValue(t[1..]))
    else None
  }

  /** `Number(String(n))` is `n` again: the text an integer is written as reads back as that integer. */
  lemma NumberTextRoundTrip(n: int)
    ensures StringToNumber(IntToString(n)) == Some(n)
  {
    var t := IntToString(n);
    var digits := NatToString(if n < 0 then -n else n);
    assert t[|t| - 1] == digits[|digits| - 1];
    TrimUnpadded(t);
    NatToStringRoundTrip(if n < 0 then -n else n);
    if n < 0 {
      assert t[1..] == digits;
      assert !AllDigits(t) by { assert !IsDigit(t[0]); }
    }
  }

  /** A text that starts and ends with a non-blank character is its own trim. */
  lemma TrimUnpadded(t: string)
    requires |t| > 0 && !IsWhitespace(t[0]) && !IsWhitespace(t[|t| - 1])
    ensures Trim(t) == t
  {
    assert TrimStart(t) == t;
    assert TrimEnd(t) == t;
  }

  /**
   * `Number(v)` for a property that may be missing; `None` stands for `NaN`.
   * `undefined` is `NaN`, `null` is 0, booleans are 0 or 1, and arrays and
   * objects are converted through their string form.
   */
  function ToNumber(v: Option<Json>): (r: Option<int>)
    ensures v.None? ==> r.None?
    ensures v.Some? && v.value.JNumber? ==> r == Some(v.value.n)
    ensures v == Some(JNull) ==> r == Some(0)
  {
    match v
    case None => None
    case Some(JNull) => Some(0)
    case Some(JBool(b)) => Some(if b then 1 else 0)
    case Some(JNumber(n)) => Some(n)
    case Some(JString(s)) => StringToNumber(s)
    case Some(other) => StringToNumber(ToStr(other))
  }
}
