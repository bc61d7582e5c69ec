/**
 * The request input as the validator sees it, and the meaning of the validation rules the
 * form requests use (`required`, `nullable`, `integer`, `string`, `array`, `min`, `max`,
 * `in`, `exists`).
 */
module Validation {
  import opened Common

  /** A decoded request value; an array keeps its keys in order. */
  datatype Value = Null | Bool(b: bool) | Int(i: int) | Str(s: string) | Arr(entries: seq<(string, Value)>)

  /** The request's top-level fields. */
  type Input = map<string, Value>

  function Get(input: Input, key: string): Option<Value>
  {
    if key in input then Some(input[key]) else None
  }

  /** `data_get($array, $key)` one level down: the entry under `key` when `v` is an array. */
  function Field(v: Value, key: string): (r: Option<Value>)
    ensures r.Some? ==> v.Arr? && exists i :: 0 <= i < |v.entries| && v.entries[i] == (key, r.value)
    ensures r.None? ==> !v.Arr? || forall i :: 0 <= i < |v.entries| ==> v.entries[i].0 != key
  {
    if !v.Arr? then None else Entry(v.entries, key)
  }

  function Entry(entries: seq<(string, Value)>, key: string): (r: Option<Value>)
    ensures r.Some? ==> exists i :: 0 <= i < |entries| && entries[i] == (key, r.value)
    ensures r.None? ==> forall i :: 0 <= i < |entries| ==> entries[i].0 != key
  {
    if entries == [] then None
    else if entries[0].0 == key then Some(entries[0].1)
    else Entry(entries[1..], key)
  }

  /** The values of an array, what a `field.*` rule ranges over. */
  function Items(v: Value): (r: seq<Value>)
    ensures v.Arr? ==> |r| == |v.entries| && forall i :: 0 <= i < |r| ==> r[i] == v.entries[i].1
    ensures !v.Arr? ==> r == []
  {
    if v.Arr? then seq(|v.entries|, i requires 0 <= i < |v.entries| => v.entries[i].1) else []
  }

  /** The characters PHP's `trim` removes. */
  predicate TrimmedChar(c: char)
  {
    c == ' ' || c == '\t' || c == '\n' || c == '\r' || c == '\0' || c == '\U{000B}'
  }

  predicate Blank(s: string)
  {
    forall i :: 0 <= i < |s| ==> TrimmedChar(s[i])
  }

  /** `required`: present, not null, not a blank string, not an empty array. */
  predicate Required(v: Option<Value>)
  {
    v.Some? && !v.value.Null? && !(v.value.Str? && Blank(v.value.s)) && !(v.value.Arr? && v.value.entries == [])
  }

  /** `FILTER_VALIDATE_INT` on a string: an optional sign, then digits without a leading zero. */
  predicate IntLiteral(s: string)
  {
    IsIntegerString(s)
    && var digits := if s[0] == '-' || s[0] == '+' then s[1..] else s;
       (digits[0] != '0' || |digits| == 1)
  }

  /** `integer`. */
  predicate IsInteger(v: Value)
  {
    v.Int? || (v.Str? && IntLiteral(v.s))
  }

  function IntValue(v: Value): int
    requires IsInteger(v)
  {
    if v.Int? then v.i else IntegerValue(v.s)
  }

  /** `min:n` on a value that is also `integer`. */
  predicate MinInt(v: Value, n: int)
    requires IsInteger(v)
  {
    IntValue(v) >= n
  }

  /** `string|max:n`: a string of at most `n` characters. */
  predicate StringMax(v: Value, n: nat)
  {
    v.Str? && |v.s| <= n
  }

  /** `string|in:...`. */
  predicate StringIn(v: Value, options: set<string>)
  {
    v.Str? && v.s in options
  }

  /** `integer|exists:table,id`. */
  predicate IntegerExists(v: Value, ids: set<nat>)
  {
    IsInteger(v) && IntValue(v) >= 0 && IntValue(v) as nat in ids
  }

  /**
   * Whether the validator runs a field's non-implicit rules (every rule here except
   * `required` and `required_if`): not when the field is absent, and not when it is a
   * string that trims to `''`.
   */
  predicate RulesRun(v: Option<Value>)
  {
    v.Some? && !(v.value.Str? && Blank(v.value.s))
  }

  /** A field's non-implicit rules: they hold, or they do not run. */
  predicate Checked(v: Option<Value>, rule: Value -> bool)
  {
    !RulesRun(v) || rule(v.value)
  }

  /** A `nullable` field's non-implicit rules: they are skipped on null as well. */
  predicate Optional(v: Option<Value>, rule: Value -> bool)
  {
    !RulesRun(v) || v.value.Null? || rule(v.value)
  }

  /** What a `nullable` field contributes to `validated()` data: nothing when its rules were skipped. */
  function Present(v: Option<Value>): (r: Option<Value>)
    ensures r.Some? <==> RulesRun(v) && !v.value.Null?
    ensures r.Some? ==> r == v
  {
    if RulesRun(v) && !v.value.Null? then v else None
  }

  /** `integer` accepts the decimal form of every integer, and reads back its value. */
  lemma IntegerStrings(n: nat)
    ensures IsInteger(Str(NatToString(n))) && IntValue(Str(NatToString(n))) == n
  {
    NatToStringIsInteger(n);
    NatToStringNoLeadingZero(n);
  }
}
