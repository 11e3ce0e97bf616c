/**
 * The loosely typed values the journey pages read out of JSON columns (`any` in the source),
 * with the three JavaScript operations the step construction applies to them: truthiness
 * (which `x || d` tests), reading a property, and the string conversion a template literal
 * performs. Numbers are integers here; fractional numbers and NaN are not part of this model.
 */
module JsValue {

  datatype Json =
    | Undefined
    | Null
    | Bool(b: bool)
    | Num(n: int)
    | Str(s: string)
    | Arr(items: seq<Json>)
    | Obj(fields: map<string, Json>)

  /** JavaScript truthiness: undefined, null, false, 0 and "" are falsy, everything else is truthy. */
  predicate Truthy(v: Json) {
    match v
    case Undefined => false
    case Null => false
    case Bool(b) => b
    case Num(n) => n != 0
    case Str(s) => s != ""
    case Arr(_) => true
    case Obj(_) => true
  }

  /** The values on which reading a property throws a TypeError. */
  predicate Nullish(v: Json) {
    v.Undefined? || v.Null?
  }

  /** `a || b`: the left operand when it is truthy, otherwise the right one. */
  function Or(a: Json, b: Json): Json {
    if Truthy(a) then a else b
  }

  /** `v.key` for a value that is not null or undefined: an own field of an object, otherwise undefined. */
  function Get(v: Json, key: string): Json {
    if v.Obj? && key in v.fields then v.fields[key] else Undefined
  }

  function DigitChar(d: nat): (c: char)
    requires d < 10
    ensures '0' <= c <= '9'
  {
    ('0' as int + d) as char
  }

  /** The decimal numeral of `n`, without leading zeros. */
  function Decimal(n: nat): (r: string)
    ensures |r| > 0
    ensures forall i :: 0 <= i < |r| ==> '0' <= r[i] <= '9'
  {
    if n < 10 then [DigitChar(n)] else Decimal(n / 10) + [DigitChar(n % 10)]
  }

  /** `String(n)` for an integer. */
  function IntToString(n: int): string {
    if n < 0 then "-" + Decimal(-n) else Decimal(n)
  }

  /** `a.join(",")`. */
  function JoinComma(parts: seq<string>): string {
    if parts == [] then ""
    else if |parts| == 1 then parts[0]
    else parts[0] + "," + JoinComma(parts[1..])
  }

  /** `String(v)`, as `${v}` in a template literal computes it. */
  function ToStr(v: Json): string
    decreases v
  {
    match v
    case Undefined => "undefined"
    case Null => "null"
    case Bool(b) => if b then "true" else "false"
    case Num(n) => IntToString(n)
    case Str(s) => s
    // an array joins its elements with commas; null and undefined elements print as ""
    case Arr(items) =>
      JoinComma(seq(|items|, i requires 0 <= i < |items| =>
        if Nullish(items[i]) then "" else ToStr(items[i])))
    case Obj(_) => "[object Object]"
  }

  /** Different numbers print differently, so generated keys such as `course-<index>` never collide. */
  lemma {:induction false} DecimalInjective(m: nat, n: nat)
    requires m != n
    ensures Decimal(m) != Decimal(n)
  {
    if m >= 10 && n >= 10 {
      var a, b := Decimal(m / 10), Decimal(n / 10);
      assert Decimal(m) == a + [DigitChar(m % 10)];
      assert Decimal(n) == b + [DigitChar(n % 10)];
      if m / 10 != n / 10 {
        DecimalInjective(m / 10, n / 10);
        if |a| == |b| {
          assert Decimal(m)[..|a|] == a && Decimal(n)[..|b|] == b;
        }
      } else {
        assert a == b && DigitChar(m % 10) != DigitChar(n % 10);
        assert Decimal(m)[|a|] != Decimal(n)[|b|];
      }
    }
  }
}
