/**
 * Untyped JavaScript values, as stored in lock records (which come from
 * YAML as open dictionaries). Only integral numbers are modelled, and
 * they print in full decimal, as JavaScript does below 10^21.
 */
module Json {

  datatype Value =
    | Undefined
    | Null
    | Bool(b: bool)
    | Num(n: int)
    | Str(s: string)
    | Arr(items: seq<Value>)
    | Obj(props: map<string, Value>)

  /** The value of a string of decimal digits. */
  function DigitsValue(s: string): nat
    requires forall i :: 0 <= i < |s| ==> '0' <= s[i] <= '9'
  {
    if s == [] then 0 else DigitsValue(s[..|s| - 1]) * 10 + (s[|s| - 1] - '0') as nat
  }

  /** The decimal digits of n, most significant first, without leading zeros. */
  function Decimal(n: nat): (s: string)
    ensures |s| >= 1 && (|s| > 1 ==> s[0] != '0')
    ensures forall i :: 0 <= i < |s| ==> '0' <= s[i] <= '9'
    ensures DigitsValue(s) == n
  {
    var d := ['0' + (n % 10) as char];
    if n < 10 then d
    else
      var s := Decimal(n / 10) + d;
      assert s[..|s| - 1] == Decimal(n / 10);
      s
  }

  /** `String(v)`: what a value turns into when it is used as a property key. */
  function ToPropertyKey(v: Value): (r: string)
    ensures v.Str? ==> r == v.s
    ensures v.Num? ==> r != [] && (r[0] == '-' <==> v.n < 0)
    ensures v.Num? && v.n >= 0 ==> (forall i :: 0 <= i < |r| ==> '0' <= r[i] <= '9') && DigitsValue(r) == v.n
    ensures v.Num? && v.n < 0 ==> (forall i :: 1 <= i < |r| ==> '0' <= r[i] <= '9') && DigitsValue(r[1..]) == -v.n
    decreases v, 1
  {
    match v
    case Undefined => "undefined"
    case Null => "null"
    case Bool(b) => if b then "true" else "false"
    case Num(n) => if n < 0 then "-" + Decimal(-n) else Decimal(n)
    case Str(s) => s
    case Arr(items) => JoinFrom(items, 0)
    case Obj(_) => "[object Object]"
  }

  /** `items.slice(i).join(",")`, where `undefined` and `null` items print as "". */
  function JoinFrom(items: seq<Value>, i: nat): string
    requires i <= |items|
    decreases Arr(items), 0, |items| - i
  {
    if i == |items| then ""
    else
      var head := if items[i].Undefined? || items[i].Null? then "" else ToPropertyKey(items[i]);
      if i + 1 == |items| then head else head + "," + JoinFrom(items, i + 1)
  }
}
