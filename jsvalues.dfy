/** JavaScript values as they reach the application from JSON bodies, query
    strings and the database, with the coercions the code applies to them:
    truthiness, `typeof`, `Number(..)`, `String(..)` and `parseInt`.
    Numbers are integers; see README for what that leaves out. */
module Js {
  import opened JsText
  import opened Wrappers
  import opened Dict

  /** The result of a numeric coercion: an integer, or NaN. */
  datatype JsNumber = NaN | Int(value: int)

  datatype JsVal =
    | Undefined
    | Null
    | Bool(b: bool)
    | Num(n: int)
    | Str(s: string)
    | Arr(items: seq<JsVal>)
    | Obj(fields: seq<(string, JsVal)>)

  /** `!!v`. */
  predicate Truthy(v: JsVal) {
    match v
    case Undefined => false
    case Null => false
    case Bool(b) => b
    case Num(n) => n != 0
    case Str(s) => s != ""
    case Arr(_) => true
    case Obj(_) => true
  }

  /** `typeof v`. */
  function TypeOf(v: JsVal): string {
    match v
    case Undefined => "undefined"
    case Bool(_) => "boolean"
    case Num(_) => "number"
    case Str(_) => "string"
    case _ => "object"
  }

  /** `Array.isArray(v)`. */
  predicate IsArray(v: JsVal) {
    v.Arr?
  }

  /** `Number(s)` for a string: surrounding whitespace is ignored, the empty
      string is 0, an optionally signed run of decimal digits is its value,
      anything else is NaN. */
  function StringToNumber(s: string): JsNumber {
    var t := Trim(s);
    if t == "" then Int(0)
    else if |t| > 1 && t[0] == '-' && AllDigits(t[1..]) then Int(-(DigitsValue(t[1..]) as int))
    else if |t| > 1 && t[0] == '+' && AllDigits(t[1..]) then Int(DigitsValue(t[1..]))
    else if AllDigits(t) then Int(DigitsValue(t))
    else NaN
  }

  /** `Number(String(i))` is `i`. */
  lemma StringToNumberOfInt(i: int)
    ensures StringToNumber(IntToString(i)) == Int(i)
  {
    var s := IntToString(i);
    var d := NatToDigits(if i < 0 then -i else i);
    DigitsRoundTrip(if i < 0 then -i else i);
    TrimIntToString(i);
    if i < 0 {
      assert s[1..] == d;
    }
  }

  /** `Number(v)`. */
  function ToNumber(v: JsVal): JsNumber {
    match v
    case Undefined => NaN
    case Null => Int(0)
    case Bool(b) => Int(if b then 1 else 0)
    case Num(n) => Int(n)
    case Str(s) => StringToNumber(s)
    case Arr(_) => StringToNumber(ToStr(v))
    case Obj(_) => NaN
  }

  /** `String(v)`: arrays are joined with commas, with `null` and
      `undefined` elements written as empty strings. */
  function ToStr(v: JsVal): string
    decreases v, if v.Arr? then |v.items| + 1 else 0
  {
    match v
    case Undefined => "undefined"
    case Null => "null"
    case Bool(b) => if b then "true" else "false"
    case Num(n) => IntToString(n)
    case Str(s) => s
    case Arr(items) => JoinItems(v, 0)
    case Obj(_) => "[object Object]"
  }

  function JoinItems(v: JsVal, i: nat): string
    requires v.Arr? && i <= |v.items|
    decreases v, |v.items| - i
  {
    if i == |v.items| then ""
    else
      var x := v.items[i];
      var item := if x.Undefined? || x.Null? then "" else ToStr(x);
      (if i == 0 then "" else ",") + item + JoinItems(v, i + 1)
  }

  /** The longest prefix of decimal digits. */
  function LeadingDigits(s: string): (r: string)
    ensures AllDigits(r) && |r| <= |s| && r == s[..|r|]
    ensures |r| < |s| ==> !IsDigit(s[|r|])
  {
    if s != [] && IsDigit(s[0]) then [s[0]] + LeadingDigits(s[1..]) else ""
  }

  /** `parseInt(s)`: leading whitespace, an optional sign, then as many
      decimal digits as there are; NaN when there are none. */
  function ParseInt(s: string): JsNumber {
    var t := TrimStart(s);
    var neg := t != [] && t[0] == '-';
    var body := if t != [] && (t[0] == '-' || t[0] == '+') then t[1..] else t;
    var d := LeadingDigits(body);
    if d == [] then NaN else Int(if neg then -(DigitsValue(d) as int) else DigitsValue(d))
  }

  lemma {:induction false} LeadingDigitsAll(s: string)
    requires AllDigits(s)
    ensures LeadingDigits(s) == s
  {
    if s != [] {
      LeadingDigitsAll(s[1..]);
    }
  }

  /** `parseInt(String(i))` is `i`. */
  lemma ParseIntOfInt(i: int)
    ensures ParseInt(IntToString(i)) == Int(i)
  {
    var s := IntToString(i);
    var d := NatToDigits(if i < 0 then -i else i);
    DigitsRoundTrip(if i < 0 then -i else i);
    TrimIntToString(i);
    assert TrimStart(s) == s;
    LeadingDigitsAll(d);
    if i < 0 {
      assert s[1..] == d;
    } else {
      assert s[0] != '-' && s[0] != '+';
    }
  }

  /** `a > b` between two numbers; false whenever either is NaN. */
  predicate Greater(a: JsNumber, b: JsNumber) {
    a.Int? && b.Int? && a.value > b.value
  }

  /** `a >= b` between two numbers; false whenever either is NaN. */
  predicate AtLeast(a: JsNumber, b: JsNumber) {
    a.Int? && b.Int? && a.value >= b.value
  }

  /** `a === b`. Arrays and objects compare by reference, which the model
      does not track, so two of them are never taken to be identical. */
  predicate StrictEquals(a: JsVal, b: JsVal) {
    a == b && !a.Arr? && !a.Obj?
  }

  /** `a || b`. */
  function Or(a: JsVal, b: JsVal): JsVal {
    if Truthy(a) then a else b
  }

  /** `v[i]`: an array element, a character of a string, `undefined` past the
      end or on other values; None where JavaScript throws a TypeError
      (on `null` and `undefined`). */
  function Index(v: JsVal, i: nat): Option<JsVal> {
    match v
    case Undefined => None
    case Null => None
    case Arr(items) => Some(if i < |items| then items[i] else Undefined)
    case Str(s) => Some(if i < |s| then Str([s[i]]) else Undefined)
    case _ => Some(Undefined)
  }

  /** A cell read back from a spreadsheet row: a string, or `undefined`
      where the row is shorter. */
  predicate IsCell(v: JsVal) {
    v.Str? || v.Undefined?
  }

  /** `row[i]` on a spreadsheet row. */
  function Cell(row: seq<string>, i: nat): (v: JsVal)
    ensures IsCell(v)
    ensures i < |row| <==> v.Str?
  {
    if i < |row| then Str(row[i]) else Undefined
  }

  /** `Object.entries(v)` for a value that is not null or undefined: the
      fields of an object, the indexed elements of an array or the indexed
      characters of a string; other values have no own entries. */
  function Entries(v: JsVal): (es: seq<(string, JsVal)>)
    ensures v.Obj? ==> es == v.fields
    ensures !v.Obj? && !v.Arr? && !v.Str? ==> es == []
  {
    match v
    case Obj(fields) => fields
    case Arr(items) => seq(|items|, i requires 0 <= i < |items| => (IntToString(i), items[i]))
    case Str(s) => seq(|s|, i requires 0 <= i < |s| => (IntToString(i), Str([s[i]])))
    case _ => []
  }

  /** The number a value converts to, 0 for NaN. */
  function NumberOf(v: JsVal): int {
    match ToNumber(v)
    case Int(n) => n
    case NaN => 0
  }

  /** `o[k]` on a plain object: the value stored under `k`, `undefined`
      when there is none. */
  function Field(o: Dict<JsVal>, k: string): (v: JsVal)
    ensures HasKey(o, k) ==> Some(v) == Get(o, k)
    ensures !HasKey(o, k) ==> v == Undefined
  {
    var r := Get(o, k);
    if r.Some? then r.value else Undefined
  }

  /** `vs[0] || vs[1] || ... || vs[n-1]`: the first truthy value, or the
      last value when none is truthy. */
  function Coalesce(vs: seq<JsVal>): (r: JsVal)
    requires |vs| > 0
    ensures r in vs
    ensures Truthy(r) <==> exists i :: 0 <= i < |vs| && Truthy(vs[i])
    ensures forall i :: 0 <= i < |vs| && Truthy(vs[i]) && (forall j :: 0 <= j < i ==> !Truthy(vs[j])) ==> r == vs[i]
    ensures (forall i :: 0 <= i < |vs| ==> !Truthy(vs[i])) ==> r == vs[|vs| - 1]
  {
    if |vs| == 1 || Truthy(vs[0]) then vs[0]
    else
      var r := Coalesce(vs[1..]);
      assert forall i :: 1 <= i < |vs| ==> vs[i] == vs[1..][i - 1];
      r
  }

  /** The chain `a || b || c || d`, which JavaScript groups to the left, is
      the first truthy of the four. */
  lemma OrChainIsCoalesce(a: JsVal, b: JsVal, c: JsVal, d: JsVal)
    ensures Or(Or(Or(a, b), c), d) == Coalesce([a, b, c, d])
  {
    assert [c, d][1..] == [d];
    CoalesceStep([c, d]);
    assert [b, c, d][1..] == [c, d];
    CoalesceStep([b, c, d]);
    assert [a, b, c, d][1..] == [b, c, d];
    CoalesceStep([a, b, c, d]);
    assert Coalesce([a, b, c, d]) == Or(a, Or(b, Or(c, d)));
  }

  /** One step of a chain: the first value if truthy, else the rest. */
  lemma CoalesceStep(vs: seq<JsVal>)
    requires |vs| > 1
    ensures Coalesce(vs) == Or(vs[0], Coalesce(vs[1..]))
  {
  }
}
