/** JavaScript values as they reach the rule evaluator: row fields, condition
    literals and rows themselves. Numbers are integers (no NaN, no fractions).
    The parts of JavaScript's semantics that depend on object identity or on
    implicit coercion are not interpreted here; they are supplied by a `Host`.
 */
module Values {

  datatype Option<+T> = None | Some(value: T)

  /** A JSON-like JavaScript value. `Obj` is a plain string-keyed record; a key
      that is present but holds `undefined` maps to `Undefined`. */
  datatype Value =
    | Undefined
    | Null
    | Bool(b: bool)
    | Num(n: int)
    | Str(s: string)
    | Arr(elems: seq<Value>)
    | Obj(fields: map<string, Value>)

  /** A row: a string-keyed record of arbitrary values. */
  type Row = map<string, Value>

  /** Values compared by content under `===`; arrays and objects are compared by reference. */
  predicate IsPrimitive(v: Value) {
    !v.Arr? && !v.Obj?
  }

  /** A value the evaluator accepts as a row: null/undefined, a plain object,
      or an array (possibly nested) of such values. */
  predicate IsRowValue(v: Value)
    decreases v
  {
    match v
    case Undefined => true
    case Null => true
    case Obj(_) => true
    case Arr(vs) => forall x :: x in vs ==> IsRowValue(x)
    case _ => false
  }

  /** `row[field]` on a plain record: an absent key reads as `undefined`. */
  function Lookup(row: Row, field: string): Value {
    if field in row then row[field] else Undefined
  }

  /** What the model leaves to the JavaScript engine:
      - `sameObject(a, b)`: whether two arrays/objects are the same reference;
      - `looseLess(a, b)`: the result of `a < b` when the operands are not
        both numbers or both strings (coercing comparison);
      - `toText(v)`: the string a non-string argument of `startsWith` /
        `endsWith` is converted to. */
  datatype Host = Host(
    sameObject: (Value, Value) -> bool,
    looseLess: (Value, Value) -> bool,
    toText: Value -> string)

  /** JavaScript `===` (and `SameValueZero`, which agrees with it when there is no NaN). */
  function StrictEquals(h: Host, a: Value, b: Value): (r: bool)
    ensures IsPrimitive(a) || IsPrimitive(b) ==> (r <==> a == b)
    ensures (a.Arr? && b.Obj?) || (a.Obj? && b.Arr?) ==> !r
  {
    match (a, b)
    case (Undefined, Undefined) => true
    case (Null, Null) => true
    case (Bool(x), Bool(y)) => x == y
    case (Num(x), Num(y)) => x == y
    case (Str(x), Str(y)) => x == y
    case (Arr(_), Arr(_)) => h.sameObject(a, b)
    case (Arr(_), Obj(_)) => false
    case (Obj(_), Arr(_)) => false
    case (Obj(_), Obj(_)) => h.sameObject(a, b)
    case _ => false
  }

  /** `xs.includes(x)`. */
  function Includes(h: Host, xs: seq<Value>, x: Value): (r: bool)
    ensures IsPrimitive(x) ==> (r <==> x in xs)
  {
    exists k :: 0 <= k < |xs| && StrictEquals(h, x, xs[k])
  }

  /** Lexicographic order on strings by character code, as `<` orders two strings. */
  function StrLess(a: string, b: string): bool
    decreases |a|
  {
    if |b| == 0 then false
    else if |a| == 0 then true
    else if a[0] != b[0] then a[0] < b[0]
    else StrLess(a[1..], b[1..])
  }

  lemma {:induction false} StrLessIrreflexive(a: string)
    ensures !StrLess(a, a)
    decreases |a|
  {
    if |a| > 0 {
      StrLessIrreflexive(a[1..]);
    }
  }

  lemma {:induction false} StrLessAsymmetric(a: string, b: string)
    ensures !(StrLess(a, b) && StrLess(b, a))
    decreases |a|
  {
    if |a| > 0 && |b| > 0 && a[0] == b[0] {
      StrLessAsymmetric(a[1..], b[1..]);
    }
  }

  lemma {:induction false} StrLessTotal(a: string, b: string)
    ensures a != b ==> StrLess(a, b) || StrLess(b, a)
    decreases |a|
  {
    if |a| > 0 && |b| > 0 && a[0] == b[0] {
      StrLessTotal(a[1..], b[1..]);
      if a[1..] == b[1..] {
        assert a == [a[0]] + a[1..] && b == [b[0]] + b[1..];
      }
    }
  }

  /** JavaScript `a < b`. */
  function Less(h: Host, a: Value, b: Value): bool {
    match (a, b)
    case (Num(x), Num(y)) => x < y
    case (Str(x), Str(y)) => StrLess(x, y)
    case _ => h.looseLess(a, b)
  }

  /** JavaScript `a > b`, which the language defines as `b < a`. */
  function Greater(h: Host, a: Value, b: Value): bool {
    Less(h, b, a)
  }

  /** The string a `startsWith` / `endsWith` argument is converted to. */
  function Text(h: Host, v: Value): string {
    if v.Str? then v.s else h.toText(v)
  }

  predicate IsPrefix(p: string, s: string) {
    |p| <= |s| && s[..|p|] == p
  }

  predicate IsSuffix(p: string, s: string) {
    |p| <= |s| && s[|s| - |p|..] == p
  }
}
