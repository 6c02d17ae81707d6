/** The rule evaluator of src/evaluateCondition.ts: row-shape resolution,
    structural dispatch on the rule's keys, and the leaf operator switch.
    A thrown `Error` is an `Err` result; `some` / `every` are written as
    index-recursive scans so that they stop where the source stops.
 */
module Evaluator {
  import opened Values
  import opened Types
  import opened Results

  /** `isCondition`: a plain object with `field`, `operator` and `value` keys. */
  predicate IsCondition(rule: Rule) {
    rule.Node? && rule.field.Some? && rule.operator.Some? && rule.value.Some?
  }

  /** `isAny`: a plain object whose `any` key holds an array. */
  predicate IsAny(rule: Rule) {
    rule.Node? && rule.anyOf.Children?
  }

  /** `isAll`: a plain object whose `all` key holds an array. */
  predicate IsAll(rule: Rule) {
    rule.Node? && rule.allOf.Children?
  }

  /** The operator names the leaf switch has a case for. */
  const HandledOperators: set<string> := {
    "equals", "notEquals", "greaterThan", "lessThan", "contains",
    "startsWith", "endsWith", "in", "notIn"
  }

  /** The only errors evaluation can produce: an invalid row, or an unknown
      operator whose name the switch indeed does not handle. */
  predicate Reportable(e: Error) {
    e.InvalidRow? || e.op !in HandledOperators
  }

  /** `evaluateSingleCondition`: the operator switch on `row[field]` and `value`. */
  function EvaluateSingleCondition(h: Host, field: string, op: string, value: Value, row: Row)
    : (r: Result<bool>)
    ensures r.Err? <==> op !in HandledOperators
    ensures r.Err? ==> r.error == UnknownOperator(op)
    ensures op == "contains" && !Lookup(row, field).Arr? ==> r == Ok(false)
    ensures (op == "startsWith" || op == "endsWith") && !Lookup(row, field).Str? ==> r == Ok(false)
    ensures (op == "in" || op == "notIn") && !value.Arr? ==> r == Ok(false)
  {
    var rowValue := Lookup(row, field);
    match op
    case "equals" => Ok(StrictEquals(h, rowValue, value))
    case "notEquals" => Ok(!StrictEquals(h, rowValue, value))
    case "greaterThan" => Ok(Greater(h, rowValue, value))
    case "lessThan" => Ok(Less(h, rowValue, value))
    case "contains" => Ok(if rowValue.Arr? then Includes(h, rowValue.elems, value) else false)
    case "startsWith" => Ok(rowValue.Str? && IsPrefix(Text(h, value), rowValue.s))
    case "endsWith" => Ok(rowValue.Str? && IsSuffix(Text(h, value), rowValue.s))
    case "in" => Ok(value.Arr? && Includes(h, value.elems, rowValue))
    case "notIn" => Ok(value.Arr? && !Includes(h, value.elems, rowValue))
    case _ => Err(UnknownOperator(op))
  }

  /** `evaluateCondition(rule, row)`. */
  function Evaluate(h: Host, rule: Rule, row: Value): (r: Result<bool>)
    ensures row.Null? || row.Undefined? ==> r == Ok(false)
    ensures row.Bool? || row.Num? || row.Str? ==> r == Err(InvalidRow)
    ensures row == Arr([]) ==> r == Ok(false)
    ensures r.Err? ==> Reportable(r.error)
    ensures r == Err(InvalidRow) ==> !IsRowValue(row)
    decreases rule, row, 2
  {
    match row
    case Null => Ok(false)
    case Undefined => Ok(false)
    case Bool(_) => Err(InvalidRow)
    case Num(_) => Err(InvalidRow)
    case Str(_) => Err(InvalidRow)
    case Arr(rows) =>
      if |rows| == 0 then Ok(false)
      else ScanRows(h, rule, rows, 0)
    case Obj(fields) => EvaluateObject(h, rule, fields)
  }

  /** `row.some((r) => evaluateCondition(rule, r))`, from element `i` on. */
  function ScanRows(h: Host, rule: Rule, rows: seq<Value>, i: nat): (r: Result<bool>)
    requires i <= |rows|
    ensures r.Err? ==> Reportable(r.error)
    ensures r == Err(InvalidRow) ==> exists k :: i <= k < |rows| && !IsRowValue(rows[k])
    decreases rule, Arr(rows), 0, |rows| - i
  {
    if i == |rows| then Ok(false)
    else
      var first := Evaluate(h, rule, rows[i]);
      if first == Ok(false) then ScanRows(h, rule, rows, i + 1) else first
  }

  /** `evaluateRuleForRowObject`: a condition first, then an `any` group, then
      an `all` group; a node of none of these shapes is false. */
  function EvaluateObject(h: Host, rule: Rule, row: Row): (r: Result<bool>)
    ensures r.Err? ==> Reportable(r.error)
    ensures r != Err(InvalidRow)
    decreases rule, Obj(row), 1
  {
    if IsCondition(rule) then
      EvaluateSingleCondition(h, rule.field.value, rule.operator.value, rule.value.value, row)
    else if IsAny(rule) then AnyOf(h, rule.anyOf, Obj(row), 0)
    else if IsAll(rule) then EveryOf(h, rule.allOf, Obj(row), 0)
    else Ok(false)
  }

  /** `rule.any.some((subRule) => evaluateCondition(subRule, row))`, from child `i` on. */
  function AnyOf(h: Host, group: Member, row: Value, i: nat): (r: Result<bool>)
    requires group.Children? && i <= |group.rules|
    ensures r.Err? ==> Reportable(r.error)
    ensures IsRowValue(row) ==> r != Err(InvalidRow)
    decreases group, row, 0, |group.rules| - i
  {
    if i == |group.rules| then Ok(false)
    else
      var first := Evaluate(h, group.rules[i], row);
      if first == Ok(false) then AnyOf(h, group, row, i + 1) else first
  }

  /** `rule.all.every((subRule) => evaluateCondition(subRule, row))`, from child `i` on. */
  function EveryOf(h: Host, group: Member, row: Value, i: nat): (r: Result<bool>)
    requires group.Children? && i <= |group.rules|
    ensures r.Err? ==> Reportable(r.error)
    ensures IsRowValue(row) ==> r != Err(InvalidRow)
    decreases group, row, 0, |group.rules| - i
  {
    if i == |group.rules| then Ok(true)
    else
      var first := Evaluate(h, group.rules[i], row);
      if first == Ok(true) then EveryOf(h, group, row, i + 1) else first
  }
}
