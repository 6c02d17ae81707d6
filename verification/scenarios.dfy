/** Concrete cases from src/evaluateCondition.test.ts, stated for every host
    (all values involved are primitives, so the host is never consulted).
 */
module Scenarios {
  import opened Values
  import opened Types
  import opened Results
  import opened Evaluator

  function Condition(field: string, op: string, value: Value): Rule {
    Node(Some(field), Some(op), Some(value), Missing, Missing, None)
  }

  function AnyGroup(rules: seq<Rule>): Rule {
    Node(None, None, None, Children(rules), Missing, None)
  }

  function AllGroup(rules: seq<Rule>): Rule {
    Node(None, None, None, Missing, Children(rules), None)
  }

  /** `{age: 30}` satisfies `age equals 30`. */
  lemma EqualsScenario(h: Host)
    ensures Evaluate(h, Condition("age", "equals", Num(30)), Obj(map["age" := Num(30)])) == Ok(true)
  {
  }

  /** `x equals 1 OR x equals 2` holds of `{x: 2}`; `a = 1 AND b = 2` holds of `{a: 1, b: 2}`
      and fails on `{a: 1, b: 3}`. */
  lemma GroupScenario(h: Host)
    ensures Evaluate(h, AnyGroup([Condition("x", "equals", Num(1)), Condition("x", "equals", Num(2))]),
                     Obj(map["x" := Num(2)])) == Ok(true)
    ensures Evaluate(h, AllGroup([Condition("a", "equals", Num(1)), Condition("b", "equals", Num(2))]),
                     Obj(map["a" := Num(1), "b" := Num(2)])) == Ok(true)
    ensures Evaluate(h, AllGroup([Condition("a", "equals", Num(1)), Condition("b", "equals", Num(2))]),
                     Obj(map["a" := Num(1), "b" := Num(3)])) == Ok(false)
  {
    var any := AnyGroup([Condition("x", "equals", Num(1)), Condition("x", "equals", Num(2))]);
    assert Evaluate(h, any.anyOf.rules[0], Obj(map["x" := Num(2)])) == Ok(false);
    assert Evaluate(h, any.anyOf.rules[1], Obj(map["x" := Num(2)])) == Ok(true);
    var all := AllGroup([Condition("a", "equals", Num(1)), Condition("b", "equals", Num(2))]);
    var row := Obj(map["a" := Num(1), "b" := Num(3)]);
    assert Evaluate(h, all.allOf.rules[0], row) == Ok(true);
    assert Evaluate(h, all.allOf.rules[1], row) == Ok(false);
    var both := Obj(map["a" := Num(1), "b" := Num(2)]);
    assert Evaluate(h, all.allOf.rules[0], both) == Ok(true);
    assert Evaluate(h, all.allOf.rules[1], both) == Ok(true);
  }

  /** An array of rows matches when one of its rows does. */
  lemma ArrayRowScenario(h: Host)
    ensures Evaluate(h, Condition("age", "equals", Num(30)),
                     Arr([Obj(map["age" := Num(20)]), Obj(map["age" := Num(30)])])) == Ok(true)
    ensures Evaluate(h, Condition("age", "equals", Num(30)),
                     Arr([Obj(map["age" := Num(20)]), Obj(map["age" := Num(25)])])) == Ok(false)
  {
    var rule := Condition("age", "equals", Num(30));
    assert Evaluate(h, rule, Obj(map["age" := Num(20)])) == Ok(false);
    assert Evaluate(h, rule, Obj(map["age" := Num(30)])) == Ok(true);
    assert Evaluate(h, rule, Obj(map["age" := Num(25)])) == Ok(false);
  }

  /** A number row throws; an operator `???` throws `Unknown operator: ???`. */
  lemma ErrorScenario(h: Host)
    ensures Evaluate(h, Condition("age", "equals", Num(1)), Num(5)) == Err(InvalidRow)
    ensures Evaluate(h, Condition("x", "???", Num(1)), Obj(map["x" := Num(1)]))
            == Err(UnknownOperator("???"))
    ensures Message(UnknownOperator("???")) == "Unknown operator: ???"
  {
  }

  /** `{field: 'x', operator: 'equals', value: 1, not: true}` on `{x: 1}` is TRUE:
      the `not` key is not read, so the negation the test file expects does not happen. */
  lemma NotKeyDoesNotInvert(h: Host)
    ensures Evaluate(h, Node(Some("x"), Some("equals"), Some(Num(1)), Missing, Missing, Some(true)),
                     Obj(map["x" := Num(1)])) == Ok(true)
  {
  }
}
