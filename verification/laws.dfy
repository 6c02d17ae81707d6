/** Laws of the evaluator: an array row is a disjunction over its elements,
    an `any` group a disjunction and an `all` group a conjunction over their
    children (with the short-circuit and error behaviour of `some` / `every`),
    the precedence of the shape guards, and the algebra of the leaf operators.
 */
module Laws {
  import opened Values
  import opened Types
  import opened Results
  import opened Evaluator

  /** The outcome of the rule on each element of an array row, in order. */
  function RowResults(h: Host, rule: Rule, rows: seq<Value>): (rs: seq<Result<bool>>)
    ensures |rs| == |rows|
    ensures forall k :: 0 <= k < |rows| ==> rs[k] == Evaluate(h, rule, rows[k])
  {
    seq(|rows|, k requires 0 <= k < |rows| => Evaluate(h, rule, rows[k]))
  }

  /** The outcome of each child rule on the same row, in order. */
  function ChildResults(h: Host, rules: seq<Rule>, row: Value): (rs: seq<Result<bool>>)
    ensures |rs| == |rules|
    ensures forall k :: 0 <= k < |rules| ==> rs[k] == Evaluate(h, rules[k], row)
  {
    seq(|rules|, k requires 0 <= k < |rules| => Evaluate(h, rules[k], row))
  }

  // ---------------------------------------------------------------------------
  // The scans are the short-circuiting combinators

  lemma {:induction false} ScanRowsIsSomeTrue(h: Host, rule: Rule, rows: seq<Value>, i: nat)
    requires i <= |rows|
    ensures ScanRows(h, rule, rows, i) == SomeTrue(RowResults(h, rule, rows)[i..])
    decreases |rows| - i
  {
    var rs := RowResults(h, rule, rows);
    if i < |rows| {
      assert rs[i..][0] == rs[i];
      assert rs[i..][1..] == rs[i + 1..];
      ScanRowsIsSomeTrue(h, rule, rows, i + 1);
    }
  }

  lemma {:induction false} AnyOfIsSomeTrue(h: Host, group: Member, row: Value, i: nat)
    requires group.Children? && i <= |group.rules|
    ensures AnyOf(h, group, row, i) == SomeTrue(ChildResults(h, group.rules, row)[i..])
    decreases |group.rules| - i
  {
    var rs := ChildResults(h, group.rules, row);
    if i < |group.rules| {
      assert rs[i..][0] == rs[i];
      assert rs[i..][1..] == rs[i + 1..];
      AnyOfIsSomeTrue(h, group, row, i + 1);
    }
  }

  lemma {:induction false} EveryOfIsEveryTrue(h: Host, group: Member, row: Value, i: nat)
    requires group.Children? && i <= |group.rules|
    ensures EveryOf(h, group, row, i) == EveryTrue(ChildResults(h, group.rules, row)[i..])
    decreases |group.rules| - i
  {
    var rs := ChildResults(h, group.rules, row);
    if i < |group.rules| {
      assert rs[i..][0] == rs[i];
      assert rs[i..][1..] == rs[i + 1..];
      EveryOfIsEveryTrue(h, group, row, i + 1);
    }
  }

  // ---------------------------------------------------------------------------
  // Row-shape resolution

  /** An array row is the short-circuiting OR of the rule over its elements,
      left to right; the empty array is false. */
  lemma ArrayRowIsDisjunction(h: Host, rule: Rule, rows: seq<Value>)
    ensures Evaluate(h, rule, Arr(rows)) == SomeTrue(RowResults(h, rule, rows))
  {
    ScanRowsIsSomeTrue(h, rule, rows, 0);
    assert RowResults(h, rule, rows)[0..] == RowResults(h, rule, rows);
  }

  /** When no element throws, an array row is true iff some element is true. */
  lemma ArrayRowWithoutErrors(h: Host, rule: Rule, rows: seq<Value>)
    requires forall k :: 0 <= k < |rows| ==> Evaluate(h, rule, rows[k]).Ok?
    ensures Evaluate(h, rule, Arr(rows))
            == Ok(exists k :: 0 <= k < |rows| && Evaluate(h, rule, rows[k]) == Ok(true))
  {
    ArrayRowIsDisjunction(h, rule, rows);
    var rs := RowResults(h, rule, rows);
    SomeTrueWithoutErrors(rs);
    assert (exists k :: 0 <= k < |rs| && rs[k].value)
       <==> (exists k :: 0 <= k < |rows| && Evaluate(h, rule, rows[k]) == Ok(true));
  }

  /** The array outcome is that of the first element that is not false: scanning
      stops at the first true element or the first error. */
  lemma ArrayRowIsFirstDecisive(h: Host, rule: Rule, rows: seq<Value>, k: nat)
    requires k < |rows| && Evaluate(h, rule, rows[k]) != Ok(false)
    requires forall j :: 0 <= j < k ==> Evaluate(h, rule, rows[j]) == Ok(false)
    ensures Evaluate(h, rule, Arr(rows)) == Evaluate(h, rule, rows[k])
  {
    ArrayRowIsDisjunction(h, rule, rows);
    SomeTrueIsFirstDecisive(RowResults(h, rule, rows), k);
  }

  /** Once an array row matches, elements appended after it are never
      evaluated: even an element that would throw cannot change the outcome. */
  lemma ArrayRowIgnoresLaterElements(h: Host, rule: Rule, rows: seq<Value>, more: seq<Value>)
    requires Evaluate(h, rule, Arr(rows)) == Ok(true)
    ensures Evaluate(h, rule, Arr(rows + more)) == Ok(true)
  {
    var a := RowResults(h, rule, rows);
    var b := RowResults(h, rule, more);
    var ab := RowResults(h, rule, rows + more);
    forall k | 0 <= k < |ab|
      ensures ab[k] == (a + b)[k]
    {
      if k < |rows| {
        assert (rows + more)[k] == rows[k];
      } else {
        assert (rows + more)[k] == more[k - |rows|];
      }
    }
    assert ab == a + b;
    ArrayRowIsDisjunction(h, rule, rows);
    ArrayRowIsDisjunction(h, rule, rows + more);
    SomeTrueAppend(a, b);
  }

  /** A rule that is false on every plain-object row is false on every value
      the evaluator accepts as a row. */
  lemma {:induction false} FalseOnObjectsIsFalseOnRows(h: Host, rule: Rule, row: Value)
    requires forall fields: Row :: Evaluate(h, rule, Obj(fields)) == Ok(false)
    requires IsRowValue(row)
    ensures Evaluate(h, rule, row) == Ok(false)
    decreases row
  {
    match row
    case Arr(rows) =>
      forall k | 0 <= k < |rows|
        ensures Evaluate(h, rule, rows[k]) == Ok(false)
      {
        assert rows[k] in rows;
        FalseOnObjectsIsFalseOnRows(h, rule, rows[k]);
      }
      ArrayRowIsDisjunction(h, rule, rows);
    case _ =>
  }

  // ---------------------------------------------------------------------------
  // Groups

  /** An `any` group (that is not also a condition) is the short-circuiting OR
      of its children, each evaluated against the same row. */
  lemma AnyGroupIsDisjunction(h: Host, rule: Rule, row: Row)
    requires IsAny(rule) && !IsCondition(rule)
    ensures Evaluate(h, rule, Obj(row)) == SomeTrue(ChildResults(h, rule.anyOf.rules, Obj(row)))
  {
    AnyOfIsSomeTrue(h, rule.anyOf, Obj(row), 0);
    assert ChildResults(h, rule.anyOf.rules, Obj(row))[0..]
        == ChildResults(h, rule.anyOf.rules, Obj(row));
  }

  /** An `all` group (that is neither a condition nor an `any` group) is the
      short-circuiting AND of its children, each evaluated against the same row. */
  lemma AllGroupIsConjunction(h: Host, rule: Rule, row: Row)
    requires IsAll(rule) && !IsAny(rule) && !IsCondition(rule)
    ensures Evaluate(h, rule, Obj(row)) == EveryTrue(ChildResults(h, rule.allOf.rules, Obj(row)))
  {
    EveryOfIsEveryTrue(h, rule.allOf, Obj(row), 0);
    assert ChildResults(h, rule.allOf.rules, Obj(row))[0..]
        == ChildResults(h, rule.allOf.rules, Obj(row));
  }

  /** Without errors, an `any` group is true iff at least one child is true. */
  lemma AnyGroupWithoutErrors(h: Host, rule: Rule, row: Row)
    requires IsAny(rule) && !IsCondition(rule)
    requires forall c :: c in rule.anyOf.rules ==> Evaluate(h, c, Obj(row)).Ok?
    ensures Evaluate(h, rule, Obj(row))
            == Ok(exists c :: c in rule.anyOf.rules && Evaluate(h, c, Obj(row)) == Ok(true))
  {
    AnyGroupIsDisjunction(h, rule, row);
    var rs := ChildResults(h, rule.anyOf.rules, Obj(row));
    assert forall k :: 0 <= k < |rs| ==> rs[k].Ok? by {
      forall k | 0 <= k < |rs| ensures rs[k].Ok? {
        assert rule.anyOf.rules[k] in rule.anyOf.rules;
      }
    }
    SomeTrueWithoutErrors(rs);
    if exists c :: c in rule.anyOf.rules && Evaluate(h, c, Obj(row)) == Ok(true) {
      var c :| c in rule.anyOf.rules && Evaluate(h, c, Obj(row)) == Ok(true);
      var k :| 0 <= k < |rule.anyOf.rules| && rule.anyOf.rules[k] == c;
      assert rs[k].value;
    }
  }

  /** Without errors, an `all` group is true iff every child is true. */
  lemma AllGroupWithoutErrors(h: Host, rule: Rule, row: Row)
    requires IsAll(rule) && !IsAny(rule) && !IsCondition(rule)
    requires forall c :: c in rule.allOf.rules ==> Evaluate(h, c, Obj(row)).Ok?
    ensures Evaluate(h, rule, Obj(row))
            == Ok(forall c :: c in rule.allOf.rules ==> Evaluate(h, c, Obj(row)) == Ok(true))
  {
    AllGroupIsConjunction(h, rule, row);
    var rs := ChildResults(h, rule.allOf.rules, Obj(row));
    assert forall k :: 0 <= k < |rs| ==> rs[k].Ok? by {
      forall k | 0 <= k < |rs| ensures rs[k].Ok? {
        assert rule.allOf.rules[k] in rule.allOf.rules;
      }
    }
    EveryTrueWithoutErrors(rs);
    if !forall c :: c in rule.allOf.rules ==> Evaluate(h, c, Obj(row)) == Ok(true) {
      var c :| c in rule.allOf.rules && Evaluate(h, c, Obj(row)) != Ok(true);
      var k :| 0 <= k < |rule.allOf.rules| && rule.allOf.rules[k] == c;
      assert !rs[k].value;
    }
  }

  /** An `all` group stops at its first false child: children after it are never
      evaluated, so an unknown operator there raises no error. */
  lemma AllGroupStopsAtFirstFalse(h: Host, rule: Rule, row: Row, k: nat)
    requires IsAll(rule) && !IsAny(rule) && !IsCondition(rule)
    requires k < |rule.allOf.rules| && Evaluate(h, rule.allOf.rules[k], Obj(row)) == Ok(false)
    requires forall j :: 0 <= j < k ==> Evaluate(h, rule.allOf.rules[j], Obj(row)) == Ok(true)
    ensures Evaluate(h, rule, Obj(row)) == Ok(false)
  {
    AllGroupIsConjunction(h, rule, row);
    EveryTrueIsFirstDecisive(ChildResults(h, rule.allOf.rules, Obj(row)), k);
  }

  /** An `any` group stops at its first true child: children after it are never
      evaluated, so an unknown operator there raises no error. */
  lemma AnyGroupStopsAtFirstTrue(h: Host, rule: Rule, row: Row, k: nat)
    requires IsAny(rule) && !IsCondition(rule)
    requires k < |rule.anyOf.rules| && Evaluate(h, rule.anyOf.rules[k], Obj(row)) == Ok(true)
    requires forall j :: 0 <= j < k ==> Evaluate(h, rule.anyOf.rules[j], Obj(row)) == Ok(false)
    ensures Evaluate(h, rule, Obj(row)) == Ok(true)
  {
    AnyGroupIsDisjunction(h, rule, row);
    SomeTrueIsFirstDecisive(ChildResults(h, rule.anyOf.rules, Obj(row)), k);
  }

  /** An empty `any` group is false on every row the evaluator accepts. */
  lemma EmptyAnyIsFalse(h: Host, rule: Rule, row: Value)
    requires rule.Node? && rule.anyOf == Children([]) && !IsCondition(rule)
    requires IsRowValue(row)
    ensures Evaluate(h, rule, row) == Ok(false)
  {
    forall fields: Row
      ensures Evaluate(h, rule, Obj(fields)) == Ok(false)
    {
      assert AnyOf(h, rule.anyOf, Obj(fields), 0) == Ok(false);
    }
    FalseOnObjectsIsFalseOnRows(h, rule, row);
  }

  /** An empty `all` group (not shadowed by a condition or an `any` key) is true on an object row. */
  lemma EmptyAllIsTrue(h: Host, rule: Rule, row: Row)
    requires rule.Node? && rule.allOf == Children([]) && !IsCondition(rule) && !IsAny(rule)
    ensures Evaluate(h, rule, Obj(row)) == Ok(true)
  {
    assert EveryOf(h, rule.allOf, Obj(row), 0) == Ok(true);
  }

  /** A node matching none of the three shapes is false, with no error, on
      every row the evaluator accepts. */
  lemma MalformedRuleIsFalse(h: Host, rule: Rule, row: Value)
    requires !IsCondition(rule) && !IsAny(rule) && !IsAll(rule)
    requires IsRowValue(row)
    ensures Evaluate(h, rule, row) == Ok(false)
  {
    FalseOnObjectsIsFalseOnRows(h, rule, row);
  }

  /** A node with `field`, `operator` and `value` is a condition: whatever its
      `any` / `all` keys hold, they are never read, on any row. */
  lemma {:induction false} ConditionShapeWins(h: Host, rule: Rule, anyOf: Member, allOf: Member, row: Value)
    requires IsCondition(rule)
    ensures Evaluate(h, rule.(anyOf := anyOf, allOf := allOf), row) == Evaluate(h, rule, row)
    decreases row
  {
    var other := rule.(anyOf := anyOf, allOf := allOf);
    match row
    case Arr(rows) =>
      forall k | 0 <= k < |rows|
        ensures Evaluate(h, other, rows[k]) == Evaluate(h, rule, rows[k])
      {
        ConditionShapeWins(h, rule, anyOf, allOf, rows[k]);
      }
      ArrayRowIsDisjunction(h, rule, rows);
      ArrayRowIsDisjunction(h, other, rows);
      assert RowResults(h, other, rows) == RowResults(h, rule, rows);
    case _ =>
  }

  // ---------------------------------------------------------------------------
  // The `not` key is never read

  /** No node of the tree carries a `not` key. */
  predicate NegationFree(rule: Rule)
    decreases rule
  {
    rule.Node? ==>
      && rule.negate.None?
      && (rule.anyOf.Children? ==> forall c :: c in rule.anyOf.rules ==> NegationFree(c))
      && (rule.allOf.Children? ==> forall c :: c in rule.allOf.rules ==> NegationFree(c))
  }

  /** The tree with every `not` key removed and everything else kept. */
  function StripNegation(rule: Rule): (r: Rule)
    ensures NegationFree(r)
    ensures IsCondition(r) == IsCondition(rule)
    ensures IsAny(r) == IsAny(rule) && IsAll(r) == IsAll(rule)
    ensures r.Node? == rule.Node?
    ensures r.Node? ==> r.field == rule.field && r.operator == rule.operator && r.value == rule.value
    decreases rule, 1
  {
    match rule
    case NotAnObject => NotAnObject
    case Node(field, operator, value, anyOf, allOf, _) =>
      Node(field, operator, value, StripMember(anyOf), StripMember(allOf), None)
  }

  function StripMember(m: Member): (r: Member)
    ensures r.Children? == m.Children?
    ensures m.Children? ==> |r.rules| == |m.rules|
    ensures m.Children? ==> forall k :: 0 <= k < |m.rules| ==> r.rules[k] == StripNegation(m.rules[k])
    ensures r.Children? ==> forall c :: c in r.rules ==> NegationFree(c)
    decreases m, 0
  {
    match m
    case Children(rules) =>
      Children(seq(|rules|, k requires 0 <= k < |rules| => StripNegation(rules[k])))
    case _ => m
  }

  /** The evaluator never reads `not`: removing every `not` key anywhere in the
      tree leaves the outcome unchanged on every row (so `{not: true, ...}`
      is NOT a negation in this evaluator). */
  lemma {:induction false} NegationFlagIgnored(h: Host, rule: Rule, row: Value)
    ensures Evaluate(h, StripNegation(rule), row) == Evaluate(h, rule, row)
    decreases rule, row
  {
    var s := StripNegation(rule);
    match row
    case Arr(rows) =>
      forall k | 0 <= k < |rows|
        ensures Evaluate(h, s, rows[k]) == Evaluate(h, rule, rows[k])
      {
        NegationFlagIgnored(h, rule, rows[k]);
      }
      ArrayRowIsDisjunction(h, rule, rows);
      ArrayRowIsDisjunction(h, s, rows);
      assert RowResults(h, s, rows) == RowResults(h, rule, rows);
    case Obj(fields) =>
      if IsCondition(rule) {
      } else if IsAny(rule) {
        var cs := rule.anyOf.rules;
        forall k | 0 <= k < |cs|
          ensures Evaluate(h, s.anyOf.rules[k], row) == Evaluate(h, cs[k], row)
        {
          NegationFlagIgnored(h, cs[k], row);
        }
        AnyGroupIsDisjunction(h, rule, fields);
        AnyGroupIsDisjunction(h, s, fields);
        assert ChildResults(h, s.anyOf.rules, row) == ChildResults(h, cs, row);
      } else if IsAll(rule) {
        var cs := rule.allOf.rules;
        forall k | 0 <= k < |cs|
          ensures Evaluate(h, s.allOf.rules[k], row) == Evaluate(h, cs[k], row)
        {
          NegationFlagIgnored(h, cs[k], row);
        }
        AllGroupIsConjunction(h, rule, fields);
        AllGroupIsConjunction(h, s, fields);
        assert ChildResults(h, s.allOf.rules, row) == ChildResults(h, cs, row);
      }
    case _ =>
  }

  // ---------------------------------------------------------------------------
  // Errors

  /** Every condition the evaluator can reach names one of the nine handled
      operators (the dispatch order of the guards decides what is reachable). */
  predicate OnlyHandledOperators(rule: Rule)
    decreases rule
  {
    if IsCondition(rule) then rule.operator.value in HandledOperators
    else if IsAny(rule) then forall c :: c in rule.anyOf.rules ==> OnlyHandledOperators(c)
    else if IsAll(rule) then forall c :: c in rule.allOf.rules ==> OnlyHandledOperators(c)
    else true
  }

  /** A rule whose reachable conditions all use handled operators never throws on
      a row the evaluator accepts: the two error paths are exactly a bad row and
      an unknown operator. */
  lemma {:induction false} HandledOperatorsNeverFail(h: Host, rule: Rule, row: Value)
    requires OnlyHandledOperators(rule) && IsRowValue(row)
    ensures Evaluate(h, rule, row).Ok?
    decreases rule, row
  {
    match row
    case Arr(rows) =>
      forall k | 0 <= k < |rows|
        ensures Evaluate(h, rule, rows[k]).Ok?
      {
        assert rows[k] in rows;
        HandledOperatorsNeverFail(h, rule, rows[k]);
      }
      ArrayRowIsDisjunction(h, rule, rows);
      SomeTrueWithoutErrors(RowResults(h, rule, rows));
    case Obj(fields) =>
      if IsCondition(rule) {
      } else if IsAny(rule) {
        var cs := rule.anyOf.rules;
        forall k | 0 <= k < |cs|
          ensures Evaluate(h, cs[k], row).Ok?
        {
          assert cs[k] in cs;
          HandledOperatorsNeverFail(h, cs[k], row);
        }
        AnyGroupIsDisjunction(h, rule, fields);
        SomeTrueWithoutErrors(ChildResults(h, cs, row));
      } else if IsAll(rule) {
        var cs := rule.allOf.rules;
        forall k | 0 <= k < |cs|
          ensures Evaluate(h, cs[k], row).Ok?
        {
          assert cs[k] in cs;
          HandledOperatorsNeverFail(h, cs[k], row);
        }
        AllGroupIsConjunction(h, rule, fields);
        EveryTrueWithoutErrors(ChildResults(h, cs, row));
      }
    case _ =>
  }

  // ---------------------------------------------------------------------------
  // Leaf operators

  /** `notEquals` is exactly the negation of `equals`. */
  lemma NotEqualsIsNegationOfEquals(h: Host, field: string, value: Value, row: Row)
    ensures EvaluateSingleCondition(h, field, "notEquals", value, row)
            == Not(EvaluateSingleCondition(h, field, "equals", value, row))
  {
  }

  /** With an array `value`, `notIn` is exactly the negation of `in`; otherwise both are false. */
  lemma NotInIsNegationOfIn(h: Host, field: string, value: Value, row: Row)
    ensures value.Arr? ==> EvaluateSingleCondition(h, field, "notIn", value, row)
                           == Not(EvaluateSingleCondition(h, field, "in", value, row))
    ensures !value.Arr? ==> EvaluateSingleCondition(h, field, "notIn", value, row)
                            == EvaluateSingleCondition(h, field, "in", value, row) == Ok(false)
  {
  }

  /** For a primitive row value, `in` is list membership and `contains` is its
      mirror image: the literal is found in the row's array. */
  lemma MembershipOfPrimitives(h: Host, field: string, value: Value, row: Row)
    ensures value.Arr? && IsPrimitive(Lookup(row, field)) ==>
      EvaluateSingleCondition(h, field, "in", value, row) == Ok(Lookup(row, field) in value.elems)
    ensures Lookup(row, field).Arr? && IsPrimitive(value) ==>
      EvaluateSingleCondition(h, field, "contains", value, row) == Ok(value in Lookup(row, field).elems)
  {
  }

  /** Two numbers or two strings are ordered: exactly one of `lessThan`, `equals`
      and `greaterThan` holds, and `greaterThan` is `lessThan` with the operands swapped. */
  lemma ComparisonTrichotomy(h: Host, field: string, value: Value, row: Row)
    requires (Lookup(row, field).Num? && value.Num?) || (Lookup(row, field).Str? && value.Str?)
    ensures EvaluateSingleCondition(h, field, "equals", value, row) == Ok(true)
            <==> (EvaluateSingleCondition(h, field, "lessThan", value, row) == Ok(false)
                  && EvaluateSingleCondition(h, field, "greaterThan", value, row) == Ok(false))
    ensures !(EvaluateSingleCondition(h, field, "lessThan", value, row) == Ok(true)
              && EvaluateSingleCondition(h, field, "greaterThan", value, row) == Ok(true))
    ensures EvaluateSingleCondition(h, field, "greaterThan", value, row)
            == EvaluateSingleCondition(h, field, "lessThan", Lookup(row, field), map[field := value])
  {
    var a := Lookup(row, field);
    if a.Str? {
      StrLessIrreflexive(a.s);
      StrLessAsymmetric(a.s, value.s);
      StrLessTotal(a.s, value.s);
    }
  }

  /** The switch handles exactly the nine comparison/membership names of `Operator`. */
  lemma HandledAreComparisonNames(s: string)
    ensures s in HandledOperators <==> ParseOperator(s).Some? && !ParseOperator(s).value.IsDateTime()
  {
  }

  /** The eight date/time operators declared in the types are not implemented:
      each throws `Unknown operator: <name>`. */
  lemma DateOperatorsAreUnknown(h: Host, op: Operator, field: string, value: Value, row: Row)
    requires op.IsDateTime()
    ensures EvaluateSingleCondition(h, field, op.Name(), value, row) == Err(UnknownOperator(op.Name()))
    ensures Message(EvaluateSingleCondition(h, field, op.Name(), value, row).error)
            == "Unknown operator: " + op.Name()
  {
    assert op.Name() !in HandledOperators;
  }

  // ---------------------------------------------------------------------------
  // The declared types against the guards

  /** A value of the static `Condition` type is dispatched as a condition, and a
      value of the static `Rule` type as exactly one of an `any` or an `all` group. */
  lemma TypedShapes(rule: Rule)
    ensures IsTypedCondition(rule) ==> IsCondition(rule) && !IsAny(rule) && !IsAll(rule)
    ensures IsTypedRule(rule) ==> !IsCondition(rule) && (IsAny(rule) <==> !IsAll(rule))
  {
  }
}
