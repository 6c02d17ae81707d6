# Rule evaluator of render-rules, in Dafny

This project models `evaluateCondition` from `src/evaluateCondition.ts`.
The function decides whether a data row satisfies a declarative rule tree.
A row may also be an array of rows.
The tree is built from leaf conditions (`field` / `operator` / `value`) combined with `any` (OR) and `all` (AND) groups.
The model has three layers, as the source does:

1. Row-shape resolution (`Evaluator.Evaluate`, `Evaluator.ScanRows`). A null or undefined row is false. A scalar row throws. An empty array is false. A non-empty array is an OR over its elements, scanned left to right.
2. Structural dispatch (`Evaluator.EvaluateObject`). The shape guards `isCondition`, `isAny` and `isAll` are tried in that order. A node matching none of them is false.
3. The leaf operator switch (`Evaluator.EvaluateSingleCondition`). Nine operator names are handled and every other name throws `Unknown operator: <op>`.

Modules:

- `Values` (values.dfy): JavaScript values (`Undefined | Null | Bool | Num | Str | Arr | Obj`), `row[field]` lookup, `===`, `includes`, and `<` / `>`.
- `Types` (types.dfy): the 17-name `Operator` type, and the rule argument as a record of optional keys (`Rule`, `Member`). The static `Condition` and `Rule` types are predicates over that record.
- `Results` (results.dfy): `Result = Ok(bool) | Err(Error)` for the thrown errors, and the short-circuiting `some` / `every` over a sequence of outcomes (`SomeTrue`, `EveryTrue`).
- `Evaluator` (evaluator.dfy): the three functions of the source and its guards.
- `Laws` (laws.dfy): the array-OR, `any`/`all`, precedence, error and leaf-operator laws.
- `Scenarios` (scenarios.dfy): concrete cases from the test file.

A thrown `Error` is an `Err` result, and errors propagate through `some` / `every` unchanged.
The scans stop where `Array.prototype.some` / `every` stop, so an element after the deciding one is never evaluated.

Several parts of JavaScript are not interpreted by the model. They are fields of a `Host` parameter, so every law holds for every host:
- object identity (`===` and `includes` between two arrays or objects);
- the coercing `<` between operands that are not both numbers or both strings;
- the string a non-string `startsWith` / `endsWith` argument is converted to.

Where src/evaluateCondition.test.ts and the code disagree, the model follows the code:
- There is no `not` negation (test lines 227-248 and 279-295 expect one): the key is declared in `types.ts` but never read (`Laws.NegationFlagIgnored`, `Scenarios.NotKeyDoesNotInvert`).
- There are no date/time operators (test lines 298-590 exercise them): their names throw `Unknown operator` (`Laws.DateOperatorsAreUnknown`).
- There are no evaluation options and no `onError` callback (test lines 592-898).
- A missing row is always `false`; it never throws `Row is null or undefined` (test lines 601-607).
- A malformed rule is `false`, not an error reported as `Rule must be a condition, any group, or all group` (test lines 706-722).
- An empty `all` group is true on an object row (test line 252); an empty array row is false and a scalar row throws.

## Model

| member | source | states |
|---|---|---|
| `Evaluator.Evaluate` | src/evaluateCondition.ts:30-50 | null/undefined row is `Ok(false)`; number/string/boolean row is `Err(InvalidRow)`; the empty array is `Ok(false)`; any error is an invalid row or an unknown operator the switch does not handle; `InvalidRow` arises only when the row (or a nested element) is not an object/array/nullish |
| `Evaluator.ScanRows` | src/evaluateCondition.ts:42-44 | an `InvalidRow` from scanning an array row comes from an element that is not an acceptable row; errors are only the two kinds |
| `Evaluator.EvaluateObject` | src/evaluateCondition.ts:65-77 | evaluating against a plain-object row never yields `InvalidRow`; other errors are unknown operators |
| `Evaluator.AnyOf` | src/evaluateCondition.ts:72 | `any` children scan yields only the two error kinds and no `InvalidRow` on an acceptable row |
| `Evaluator.EveryOf` | src/evaluateCondition.ts:74 | `all` children scan yields only the two error kinds and no `InvalidRow` on an acceptable row |
| `Evaluator.EvaluateSingleCondition` | src/evaluateCondition.ts:99-125 | errs iff the operator is not one of the nine handled names, and then with `UnknownOperator(op)`; `contains` is false unless the row value is an array; `startsWith`/`endsWith` false unless it is a string; `in`/`notIn` false unless `value` is an array |
| `Values.StrictEquals` | src/evaluateCondition.ts:104-107 | on primitives `===` is value equality (either operand primitive: true iff equal); an array is never `===` a plain object |
| `Values.Includes` | src/evaluateCondition.ts:118-121 | for a primitive search value, `includes` is sequence membership |
| `Values.StrLessIrreflexive` | src/evaluateCondition.ts:108-111 | no string is `<` itself |
| `Values.StrLessAsymmetric` | src/evaluateCondition.ts:108-111 | two strings are never each `<` the other |
| `Values.StrLessTotal` | src/evaluateCondition.ts:108-111 | of two different strings one is `<` the other |
| `Types.ParseOperator` | src/types.ts:20-38 | a parsed name names the operator returned; an unparsed string is no operator's name |
| `Types.ParseName` | src/types.ts:20-38 | reading an operator's name gives back that operator |
| `Types.NameInjective` | src/types.ts:20-38 | distinct operators have distinct names |
| `Types.OperatorsListed` | src/types.ts:20-38 | every operator appears in the declared list |
| `Types.OperatorsAreSeventeen` | src/types.ts:20-38 | `Operator` is a closed set of exactly 17 distinct members: nine comparison/membership names then eight date/time names |
| `Results.MessageIdentifiesError` | src/evaluateCondition.ts:37 | the thrown message determines the error: different errors never share a message |
| `Results.SomeTrue` | src/evaluateCondition.ts:44 | `some` over outcomes is `Ok(false)` iff every outcome is `Ok(false)`, and otherwise is one of the outcomes |
| `Results.EveryTrue` | src/evaluateCondition.ts:74 | `every` over outcomes is `Ok(true)` iff every outcome is `Ok(true)`, and otherwise is one of the outcomes |
| `Results.SomeTrueIsFirstDecisive` | src/evaluateCondition.ts:44 | `some` returns the first outcome that is not `Ok(false)`, whatever follows it |
| `Results.SomeTrueHasFirstDecisive` | src/evaluateCondition.ts:44 | a `some` outcome other than `Ok(false)` is the outcome of an element preceded only by `Ok(false)` |
| `Results.EveryTrueIsFirstDecisive` | src/evaluateCondition.ts:74 | `every` returns the first outcome that is not `Ok(true)`, whatever follows it |
| `Results.SomeTrueWithoutErrors` | src/evaluateCondition.ts:44 | without errors, `some` is the disjunction of the outcomes |
| `Results.EveryTrueWithoutErrors` | src/evaluateCondition.ts:74 | without errors, `every` is the conjunction of the outcomes |
| `Results.EveryTrueIsDualOfSomeTrue` | src/evaluateCondition.ts:72-74 | De Morgan with errors: `every` equals the negation of `some` over the negated outcomes |
| `Results.SomeTrueAppend` | src/evaluateCondition.ts:44 | outcomes appended after a decided `some` do not change it |
| `Laws.ScanRowsIsSomeTrue` | src/evaluateCondition.ts:42-44 | the row scan from element `i` equals `some` over the outcomes of elements `i..` |
| `Laws.AnyOfIsSomeTrue` | src/evaluateCondition.ts:72 | the `any` scan from child `i` equals `some` over the children's outcomes `i..` |
| `Laws.EveryOfIsEveryTrue` | src/evaluateCondition.ts:74 | the `all` scan from child `i` equals `every` over the children's outcomes `i..` |
| `Laws.ArrayRowIsDisjunction` | src/evaluateCondition.ts:39-44 | an array row evaluates to the short-circuiting OR of the rule over its elements; the empty array is false |
| `Laws.ArrayRowWithoutErrors` | src/evaluateCondition.ts:42-44 | when no element throws, an array row is true iff some element is true |
| `Laws.ArrayRowIsFirstDecisive` | src/evaluateCondition.ts:44 | the array outcome is that of the first element that is not false (first match or first error) |
| `Laws.ArrayRowIgnoresLaterElements` | src/evaluateCondition.ts:44 | after a matching prefix, appended elements (even ones that would throw) do not change the outcome |
| `Laws.FalseOnObjectsIsFalseOnRows` | src/evaluateCondition.ts:35-46 | a rule false on every object row is false on every acceptable row (nullish, object, nested arrays) |
| `Laws.AnyGroupIsDisjunction` | src/evaluateCondition.ts:70-72 | an `any` node that is not a condition is the short-circuiting OR of its children on the same row |
| `Laws.AllGroupIsConjunction` | src/evaluateCondition.ts:70-74 | an `all` node that is neither condition nor `any` is the short-circuiting AND of its children on the same row |
| `Laws.AnyGroupWithoutErrors` | src/evaluateCondition.ts:72 | without errors, an `any` group is true iff some child is true |
| `Laws.AllGroupWithoutErrors` | src/evaluateCondition.ts:74 | without errors, an `all` group is true iff every child is true |
| `Laws.AnyGroupStopsAtFirstTrue` | src/evaluateCondition.ts:72 | a true child preceded only by false children makes the group true, whatever follows |
| `Laws.AllGroupStopsAtFirstFalse` | src/evaluateCondition.ts:74 | a false child preceded only by true children makes the group false, so a later unknown operator raises nothing |
| `Laws.EmptyAnyIsFalse` | src/evaluateCondition.ts:72 | an empty `any` group is false on every acceptable row |
| `Laws.EmptyAllIsTrue` | src/evaluateCondition.ts:74 | an empty `all` group is true on an object row |
| `Laws.MalformedRuleIsFalse` | src/evaluateCondition.ts:70-76 | a node of none of the three shapes is false, with no error, on every acceptable row |
| `Laws.ConditionShapeWins` | src/evaluateCondition.ts:3-5 | a node with `field`, `operator` and `value` is a condition: its `any`/`all` keys never affect the outcome, on any row |
| `Laws.StripNegation` | src/types.ts:4 | removing `not` keys yields a tree with no `not` key and the same shapes and condition keys |
| `Laws.NegationFlagIgnored` | src/types.ts:4 | the optional `not` key is never read: removing it anywhere in the tree leaves every outcome unchanged |
| `Laws.HandledOperatorsNeverFail` | src/evaluateCondition.ts:30-125 | a tree whose reachable conditions use handled operators never throws on an acceptable row |
| `Laws.NotEqualsIsNegationOfEquals` | src/evaluateCondition.ts:104-107 | `notEquals` is exactly the negation of `equals` |
| `Laws.NotInIsNegationOfIn` | src/evaluateCondition.ts:118-121 | with an array `value`, `notIn` is the negation of `in`; otherwise both are false |
| `Laws.MembershipOfPrimitives` | src/evaluateCondition.ts:112-119 | for primitives, `in` is membership of the row value in `value`, and `contains` membership of `value` in the row's array |
| `Laws.ComparisonTrichotomy` | src/evaluateCondition.ts:104-111 | two numbers or two strings satisfy exactly one of `lessThan`, `equals`, `greaterThan`; `greaterThan` is `lessThan` with the operands swapped |
| `Laws.HandledAreComparisonNames` | src/evaluateCondition.ts:103-123 | the switch handles a name iff it is a declared operator that is not a date/time one |
| `Laws.DateOperatorsAreUnknown` | src/evaluateCondition.ts:122-123 | each of the eight declared date/time operators throws `Unknown operator: <name>` |
| `Laws.TypedShapes` | src/types.ts:1-18 | a typed `Condition` dispatches as a condition only; a typed `Rule` as exactly one of `any` / `all` |
| `Scenarios.EqualsScenario` | src/evaluateCondition.test.ts:6-9 | `{age: 30}` satisfies `age equals 30` |
| `Scenarios.GroupScenario` | src/evaluateCondition.test.ts:70-86 | the `any` / `all` examples of the tests: `x = 1 OR x = 2` holds of `{x: 2}`; `a = 1 AND b = 2` holds of `{a: 1, b: 2}` and fails on `{a: 1, b: 3}` |
| `Scenarios.ArrayRowScenario` | src/evaluateCondition.test.ts:255-259 | the array-row examples of the tests |
| `Scenarios.ErrorScenario` | src/evaluateCondition.test.ts:267-277 | a number row throws; operator `???` throws `Unknown operator: ???` |
| `Scenarios.NotKeyDoesNotInvert` | src/evaluateCondition.ts:65-77 | a condition carrying `not: true` is evaluated as the bare condition (true on `{x: 1}`), whereas src/evaluateCondition.test.ts:279-285 expects the negation |

## Left out

- Date/time operators (`dateEquals` … `nowBeforePlusMinutes`): the evaluator does not implement them. They fall through to the `Unknown operator` throw, and the model states exactly that. Implementing them would need date parsing, the wall clock and fractional minutes.
- `not` negation, `treatMissingRowAsFalse` and `onError`: these exist only in the test file, so they are not modelled as behaviour. The `not` key is carried in `Rule.negate` and proved to be ignored.
- The `context` parameter: it is passed along but never used, so it is omitted.
- Object identity: `===` and `includes` between two arrays or objects are left to `Host.sameObject`.
- Coercing comparison: `<` / `>` between operands that are not both numbers or both strings (`"10" > 9`, `null > -1`, booleans, `undefined`) is left to `Host.looseLess`. The model does use the language's definition of `a > b` as `b < a`.
- String coercion: the conversion of a non-string `startsWith` / `endsWith` argument is left to `Host.toText`. A RegExp argument, which makes these methods throw a TypeError, is not modelled.
- Numbers are integers: there is no NaN, no `-0` and no fractions. `===` and `SameValueZero` therefore coincide.
- Strings are compared by Dafny character code. JavaScript compares UTF-16 code units, and the two orders differ only for characters outside the Basic Multilingual Plane.
- Property lookup is a plain map lookup. The prototype chain and getters are not modelled. A non-string `field`, which `row[field]` would coerce to a property key, and a non-string `operator`, which matches no `switch` case and throws `Unknown operator: <its string form>`, are not representable (`Rule.field` / `Rule.operator` are `Option<string>`).
- Rows are finite trees. Cyclic structures and sparse arrays with holes are not representable.
- Rules are finite acyclic trees too. A cyclic rule such as `r = {any: [r]}`, or a very deep rule or row, makes the source recurse through src/evaluateCondition.ts:46 and :72-74 until the engine throws a `RangeError`; that stack exhaustion is not modelled.
- The `default: return false` branch of the row switch (src/evaluateCondition.ts:47-48) cannot be reached once the earlier cases have run, so the model has no counterpart for it.
- The jest harness (spies, mocks, matchers) is not modelled.
