/** The declared shapes of rules (src/types.ts) and the value a rule argument
    can be at run time. The evaluator distinguishes rule kinds by which keys a
    node carries, so a rule is modelled as a record of optional keys rather than
    as a tagged union; the static `Rule` / `Condition` types are predicates over it.
 */
module Types {
  import opened Values

  /** The closed set of operator names declared by `Operator`. */
  datatype Operator =
    | Equals | NotEquals | GreaterThan | LessThan | Contains
    | StartsWith | EndsWith | In | NotIn
    | DateEquals | DateNotEquals | DateAfter | DateBefore
    | DateOnOrAfter | DateOnOrBefore
    | NowAfterPlusMinutes | NowBeforePlusMinutes
  {
    function Name(): string {
      match this
      case Equals => "equals"
      case NotEquals => "notEquals"
      case GreaterThan => "greaterThan"
      case LessThan => "lessThan"
      case Contains => "contains"
      case StartsWith => "startsWith"
      case EndsWith => "endsWith"
      case In => "in"
      case NotIn => "notIn"
      case DateEquals => "dateEquals"
      case DateNotEquals => "dateNotEquals"
      case DateAfter => "dateAfter"
      case DateBefore => "dateBefore"
      case DateOnOrAfter => "dateOnOrAfter"
      case DateOnOrBefore => "dateOnOrBefore"
      case NowAfterPlusMinutes => "nowAfterPlusMinutes"
      case NowBeforePlusMinutes => "nowBeforePlusMinutes"
    }

    /** The eight date/time names added after the nine comparison names. */
    predicate IsDateTime() {
      DateEquals? || DateNotEquals? || DateAfter? || DateBefore? ||
      DateOnOrAfter? || DateOnOrBefore? || NowAfterPlusMinutes? || NowBeforePlusMinutes?
    }
  }

  /** Every operator, in declaration order. */
  const AllOperators: seq<Operator> := [
    Equals, NotEquals, GreaterThan, LessThan, Contains, StartsWith, EndsWith, In, NotIn,
    DateEquals, DateNotEquals, DateAfter, DateBefore, DateOnOrAfter, DateOnOrBefore,
    NowAfterPlusMinutes, NowBeforePlusMinutes
  ]

  /** Reads an operator name; `None` for a string outside the declared set. */
  function ParseOperator(s: string): (r: Option<Operator>)
    ensures r.Some? ==> r.value.Name() == s
    ensures r.None? ==> forall op: Operator :: op.Name() != s
  {
    if s == "equals" then Some(Equals)
    else if s == "notEquals" then Some(NotEquals)
    else if s == "greaterThan" then Some(GreaterThan)
    else if s == "lessThan" then Some(LessThan)
    else if s == "contains" then Some(Contains)
    else if s == "startsWith" then Some(StartsWith)
    else if s == "endsWith" then Some(EndsWith)
    else if s == "in" then Some(In)
    else if s == "notIn" then Some(NotIn)
    else if s == "dateEquals" then Some(DateEquals)
    else if s == "dateNotEquals" then Some(DateNotEquals)
    else if s == "dateAfter" then Some(DateAfter)
    else if s == "dateBefore" then Some(DateBefore)
    else if s == "dateOnOrAfter" then Some(DateOnOrAfter)
    else if s == "dateOnOrBefore" then Some(DateOnOrBefore)
    else if s == "nowAfterPlusMinutes" then Some(NowAfterPlusMinutes)
    else if s == "nowBeforePlusMinutes" then Some(NowBeforePlusMinutes)
    else None
  }

  /** Reading back a name gives the operator it names, so names are distinct. */
  lemma ParseName(op: Operator)
    ensures ParseOperator(op.Name()) == Some(op)
  {
    match op
    case Equals =>
    case NotEquals =>
    case GreaterThan =>
    case LessThan =>
    case Contains =>
    case StartsWith =>
    case EndsWith =>
    case In =>
    case NotIn =>
    case DateEquals =>
    case DateNotEquals =>
    case DateAfter =>
    case DateBefore =>
    case DateOnOrAfter =>
    case DateOnOrBefore =>
    case NowAfterPlusMinutes =>
    case NowBeforePlusMinutes =>
  }

  /** Distinct operators have distinct names. */
  lemma {:induction false} NameInjective(a: Operator, b: Operator)
    ensures a.Name() == b.Name() ==> a == b
  {
    ParseName(a);
    ParseName(b);
  }

  /** `AllOperators` lists every operator. */
  lemma OperatorsListed(op: Operator)
    ensures op in AllOperators
  {
    match op
    case Equals => assert AllOperators[0] == op;
    case NotEquals => assert AllOperators[1] == op;
    case GreaterThan => assert AllOperators[2] == op;
    case LessThan => assert AllOperators[3] == op;
    case Contains => assert AllOperators[4] == op;
    case StartsWith => assert AllOperators[5] == op;
    case EndsWith => assert AllOperators[6] == op;
    case In => assert AllOperators[7] == op;
    case NotIn => assert AllOperators[8] == op;
    case DateEquals => assert AllOperators[9] == op;
    case DateNotEquals => assert AllOperators[10] == op;
    case DateAfter => assert AllOperators[11] == op;
    case DateBefore => assert AllOperators[12] == op;
    case DateOnOrAfter => assert AllOperators[13] == op;
    case DateOnOrBefore => assert AllOperators[14] == op;
    case NowAfterPlusMinutes => assert AllOperators[15] == op;
    case NowBeforePlusMinutes => assert AllOperators[16] == op;
  }

  /** `Operator` is a closed set of exactly 17 names: every operator is listed,
      no operator twice, the first nine are comparison/membership names and the
      last eight are date/time names. */
  lemma OperatorsAreSeventeen()
    ensures |AllOperators| == 17
    ensures forall op: Operator :: op in AllOperators
    ensures forall i, j :: 0 <= i < j < |AllOperators| ==> AllOperators[i] != AllOperators[j]
    ensures forall i :: 0 <= i < |AllOperators| ==> (AllOperators[i].IsDateTime() <==> 9 <= i)
  {
    forall op: Operator
      ensures op in AllOperators
    {
      OperatorsListed(op);
    }
  }

  /** A key of a rule node that may hold a list of sub-rules: absent, present
      but not an array, or an array whose elements are read as rules. */
  datatype Member = Missing | NotAList | Children(rules: seq<Rule>)

  /** A rule argument as the evaluator sees it. `NotAnObject` stands for every
      value that has none of the keys the evaluator looks for: null, undefined,
      a primitive or an array. A `Node` is a plain object, described by which of
      the keys `field`, `operator`, `value`, `any`, `all`, `not` it carries.
      A present `value: undefined` is `Some(Undefined)`. */
  datatype Rule =
    | NotAnObject
    | Node(field: Option<string>, operator: Option<string>, value: Option<Value>,
           anyOf: Member, allOf: Member, negate: Option<bool>)

  /** The static `Condition` type: a string field, a declared operator and a
      value of any type, and no group keys. */
  predicate IsTypedCondition(rule: Rule) {
    && rule.Node?
    && rule.field.Some?
    && rule.operator.Some? && ParseOperator(rule.operator.value).Some?
    && rule.value.Some?
    && rule.anyOf.Missing? && rule.allOf.Missing? && rule.negate.None?
  }

  /** The static `Rule` type: exactly one of `any` / `all` (never both), an
      optional boolean `not`, and no condition keys. `?: never` would also admit
      the other group key holding `undefined`; that value is a `NotAList` member,
      indistinguishable here from any other non-array, so the type is read as
      exact and the other key must be missing. */
  predicate IsTypedRule(rule: Rule)
    decreases rule, 1
  {
    && rule.Node?
    && rule.field.None? && rule.operator.None? && rule.value.None?
    && ((rule.anyOf.Children? && rule.allOf.Missing? && IsTypedGroup(rule.anyOf))
        || (rule.allOf.Children? && rule.anyOf.Missing? && IsTypedGroup(rule.allOf)))
  }

  /** `Rule[] | Condition[]`: the children are all conditions or all rules. */
  predicate IsTypedGroup(group: Member)
    requires group.Children?
    decreases group, 0
  {
    || (forall c :: c in group.rules ==> IsTypedCondition(c))
    || (forall c :: c in group.rules ==> IsTypedRule(c))
  }
}
