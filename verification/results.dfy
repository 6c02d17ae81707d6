/** The outcome of an evaluation: a boolean, or the error the evaluator throws.
    Also the left-to-right, short-circuiting `some` / `every` combinators over
    a sequence of such outcomes, in which a thrown error propagates at once.
 */
module Results {

  /** The two errors the evaluator throws. */
  datatype Error =
    | InvalidRow                 // the row is neither nullish, an object nor an array
    | UnknownOperator(op: string) // a condition names an operator the switch does not handle

  datatype Result<+T> = Ok(value: T) | Err(error: Error)

  /** The message of the thrown `Error`. */
  function Message(e: Error): string {
    match e
    case InvalidRow => "Row must be an object or an array of objects"
    case UnknownOperator(op) => "Unknown operator: " + op
  }

  /** Different errors carry different messages, so the message identifies the error. */
  lemma {:induction false} MessageIdentifiesError(a: Error, b: Error)
    ensures Message(a) == Message(b) ==> a == b
  {
    var prefix := "Unknown operator: ";
    var rowMessage := "Row must be an object or an array of objects";
    match (a, b)
    case (InvalidRow, InvalidRow) =>
    case (InvalidRow, UnknownOperator(y)) =>
      assert Message(b)[0] == (prefix + y)[0] == 'U';
      assert Message(a)[0] == rowMessage[0] == 'R';
    case (UnknownOperator(x), InvalidRow) =>
      assert Message(a)[0] == (prefix + x)[0] == 'U';
      assert Message(b)[0] == rowMessage[0] == 'R';
    case (UnknownOperator(x), UnknownOperator(y)) =>
      assert x == Message(a)[|prefix|..];
      assert y == Message(b)[|prefix|..];
  }

  /** Boolean negation; an error passes through unchanged. */
  function Not(r: Result<bool>): Result<bool> {
    match r
    case Ok(b) => Ok(!b)
    case Err(e) => Err(e)
  }

  function NotAll(rs: seq<Result<bool>>): (ns: seq<Result<bool>>)
    ensures |ns| == |rs|
    ensures forall k :: 0 <= k < |rs| ==> ns[k] == Not(rs[k])
  {
    seq(|rs|, k requires 0 <= k < |rs| => Not(rs[k]))
  }

  /** `Array.prototype.some` over outcomes: stops at the first outcome that is
      not `Ok(false)` and returns it; `Ok(false)` if there is none. */
  function SomeTrue(rs: seq<Result<bool>>): (r: Result<bool>)
    ensures r == Ok(false) <==> forall k :: 0 <= k < |rs| ==> rs[k] == Ok(false)
    ensures r != Ok(false) ==> r in rs
    decreases |rs|
  {
    if |rs| == 0 then Ok(false)
    else if rs[0] == Ok(false) then SomeTrue(rs[1..])
    else rs[0]
  }

  /** `Array.prototype.every` over outcomes: stops at the first outcome that is
      not `Ok(true)` and returns it; `Ok(true)` if there is none. */
  function EveryTrue(rs: seq<Result<bool>>): (r: Result<bool>)
    ensures r == Ok(true) <==> forall k :: 0 <= k < |rs| ==> rs[k] == Ok(true)
    ensures r != Ok(true) ==> r in rs
    decreases |rs|
  {
    if |rs| == 0 then Ok(true)
    else if rs[0] == Ok(true) then EveryTrue(rs[1..])
    else rs[0]
  }

  /** The outcome of `some` is that of the first element that is not `Ok(false)`;
      whatever follows it is never looked at. */
  lemma {:induction false} SomeTrueIsFirstDecisive(rs: seq<Result<bool>>, k: nat)
    requires k < |rs| && rs[k] != Ok(false)
    requires forall j :: 0 <= j < k ==> rs[j] == Ok(false)
    ensures SomeTrue(rs) == rs[k]
    decreases k
  {
    if k > 0 {
      SomeTrueIsFirstDecisive(rs[1..], k - 1);
    }
  }

  /** Conversely, an outcome of `some` other than `Ok(false)` comes from such a first element. */
  lemma {:induction false} SomeTrueHasFirstDecisive(rs: seq<Result<bool>>)
    requires SomeTrue(rs) != Ok(false)
    ensures exists k :: 0 <= k < |rs| && rs[k] == SomeTrue(rs)
                        && forall j :: 0 <= j < k ==> rs[j] == Ok(false)
    decreases |rs|
  {
    if rs[0] == Ok(false) {
      SomeTrueHasFirstDecisive(rs[1..]);
      var k :| 0 <= k < |rs[1..]| && rs[1..][k] == SomeTrue(rs[1..])
               && forall j :: 0 <= j < k ==> rs[1..][j] == Ok(false);
      assert rs[k + 1] == SomeTrue(rs);
      assert forall j :: 0 <= j < k + 1 ==> rs[j] == Ok(false) by {
        forall j | 0 <= j < k + 1 ensures rs[j] == Ok(false) {
          if j > 0 {
            assert rs[j] == rs[1..][j - 1];
          }
        }
      }
    } else {
      assert rs[0] == SomeTrue(rs);
    }
  }

  /** The outcome of `every` is that of the first element that is not `Ok(true)`. */
  lemma {:induction false} EveryTrueIsFirstDecisive(rs: seq<Result<bool>>, k: nat)
    requires k < |rs| && rs[k] != Ok(true)
    requires forall j :: 0 <= j < k ==> rs[j] == Ok(true)
    ensures EveryTrue(rs) == rs[k]
    decreases k
  {
    if k > 0 {
      EveryTrueIsFirstDecisive(rs[1..], k - 1);
    }
  }

  /** When no element throws, `some` is the disjunction of the elements. */
  lemma {:induction false} SomeTrueWithoutErrors(rs: seq<Result<bool>>)
    requires forall k :: 0 <= k < |rs| ==> rs[k].Ok?
    ensures SomeTrue(rs) == Ok(exists k :: 0 <= k < |rs| && rs[k].value)
    decreases |rs|
  {
    if |rs| > 0 {
      var tail := rs[1..];
      SomeTrueWithoutErrors(tail);
      if rs[0].value {
        assert rs[0] == Ok(true);
      } else {
        assert rs[0] == Ok(false);
        var inAll := exists k :: 0 <= k < |rs| && rs[k].value;
        var inTail := exists k :: 0 <= k < |tail| && tail[k].value;
        if inAll {
          var k :| 0 <= k < |rs| && rs[k].value;
          assert tail[k - 1].value;
        }
        if inTail {
          var k :| 0 <= k < |tail| && tail[k].value;
          assert rs[k + 1].value;
        }
        assert inAll == inTail;
      }
    }
  }

  /** When no element throws, `every` is the conjunction of the elements. */
  lemma {:induction false} EveryTrueWithoutErrors(rs: seq<Result<bool>>)
    requires forall k :: 0 <= k < |rs| ==> rs[k].Ok?
    ensures EveryTrue(rs) == Ok(forall k :: 0 <= k < |rs| ==> rs[k].value)
    decreases |rs|
  {
    if |rs| > 0 {
      var tail := rs[1..];
      EveryTrueWithoutErrors(tail);
      if !rs[0].value {
        assert rs[0] == Ok(false);
      } else {
        assert rs[0] == Ok(true);
        var inAll := forall k :: 0 <= k < |rs| ==> rs[k].value;
        var inTail := forall k :: 0 <= k < |tail| ==> tail[k].value;
        if !inAll {
          var k :| 0 <= k < |rs| && !rs[k].value;
          assert !tail[k - 1].value;
        }
        if !inTail {
          var k :| 0 <= k < |tail| && !tail[k].value;
          assert !rs[k + 1].value;
        }
        assert inAll == inTail;
      }
    }
  }

  /** De Morgan for the short-circuiting combinators, errors included:
      `every` is `some` of the negations, negated. */
  lemma {:induction false} EveryTrueIsDualOfSomeTrue(rs: seq<Result<bool>>)
    ensures EveryTrue(rs) == Not(SomeTrue(NotAll(rs)))
    decreases |rs|
  {
    if |rs| > 0 {
      assert NotAll(rs)[1..] == NotAll(rs[1..]);
      EveryTrueIsDualOfSomeTrue(rs[1..]);
    }
  }

  /** Appending outcomes after a decided `some` does not change it. */
  lemma {:induction false} SomeTrueAppend(a: seq<Result<bool>>, b: seq<Result<bool>>)
    ensures SomeTrue(a + b) == if SomeTrue(a) == Ok(false) then SomeTrue(b) else SomeTrue(a)
    decreases |a|
  {
    if |a| == 0 {
      assert a + b == b;
    } else {
      assert (a + b)[1..] == a[1..] + b;
      SomeTrueAppend(a[1..], b);
    }
  }
}
