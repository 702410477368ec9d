/**
 * `parse_task_targets`: the command-line arguments naming queue ids, single
 * ids and inclusive ranges `a-b`, turned into one set of queue ids. An empty
 * argument list and `--all` both give the empty set, which callers read as
 * "every task".
 */
module TargetParser {
  import opened Common
  import opened Strings

  /** Every integer from `lo` to `hi`, both included: Python's `range(lo, hi + 1)`. */
  function Between(lo: int, hi: int): set<int>
    decreases hi - lo
  {
    if lo > hi then {} else Between(lo, hi - 1) + {hi}
  }

  lemma {:induction false} BetweenMembers(lo: int, hi: int, k: int)
    ensures k in Between(lo, hi) <==> lo <= k <= hi
    decreases hi - lo
  {
    if lo <= hi {
      BetweenMembers(lo, hi - 1, k);
    }
  }

  /**
   * The queue ids one argument contributes. With a '-' in it, the text is
   * split at the first '-' and both sides must be integers, taken in either
   * order; otherwise the whole argument must be an integer. A ValueError
   * contributes nothing.
   */
  function ArgTargets(arg: string): set<int> {
    match SplitOnce(arg, '-')
    case Some(pieces) => RangeOf(ParseInt(pieces.0), ParseInt(pieces.1))
    case None => if ParseInt(arg).Some? then {ParseInt(arg).value} else {}
  }

  /** The range between two parsed ends, or nothing when either end failed to parse. */
  function RangeOf(start: Option<int>, end: Option<int>): set<int> {
    if start.None? || end.None? then {}
    else if start.value > end.value then Between(end.value, start.value)
    else Between(start.value, end.value)
  }

  /** The contributions of the arguments, collected in argument order. */
  function Collected(args: seq<string>): set<int>
    decreases |args|
  {
    if args == [] then {} else Collected(args[..|args| - 1]) + ArgTargets(args[|args| - 1])
  }

  /** What `parse_task_targets(args)` returns. */
  function Targets(args: seq<string>): set<int> {
    if args == [] || "--all" in args then {} else Collected(args)
  }

  /** `parse_task_targets(args)`: the loop adds each argument's contribution to `result`. */
  method ParseTaskTargets(args: seq<string>) returns (result: set<int>)
    ensures result == Targets(args)
    ensures args == [] || "--all" in args ==> result == {}
  {
    if |args| == 0 {
      return {};
    }
    if "--all" in args {
      return {};
    }
    result := {};
    for i := 0 to |args|
      invariant result == Collected(args[..i])
    {
      assert args[..i + 1][..i] == args[..i];
      var ids := ParseArg(args[i]);
      result := result + ids;
    }
    assert args[..|args|] == args;
  }

  /** One turn of the loop: the ids one argument adds, nothing when `int()` raises ValueError. */
  method ParseArg(arg: string) returns (ids: set<int>)
    ensures ids == ArgTargets(arg)
  {
    ids := {};
    if '-' in arg {
      var pieces := SplitOnce(arg, '-').value;
      var startId := ParseInt(pieces.0);
      var endId := ParseInt(pieces.1);
      assert ArgTargets(arg) == RangeOf(startId, endId);
      if startId.Some? && endId.Some? {
        var lo, hi := startId.value, endId.value;
        if lo > hi {
          lo, hi := hi, lo;
        }
        ids := Between(lo, hi);
      }
    } else {
      var id := ParseInt(arg);
      if id.Some? {
        ids := {id.value};
      }
    }
  }

  // ---------------------------------------------------------------------------
  // Properties
  // ---------------------------------------------------------------------------

  /** A queue id is collected exactly when some argument contributes it. */
  lemma {:induction false} CollectedMembers(args: seq<string>, x: int)
    ensures x in Collected(args) <==> exists arg | arg in args :: x in ArgTargets(arg)
    decreases |args|
  {
    if args != [] {
      var front := args[..|args| - 1];
      var last := args[|args| - 1];
      CollectedMembers(front, x);
      assert args == front + [last];
      assert args[..|args| - 1] == front;
      assert x in Collected(args) <==> x in Collected(front) || x in ArgTargets(last);
      if x in Collected(args) {
        if x in Collected(front) {
          var arg :| arg in front && x in ArgTargets(arg);
          assert arg in args;
        } else {
          assert last in args;
        }
      } else {
        forall arg | arg in args ensures x !in ArgTargets(arg) {
          if arg != last {
            assert arg in front;
          }
        }
      }
    }
  }

  /**
   * The result is the union of the arguments' contributions: an argument
   * that fails to parse takes nothing away from the others, and the order of
   * the arguments does not matter.
   */
  lemma TargetsMembers(args: seq<string>, x: int)
    ensures x in Targets(args) <==>
      "--all" !in args && exists arg | arg in args :: x in ArgTargets(arg)
  {
    CollectedMembers(args, x);
  }

  /** Arguments given in another order, or repeated, name the same queue ids. */
  lemma TargetsOrderFree(args: seq<string>, other: seq<string>)
    requires forall a :: a in args <==> a in other
    ensures Targets(args) == Targets(other)
  {
    forall x ensures x in Targets(args) <==> x in Targets(other) {
      TargetsMembers(args, x);
      TargetsMembers(other, x);
    }
  }

  lemma DigitsHaveNoDash(s: string)
    requires AllDigits(s)
    ensures '-' !in s
  {
    forall i | 0 <= i < |s| ensures s[i] != '-' {
      assert IsDigit(s[i]);
    }
  }

  /**
   * `a-b` with a non-negative `a` names every integer between `a` and `b`,
   * both included, whichever of the two is larger.
   */
  lemma RangeArg(a: nat, b: int)
    ensures var r := ArgTargets(NatToString(a) + "-" + IntToString(b));
      forall k :: k in r <==> (a <= k <= b || b <= k <= a)
  {
    RangeArgParses(a, b);
    forall k ensures k in RangeOf(Some(a), Some(b)) <==> (a <= k <= b || b <= k <= a) {
      if a > b {
        BetweenMembers(b, a, k);
      } else {
        BetweenMembers(a, b, k);
      }
    }
  }

  lemma RangeArgParses(a: nat, b: int)
    ensures ArgTargets(NatToString(a) + "-" + IntToString(b)) == RangeOf(Some(a), Some(b))
  {
    DigitsHaveNoDash(NatToString(a));
    SplitOnceAfter(NatToString(a), '-', IntToString(b));
    IntToStringParses(a);
    IntToStringParses(b);
    assert IntToString(a) == NatToString(a);
  }

  /** A non-negative integer alone names itself. */
  lemma PlainArg(n: nat)
    ensures ArgTargets(NatToString(n)) == {n}
  {
    DigitsHaveNoDash(NatToString(n));
    IntToStringParses(n);
  }

  /**
   * A negative number such as `-3` is read as a range whose empty left side
   * is not an integer, so it names nothing.
   */
  lemma NegativeArgSkipped(n: nat)
    ensures ArgTargets("-" + NatToString(n)) == {}
  {
    SplitOnceAfter("", '-', NatToString(n));
    assert "" + "-" + NatToString(n) == "-" + NatToString(n);
    assert Strip("") == "";
  }
}
