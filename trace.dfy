/**
 * Traces: the ordered side effects of a straight-line Java sequence
 * (a shutdown hook, a timer tick), cut short where a step throws.
 */
module Trace {

  /**
   * Runs the steps of `s` in order and stops at the first step that fails;
   * the failing step is attempted, so it is the last step of the result.
   */
  function UpToFailure<T>(s: seq<T>, fails: T -> bool): (r: seq<T>)
    ensures |r| <= |s| && r == s[..|r|]
    ensures forall i :: 0 <= i < |r| - 1 ==> !fails(r[i])
    ensures |r| < |s| ==> |r| > 0 && fails(r[|r| - 1])
    ensures r == s <==> forall i :: 0 <= i < |s| - 1 ==> !fails(s[i])
  {
    if s == [] then []
    else if fails(s[0]) then [s[0]]
    else [s[0]] + UpToFailure(s[1..], fails)
  }

  /** Some step of `s` fails. */
  predicate AnyFails<T>(s: seq<T>, fails: T -> bool) {
    exists i :: 0 <= i < |s| && fails(s[i])
  }

  /** The result of `UpToFailure` contains a failing step exactly when `s` does. */
  lemma {:induction false} UpToFailureFails<T>(s: seq<T>, fails: T -> bool)
    ensures AnyFails(UpToFailure(s, fails), fails) <==> AnyFails(s, fails)
  {
    var r := UpToFailure(s, fails);
    if s != [] && !fails(s[0]) {
      UpToFailureFails(s[1..], fails);
      assert r == [s[0]] + UpToFailure(s[1..], fails);
      if AnyFails(s, fails) {
        var i :| 0 <= i < |s| && fails(s[i]);
        assert s[1..][i - 1] == s[i];
        var j :| 0 <= j < |UpToFailure(s[1..], fails)| && fails(UpToFailure(s[1..], fails)[j]);
        assert r[j + 1] == UpToFailure(s[1..], fails)[j];
      }
      if AnyFails(r, fails) {
        var j :| 0 <= j < |r| && fails(r[j]);
        assert UpToFailure(s[1..], fails)[j - 1] == r[j];
        var i :| 0 <= i < |s[1..]| && fails(s[1..][i]);
        assert s[i + 1] == s[1..][i];
      }
    } else if s != [] {
      assert fails(r[0]) && fails(s[0]);
    }
  }

  /** Ranks that rise from each step to the next rise along the whole trace: no step repeats or comes out of order. */
  lemma {:induction false} StepwiseRanked<T>(t: seq<T>, rank: T -> nat)
    requires forall i :: 0 <= i < |t| - 1 ==> rank(t[i]) < rank(t[i + 1])
    ensures forall i, j :: 0 <= i < j < |t| ==> rank(t[i]) < rank(t[j])
  {
    if |t| > 1 {
      var u := t[1..];
      forall i | 0 <= i < |u| - 1 ensures rank(u[i]) < rank(u[i + 1]) {
        assert u[i] == t[i + 1] && u[i + 1] == t[i + 2];
      }
      StepwiseRanked(u, rank);
      forall i, j | 0 <= i < j < |t| ensures rank(t[i]) < rank(t[j]) {
        if i > 0 {
          assert t[i] == u[i - 1] && t[j] == u[j - 1];
        } else if j > 1 {
          assert t[1] == u[0] && t[j] == u[j - 1];
        }
      }
    }
  }
}
