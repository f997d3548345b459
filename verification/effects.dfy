/** React's rule for when an effect with a dependency array runs: after the
    first commit that calls the hook, and after every later commit whose
    dependency array differs from the previous one's. */
module Effects {
  import opened Wrappers

  /** `previous` is the dependency array of the last commit that called the
      hook, `None` when this is the first. */
  predicate ShouldRun<D(==)>(previous: Option<seq<D>>, deps: seq<D>) {
    previous.None? || previous.value != deps
  }

  /** How many times the effect runs over commits with these dependency arrays. */
  function RunCount<D(==)>(commits: seq<seq<D>>): (n: nat)
    ensures |commits| == 0 ==> n == 0
    ensures |commits| > 0 ==> 1 <= n <= |commits|
  {
    if |commits| == 0 then 0
    else
      var last := |commits| - 1;
      var previous := if last == 0 then None else Some(commits[last - 1]);
      RunCount(commits[..last]) + (if ShouldRun(previous, commits[last]) then 1 else 0)
  }

  /** The dependency arrays of `commits` commits of an effect declared with `[]`. */
  function EmptyDeps(commits: nat): (r: seq<seq<string>>)
    ensures |r| == commits
  {
    seq(commits, _ => [])
  }

  /** An effect whose dependency array never changes (in particular `[]`) runs
      exactly once, however often the component re-renders. */
  lemma {:induction false} UnchangingDepsRunOnce<D>(commits: seq<seq<D>>)
    requires |commits| > 0
    requires forall i :: 0 <= i < |commits| ==> commits[i] == commits[0]
    ensures RunCount(commits) == 1
    decreases |commits|
  {
    if |commits| > 1 {
      var last := |commits| - 1;
      assert commits[last] == commits[last - 1];
      UnchangingDepsRunOnce(commits[..last]);
    }
  }

  /** A commit whose dependency array differs from the previous one runs the effect again. */
  lemma ChangedDepsRunAgain<D>(commits: seq<seq<D>>, deps: seq<D>)
    requires |commits| > 0 && commits[|commits| - 1] != deps
    ensures RunCount(commits + [deps]) == RunCount(commits) + 1
  {
    assert (commits + [deps])[..|commits|] == commits;
  }
}
