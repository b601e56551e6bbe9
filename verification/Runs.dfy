/** What all the run systems and counting arguments share. */
module Runs {

  /** A reflexive and transitive relation that holds from each state of a run to the next holds
      from any state to any later one. */
  lemma {:induction false} Chain<S>(run: seq<S>, rel: (S, S) -> bool, i: nat, j: nat)
    requires i <= j < |run|
    requires forall a :: rel(a, a)
    requires forall a, b, c :: rel(a, b) && rel(b, c) ==> rel(a, c)
    requires forall k :: 0 <= k < |run| - 1 ==> rel(run[k], run[k + 1])
    ensures rel(run[i], run[j])
  {
    if i < j {
      Chain(run, rel, i, j - 1);
      assert rel(run[j - 1], run[j - 1 + 1]);
    }
  }

  lemma {:induction false} Subset<T>(a: set<T>, b: set<T>)
    requires a <= b
    ensures |a| <= |b|
  {
    assert b == a + (b - a);
  }

  /* ---------- what a sequence of steps reaches ---------- */

  ghost predicate IsPath<S(!new)>(path: seq<S>, s: S, s': S, step: (S, S) -> bool) {
    && path != [] && path[0] == s && path[|path| - 1] == s'
    && forall i :: 0 <= i < |path| - 1 ==> step(path[i], path[i + 1])
  }

  ghost predicate Reaches<S(!new)>(s: S, s': S, step: (S, S) -> bool) {
    exists path: seq<S> :: IsPath(path, s, s', step)
  }

  lemma ReachesItself<S(!new)>(s: S, step: (S, S) -> bool)
    ensures Reaches(s, s, step)
  {
    assert IsPath([s], s, s, step);
  }

  lemma ReachesOneMore<S(!new)>(s: S, s1: S, s2: S, step: (S, S) -> bool)
    requires Reaches(s, s1, step) && step(s1, s2)
    ensures Reaches(s, s2, step)
  {
    var path: seq<S> :| IsPath(path, s, s1, step);
    var longer := path + [s2];
    forall i | 0 <= i < |longer| - 1 ensures step(longer[i], longer[i + 1]) {
      assert i < |path| - 1 ==> longer[i] == path[i] && longer[i + 1] == path[i + 1];
    }
    assert IsPath(longer, s, s2, step);
  }

  lemma ReachesInTwo<S(!new)>(s: S, s1: S, s2: S, step: (S, S) -> bool)
    requires Reaches(s, s1, step) && Reaches(s1, s2, step)
    ensures Reaches(s, s2, step)
  {
    var first: seq<S> :| IsPath(first, s, s1, step);
    var second: seq<S> :| IsPath(second, s1, s2, step);
    var path := first + second[1..];
    forall i | 0 <= i < |path| - 1 ensures step(path[i], path[i + 1]) {
      if i >= |first| - 1 {
        var k := i - (|first| - 1);
        assert path[i] == second[k] && path[i + 1] == second[k + 1];
      }
    }
    assert IsPath(path, s, s2, step);
  }
}
