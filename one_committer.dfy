/** The One-Committer heuristic: blame the only person who committed since the last build. */
module OneCommitterHeuristic {
  import opened Common

  /** Both elements of a one-element set are the same. */
  lemma {:induction false} SingletonMembersAreEqual(s: set<User>, u: User, v: User)
    requires |s| == 1 && u in s && v in s
    ensures u == v
  {
    if u != v {
      assert {u, v} <= s;
      assert |{u, v}| == 2;
      SubsetCardinality({u, v}, s);
    }
  }

  lemma {:induction false} SubsetCardinality(a: set<User>, b: set<User>)
    requires a <= b
    ensures |a| <= |b|
  {
    if a != {} {
      var x :| x in a;
      SubsetCardinality(a - {x}, b - {x});
    }
  }

  /** The element of a one-element set. */
  function TheOnly(s: set<User>): (u: User)
    requires |s| == 1
    ensures s == {u}
  {
    assert forall u, v | u in s && v in s :: u == v by {
      forall u, v | u in s && v in s
        ensures u == v
      {
        SingletonMembersAreEqual(s, u, v);
      }
    }
    var u :| u in s;
    assert s == {u} by {
      forall v | v in s
        ensures v == u
      {
        SingletonMembersAreEqual(s, u, v);
      }
    }
    u
  }

  /**
   * `findResponsibleUser`, whatever the failure: abstain when there are no committers since the
   * last build or more than one, otherwise blame the one committer.
   */
  function FindResponsibleUser(b: Build): (r: Option<Pair>)
    ensures r.None? <==> |b.committers| != 1
    ensures r.Some? ==> r.value.user.Some? && b.committers == {r.value.user.value}
    ensures r.Some? ==> r.value.reason == SoleCommitter(b.fullName, b.buildNumber)
  {
    if |b.committers| == 0 then None
    else if |b.committers| != 1 then None
    else Some(Pair(Some(TheOnly(b.committers)), SoleCommitter(b.fullName, b.buildNumber)))
  }
}
