/**
 * The Previous-Responsible heuristic: blame whoever was responsible for the same test or build
 * problem before.  The server's investigation history is a parameter: `forTest` and `forProblem`
 * hold the previous responsible user per test name id and per problem id, as the investigations
 * manager finds them; `audit` holds the responsible user the audit log recorded per test name id.
 */
module PreviousResponsibleHeuristic {
  import opened Common
  import opened Strings

  datatype Investigations = Investigations(forTest: map<int, User>, forProblem: map<int, User>)

  /**
   * `findResponsibleUser(STestRun)`: the live investigation history is asked first and the audit
   * log second; the heuristic always answers, with no user when neither knows one.
   */
  function FindForTest(inv: Investigations, audit: map<int, User>, b: Build, t: TestRun): (r: Option<Pair>)
    ensures r.Some? && r.value.reason == PreviousTest(t.testName, b.fullName)
    ensures r.value.user.Some? <==> t.testNameId in inv.forTest || t.testNameId in audit
    ensures r.value.user.Some? ==>
      r.value.user.value == if t.testNameId in inv.forTest then inv.forTest[t.testNameId] else audit[t.testNameId]
  {
    var id := t.testNameId;
    var responsibleUser := if id in inv.forTest then Some(inv.forTest[id]) else None;
    var responsibleUser' := if responsibleUser.None? && id in audit then Some(audit[id]) else responsibleUser;
    Some(Pair(responsibleUser', PreviousTest(t.testName, b.fullName)))
  }

  /** The live investigation history overrides the audit log. */
  lemma LiveHistoryOverridesAudit(inv: Investigations, audit: map<int, User>, b: Build, t: TestRun)
    requires t.testNameId in inv.forTest
    ensures FindForTest(inv, audit, b, t) == FindForTest(inv, map[], b, t)
  {
  }

  /**
   * `findResponsibleUser(BuildProblem)`: abstain when the history has no previous responsible
   * user for the problem; the audit log is not consulted for problems.
   */
  function FindForProblem(inv: Investigations, b: Build, p: BuildProblem): (r: Option<Pair>)
    ensures r.Some? <==> p.id in inv.forProblem
    ensures r.Some? ==> r.value == Pair(Some(inv.forProblem[p.id]), PreviousProblem(p.problemType, b.fullName))
  {
    if p.id !in inv.forProblem then None
    else Some(Pair(Some(inv.forProblem[p.id]), PreviousProblem(p.problemType, b.fullName)))
  }

  /** The reason for a build problem names the problem's type and the build. */
  lemma {:induction false} ProblemReasonNamesTypeAndBuild(prefix: string, problemType: string, name: string)
    ensures Contains(PreviousProblem(problemType, name).Text(prefix), problemType)
    ensures Contains(PreviousProblem(problemType, name).Text(prefix), name)
  {
    var head := prefix + " " + YouWere + " responsible for the build problem: `";
    var middle := "` in build `";
    var tail := "` previous time";
    assert PreviousProblem(problemType, name).Text(prefix) == head + problemType + middle + name + tail;
    ContainsInfix(head, problemType, middle);
    ContainsExtends(head + problemType + middle, name, problemType);
    ContainsExtends(head + problemType + middle + name, tail, problemType);
    ContainsInfix(head + problemType + middle, name, tail);
  }
}
