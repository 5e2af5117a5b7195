/**
 * The per-item chain: the heuristics built for a build are asked in order about one test run or
 * build problem, and the first answer wins.
 */
module ItemChain {
  import opened Common
  import opened Heuristics

  /** The position of the first answer, or the number of answers when there is none. */
  function FirstAnswerIndex(answers: seq<Option<Pair>>): (k: nat)
    ensures k <= |answers|
  {
    if |answers| == 0 then 0
    else if answers[0].Some? then 0
    else 1 + FirstAnswerIndex(answers[1..])
  }

  /** The first answer, if any heuristic answered. */
  function FirstAnswer(answers: seq<Option<Pair>>): Option<Pair>
  {
    var k := FirstAnswerIndex(answers);
    if k < |answers| then answers[k] else None
  }

  /**
   * The chain's answer is the first one given: every earlier heuristic abstained, and there is
   * none exactly when all of them abstained (or there are none).
   */
  lemma {:induction false} FirstAnswerIsFirst(answers: seq<Option<Pair>>)
    ensures FirstAnswer(answers).None? <==> forall i :: 0 <= i < |answers| ==> answers[i].None?
    ensures FirstAnswerIndex(answers) < |answers| ==> FirstAnswer(answers) == answers[FirstAnswerIndex(answers)]
    ensures forall i :: 0 <= i < FirstAnswerIndex(answers) ==> answers[i].None?
  {
    if |answers| > 0 && answers[0].None? {
      FirstAnswerIsFirst(answers[1..]);
      assert forall i :: 1 <= i < |answers| ==> answers[i] == answers[1..][i - 1];
    }
  }

  /** An answer that names no user still ends the search. */
  lemma AnswerWithoutUserStopsTheChain(answers: seq<Option<Pair>>, reason: Reason, later: seq<Option<Pair>>)
    requires forall i :: 0 <= i < |answers| ==> answers[i].None?
    ensures FirstAnswer(answers + [Some(Pair(None, reason))] + later) == Some(Pair(None, reason))
  {
    var all := answers + [Some(Pair(None, reason))] + later;
    FirstAnswerIsFirst(all);
    assert all[|answers|].Some?;
    assert forall i :: 0 <= i < |answers| ==> all[i] == answers[i];
  }

  function TestAnswers(hs: seq<Heuristic>, t: TestRun): (r: seq<Option<Pair>>)
    ensures |r| == |hs| && forall i :: 0 <= i < |hs| ==> r[i] == ForTest(hs[i], t)
  {
    seq(|hs|, i requires 0 <= i < |hs| => ForTest(hs[i], t))
  }

  function ProblemAnswers(hs: seq<Heuristic>, p: BuildProblem): (r: seq<Option<Pair>>)
    ensures |r| == |hs| && forall i :: 0 <= i < |hs| ==> r[i] == ForProblem(hs[i], p)
  {
    seq(|hs|, i requires 0 <= i < |hs| => ForProblem(hs[i], p))
  }

  class ResponsibleUserFinder {
    const build: Build
    var orderedHeuristics: seq<Heuristic>

    /** One heuristic per factory, in factory order, each built for the build and the items of this pass. */
    constructor (factories: seq<HeuristicFactory>, b: Build, tests: seq<TestRun>, problems: seq<BuildProblem>)
      ensures build == b
      ensures |orderedHeuristics| == |factories|
      ensures forall i :: 0 <= i < |factories| ==> orderedHeuristics[i] == CreateHeuristic(factories[i], b, tests, problems)
    {
      build := b;
      orderedHeuristics := [];
      new;
      var i := 0;
      while i < |factories|
        invariant 0 <= i <= |factories|
        invariant |orderedHeuristics| == i
        invariant forall j :: 0 <= j < i ==> orderedHeuristics[j] == CreateHeuristic(factories[j], b, tests, problems)
      {
        orderedHeuristics := orderedHeuristics + [CreateHeuristic(factories[i], b, tests, problems)];
        i := i + 1;
      }
    }

    /**
     * `findResponsible(testRun)`: the heuristics are asked in order until one answers.
     * `consulted` counts the heuristics asked: up to and including the first that answers.
     */
    method FindResponsibleForTest(t: TestRun) returns (r: Option<Pair>, ghost consulted: nat)
      ensures r == FirstAnswer(TestAnswers(orderedHeuristics, t))
      ensures consulted == if r.Some? then FirstAnswerIndex(TestAnswers(orderedHeuristics, t)) + 1 else |orderedHeuristics|
    {
      ghost var answers := TestAnswers(orderedHeuristics, t);
      FirstAnswerIsFirst(answers);
      r := None;
      consulted := 0;
      var i := 0;
      while i < |orderedHeuristics|
        invariant 0 <= i <= |orderedHeuristics|
        invariant r.None? && consulted == i
        invariant forall j :: 0 <= j < i ==> answers[j].None?
      {
        r := ForTest(orderedHeuristics[i], t);
        consulted := consulted + 1;
        if r.Some? {
          FirstAnswerAt(answers, i);
          break;
        }
        i := i + 1;
      }
    }

    /** `findResponsible(buildProblem)`: the same first-answer-wins rule for a build problem. */
    method FindResponsibleForProblem(p: BuildProblem) returns (r: Option<Pair>, ghost consulted: nat)
      ensures r == FirstAnswer(ProblemAnswers(orderedHeuristics, p))
      ensures consulted == if r.Some? then FirstAnswerIndex(ProblemAnswers(orderedHeuristics, p)) + 1 else |orderedHeuristics|
    {
      ghost var answers := ProblemAnswers(orderedHeuristics, p);
      FirstAnswerIsFirst(answers);
      r := None;
      consulted := 0;
      var i := 0;
      while i < |orderedHeuristics|
        invariant 0 <= i <= |orderedHeuristics|
        invariant r.None? && consulted == i
        invariant forall j :: 0 <= j < i ==> answers[j].None?
      {
        r := ForProblem(orderedHeuristics[i], p);
        consulted := consulted + 1;
        if r.Some? {
          FirstAnswerAt(answers, i);
          break;
        }
        i := i + 1;
      }
    }
  }

  /** An answer after a run of abstentions is the first answer. */
  lemma FirstAnswerAt(answers: seq<Option<Pair>>, i: nat)
    requires i < |answers| && answers[i].Some?
    requires forall j :: 0 <= j < i ==> answers[j].None?
    ensures FirstAnswerIndex(answers) == i && FirstAnswer(answers) == answers[i]
  {
    FirstAnswerIsFirst(answers);
  }
}
