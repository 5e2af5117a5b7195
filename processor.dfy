/**
 * The per-build processor.  Each pass picks the failed tests and build problems not yet handled,
 * within the per-build threshold, asks the per-item chain about each of them, and writes an
 * investigation for every answer.  Writes are recorded in `log`, in the order they are made.
 */
module Processor {
  import opened Common
  import opened Seqs
  import opened Heuristics
  import opened ItemChain

  /** An investigation written for a test or a build problem, carrying the chain's answer. */
  datatype Assignment = TestAssignment(test: TestRun, answer: Pair) | ProblemAssignment(problem: BuildProblem, answer: Pair)

  /** The applicable build problems, or the `ClassCastException` raised by a problem that is not a `BuildProblemImpl`. */
  datatype ApplicableProblems = Problems(problems: seq<BuildProblem>) | CastFailure

  /** How a pass ends: it returns the build's finished flag, or the exception escapes. */
  datatype Outcome = Returned(shouldDelete: bool) | Threw

  /** The failed tests not seen in earlier passes that the applicability check accepts, in the server's order. */
  function EligibleTests(b: Build, seen: set<int>, applicable: TestRun -> bool): seq<TestRun>
  {
    Filter(Filter(b.failedTests, (t: TestRun) => t.testNameId !in seen), applicable)
  }

  /** `getApplicableTests`: nothing once the threshold is reached, otherwise at most the remaining budget of eligible tests. */
  function ApplicableTests(threshold: int, processed: int, seen: set<int>, applicable: TestRun -> bool, b: Build): seq<TestRun>
  {
    if processed >= threshold then [] else Take(EligibleTests(b, seen, applicable), threshold - processed)
  }

  /** `getApplicableBuildProblems`, given the counter after this pass's tests were counted. */
  function ApplicableProblemsOf(threshold: int, processed: int, applicable: BuildProblem -> bool, b: Build): ApplicableProblems
  {
    if processed >= threshold || !b.isBuildEx then Problems([])
    else if exists i :: 0 <= i < |b.problems| && !b.problems[i].isImpl then CastFailure
    else Problems(Filter(Filter(b.problems, (p: BuildProblem) => p.isImpl), applicable))
  }

  /**
   * The tests of a pass are a prefix of the eligible ones: none once the counter has reached the
   * threshold, otherwise as many as the budget `threshold - processed` allows; none was seen before.
   */
  lemma {:induction false} ApplicableTestsAreCappedAndFresh(threshold: int, processed: int, seen: set<int>,
                                                            applicable: TestRun -> bool, b: Build)
    ensures var tests := ApplicableTests(threshold, processed, seen, applicable, b);
      var eligible := EligibleTests(b, seen, applicable);
      && |tests| == (if processed >= threshold then 0
                     else if threshold - processed < |eligible| then threshold - processed else |eligible|)
      && tests == eligible[..|tests|]
      && (forall i :: 0 <= i < |tests| ==> tests[i] in b.failedTests && tests[i].testNameId !in seen && applicable(tests[i]))
  {
    var unseen := Filter(b.failedTests, (t: TestRun) => t.testNameId !in seen);
    var eligible := EligibleTests(b, seen, applicable);
    var tests := ApplicableTests(threshold, processed, seen, applicable, b);
    FilterKeepsExactly(b.failedTests, (t: TestRun) => t.testNameId !in seen);
    FilterKeepsExactly(unseen, applicable);
    forall i | 0 <= i < |tests|
      ensures tests[i] in b.failedTests && tests[i].testNameId !in seen && applicable(tests[i])
    {
      assert tests[i] == eligible[i];
      var k :| 0 <= k < |unseen| && unseen[k] == eligible[i];
    }
  }

  /**
   * Build problems are not capped: below the threshold every applicable problem of a `BuildEx`
   * whose problems are all `BuildProblemImpl`s is taken, however many there are.
   */
  lemma ProblemsAreNotCapped(threshold: int, processed: int, applicable: BuildProblem -> bool, b: Build)
    requires processed < threshold && b.isBuildEx
    requires forall i :: 0 <= i < |b.problems| ==> b.problems[i].isImpl
    ensures ApplicableProblemsOf(threshold, processed, applicable, b) == Problems(Filter(b.problems, applicable))
  {
    FilterKeepsAll(b.problems, (p: BuildProblem) => p.isImpl);
  }

  /** So one pass can leave the counter above the threshold: a budget of one and two applicable problems. */
  lemma ProcessedCanExceedThreshold(b: Build, p1: BuildProblem, p2: BuildProblem)
    requires b.isBuildEx && b.failedTests == [] && b.problems == [p1, p2] && p1.isImpl && p2.isImpl
    ensures var tests := ApplicableTests(1, 0, {}, _ => true, b);
      var ps := ApplicableProblemsOf(1, 0 + |tests|, _ => true, b);
      ps.Problems? && 0 + |tests| + |ps.problems| == 2
  {
    ProblemsAreNotCapped(1, 0, _ => true, b);
    FilterKeepsAll(b.problems, (_: BuildProblem) => true);
  }

  /** The heuristics the per-item chain of a pass is built with. */
  function HeuristicsFor(factories: seq<HeuristicFactory>, b: Build, tests: seq<TestRun>, problems: seq<BuildProblem>): (hs: seq<Heuristic>)
    ensures |hs| == |factories|
  {
    seq(|factories|, i requires 0 <= i < |factories| => CreateHeuristic(factories[i], b, tests, problems))
  }

  /** The investigations written for the tests, in order: one per test the chain answers for. */
  function TestWrites(hs: seq<Heuristic>, tests: seq<TestRun>): seq<Assignment>
  {
    if |tests| == 0 then []
    else
      var t := tests[|tests| - 1];
      TestWrites(hs, tests[..|tests| - 1])
      + match FirstAnswer(TestAnswers(hs, t)) case None => [] case Some(a) => [TestAssignment(t, a)]
  }

  /** The investigations written for the build problems, in order. */
  function ProblemWrites(hs: seq<Heuristic>, problems: seq<BuildProblem>): seq<Assignment>
  {
    if |problems| == 0 then []
    else
      var p := problems[|problems| - 1];
      ProblemWrites(hs, problems[..|problems| - 1])
      + match FirstAnswer(ProblemAnswers(hs, p)) case None => [] case Some(a) => [ProblemAssignment(p, a)]
  }

  /** An investigation is written for a test exactly when it was examined and the chain answered for it, with that answer. */
  lemma {:induction false} TestWritesExactlyAnswered(hs: seq<Heuristic>, tests: seq<TestRun>, t: TestRun, a: Pair)
    ensures TestAssignment(t, a) in TestWrites(hs, tests) <==> t in tests && FirstAnswer(TestAnswers(hs, t)) == Some(a)
    ensures forall w | w in TestWrites(hs, tests) :: w.TestAssignment?
  {
    if |tests| > 0 {
      var init := tests[..|tests| - 1];
      TestWritesExactlyAnswered(hs, init, t, a);
      assert tests == init + [tests[|tests| - 1]];
    }
  }

  /** An investigation is written for a build problem exactly when it was examined and the chain answered for it. */
  lemma {:induction false} ProblemWritesExactlyAnswered(hs: seq<Heuristic>, problems: seq<BuildProblem>, p: BuildProblem, a: Pair)
    ensures ProblemAssignment(p, a) in ProblemWrites(hs, problems) <==> p in problems && FirstAnswer(ProblemAnswers(hs, p)) == Some(a)
    ensures forall w | w in ProblemWrites(hs, problems) :: w.ProblemAssignment?
  {
    if |problems| > 0 {
      var init := problems[..|problems| - 1];
      ProblemWritesExactlyAnswered(hs, init, p, a);
      assert problems == init + [problems[|problems| - 1]];
    }
  }

  /** The test name ids of some test runs. */
  function Ids(tests: seq<TestRun>): set<int>
  {
    set t | t in tests :: t.testNameId
  }

  /** What a processor is made with: the build's threshold, the applicability checks and the heuristic factories. */
  datatype Settings = Settings(threshold: int, testApplicable: TestRun -> bool, problemApplicable: BuildProblem -> bool,
                               factories: seq<HeuristicFactory>)

  /** What a processor keeps between passes: the `FailedBuildInfo` counter and ids, and the investigations written. */
  datatype PassState = PassState(processed: int, seenTests: set<int>, log: seq<Assignment>)

  /**
   * One pass of `process` from the state `s`.  `atStart` is the build when the pass begins, where
   * its finished flag is read; `b` is the build as the rest of the pass reads it.  The counter
   * grows by the tests and then by the problems; when the problem cast fails, the exception
   * leaves after the tests were counted, with nothing written and no id remembered.
   */
  function Pass(c: Settings, s: PassState, atStart: Build, b: Build): (Outcome, PassState)
  {
    var tests := ApplicableTests(c.threshold, s.processed, s.seenTests, c.testApplicable, b);
    PassOn(c, s, atStart, b, tests, ApplicableProblemsOf(c.threshold, s.processed + |tests|, c.problemApplicable, b))
  }

  /** The pass once its tests and its build problems (or the cast failure) are known. */
  function PassOn(c: Settings, s: PassState, atStart: Build, b: Build, tests: seq<TestRun>, ps: ApplicableProblems): (Outcome, PassState)
  {
    if ps.CastFailure? then
      (Threw, s.(processed := s.processed + |tests|))
    else
      var hs := HeuristicsFor(c.factories, b, tests, ps.problems);
      (Returned(atStart.isFinished),
       PassState(s.processed + |tests| + |ps.problems|, s.seenTests + Ids(tests),
                 s.log + TestWrites(hs, tests) + ProblemWrites(hs, ps.problems)))
  }

  /**
   * A pass only adds: the counter never decreases, remembered ids are kept, the investigations
   * already written stay in place; and a pass that returns reports the flag read at its start.
   */
  lemma PassOnlyGrows(c: Settings, s: PassState, atStart: Build, b: Build)
    ensures var r := Pass(c, s, atStart, b);
      && r.1.processed >= s.processed
      && s.seenTests <= r.1.seenTests
      && |s.log| <= |r.1.log| && r.1.log[..|s.log|] == s.log
      && (r.0.Returned? ==> r.0.shouldDelete == atStart.isFinished)
  {
  }

  /** The pass that throws, spelled out for the method that performs it. */
  lemma PassThrows(c: Settings, s: PassState, atStart: Build, b: Build, tests: seq<TestRun>)
    requires tests == ApplicableTests(c.threshold, s.processed, s.seenTests, c.testApplicable, b)
    requires ApplicableProblemsOf(c.threshold, s.processed + |tests|, c.problemApplicable, b).CastFailure?
    ensures Pass(c, s, atStart, b) == (Threw, s.(processed := s.processed + |tests|))
  {
  }

  /** The pass that returns, spelled out for the method that performs it. */
  lemma PassReturns(c: Settings, s: PassState, atStart: Build, b: Build, tests: seq<TestRun>, problems: seq<BuildProblem>)
    requires tests == ApplicableTests(c.threshold, s.processed, s.seenTests, c.testApplicable, b)
    requires ApplicableProblemsOf(c.threshold, s.processed + |tests|, c.problemApplicable, b) == Problems(problems)
    ensures Pass(c, s, atStart, b).0 == Returned(atStart.isFinished)
    ensures Pass(c, s, atStart, b).1.processed == s.processed + |tests| + |problems|
    ensures Pass(c, s, atStart, b).1.seenTests == s.seenTests + Ids(tests)
    ensures var hs := HeuristicsFor(c.factories, b, tests, problems);
      Pass(c, s, atStart, b).1.log == s.log + TestWrites(hs, tests) + ProblemWrites(hs, problems)
  {
    assert Pass(c, s, atStart, b) == PassOn(c, s, atStart, b, tests, Problems(problems));
  }

  /**
   * A pass throws exactly when, with the counter still below the threshold after the tests, the
   * build is a `BuildEx` and one of its problems is not a `BuildProblemImpl`.
   */
  lemma PassThrowsExactlyOnCastFailure(c: Settings, s: PassState, atStart: Build, b: Build)
    ensures var tests := ApplicableTests(c.threshold, s.processed, s.seenTests, c.testApplicable, b);
      Pass(c, s, atStart, b).0.Threw? <==>
        && s.processed + |tests| < c.threshold && b.isBuildEx
        && exists i :: 0 <= i < |b.problems| && !b.problems[i].isImpl
  {
  }

  /**
   * A test examined by a pass that returns is never examined by a later pass, whatever the build
   * then looks like: its name id is remembered.
   */
  lemma ExaminedTestsAreNotExaminedAgain(c: Settings, s: PassState, atStart: Build, b: Build, b2: Build, t: TestRun)
    requires Pass(c, s, atStart, b).0.Returned?
    requires t in ApplicableTests(c.threshold, s.processed, s.seenTests, c.testApplicable, b)
    ensures var s2 := Pass(c, s, atStart, b).1;
      forall u | u in ApplicableTests(c.threshold, s2.processed, s2.seenTests, c.testApplicable, b2) :: u.testNameId != t.testNameId
  {
    var s2 := Pass(c, s, atStart, b).1;
    var tests := ApplicableTests(c.threshold, s.processed, s.seenTests, c.testApplicable, b);
    assert t.testNameId in s2.seenTests by {
      assert t.testNameId in Ids(tests);
    }
    var next := ApplicableTests(c.threshold, s2.processed, s2.seenTests, c.testApplicable, b2);
    ApplicableTestsAreCappedAndFresh(c.threshold, s2.processed, s2.seenTests, c.testApplicable, b2);
    forall u | u in next
      ensures u.testNameId != t.testNameId
    {
      var k :| 0 <= k < |next| && next[k] == u;
    }
  }

  class BuildProblemsProcessor {
    const buildId: int
    const threshold: int
    const testApplicable: TestRun -> bool
    const problemApplicable: BuildProblem -> bool
    const factories: seq<HeuristicFactory>
    /** `FailedBuildInfo`: how many items were examined, and the test name ids already handled. */
    var processed: int
    var seenTests: set<int>
    var log: seq<Assignment>

    /** The threshold is read from the build once, when the processor is made. */
    constructor (b: Build, testApplicable: TestRun -> bool, problemApplicable: BuildProblem -> bool,
                 factories: seq<HeuristicFactory>)
      ensures buildId == b.id && threshold == b.maxTestsThreshold
      ensures this.testApplicable == testApplicable && this.problemApplicable == problemApplicable
      ensures this.factories == factories
      ensures processed == 0 && seenTests == {} && log == []
    {
      buildId := b.id;
      threshold := b.maxTestsThreshold;
      this.testApplicable := testApplicable;
      this.problemApplicable := problemApplicable;
      this.factories := factories;
      processed := 0;
      seenTests := {};
      log := [];
    }

    /** `getApplicableBuildProblems`: the cast loop throws on the first problem that is not a `BuildProblemImpl`. */
    method GetApplicableBuildProblems(b: Build) returns (r: ApplicableProblems)
      ensures r == ApplicableProblemsOf(threshold, processed, problemApplicable, b)
    {
      if processed >= threshold || !b.isBuildEx {
        return Problems([]);
      }
      var i := 0;
      while i < |b.problems|
        invariant 0 <= i <= |b.problems|
        invariant forall j :: 0 <= j < i ==> b.problems[j].isImpl
      {
        if !b.problems[i].isImpl {
          return CastFailure;
        }
        i := i + 1;
      }
      return Problems(Filter(Filter(b.problems, (p: BuildProblem) => p.isImpl), problemApplicable));
    }

    /** The processor's settings, as the specification of a pass takes them. */
    function Config(): Settings
    {
      Settings(threshold, testApplicable, problemApplicable, factories)
    }

    /** The processor's state between passes. */
    function State(): PassState
      reads this
    {
      PassState(processed, seenTests, log)
    }

    /**
     * `process`: the finished flag is read from the build as it is when the pass begins
     * (`atStart`) and returned at the end; the rest of the pass reads the build as `b`.  The
     * outcome and the new state are those of `Pass`.
     */
    method Process(atStart: Build, b: Build) returns (outcome: Outcome)
      modifies this
      ensures outcome == Pass(Config(), old(State()), atStart, b).0
      ensures State() == Pass(Config(), old(State()), atStart, b).1
    {
      ghost var s0 := State();
      var shouldDelete := atStart.isFinished;

      var testRuns := ApplicableTests(threshold, processed, seenTests, testApplicable, b);
      processed := processed + |testRuns|;

      var applicable := GetApplicableBuildProblems(b);
      if applicable.CastFailure? {
        PassThrows(Config(), s0, atStart, b, testRuns);
        return Threw;
      }
      var buildProblems := applicable.problems;
      processed := processed + |buildProblems|;

      var finder := new ResponsibleUserFinder(factories, b, testRuns, buildProblems);
      ghost var hs := HeuristicsFor(factories, b, testRuns, buildProblems);
      assert finder.orderedHeuristics == hs;
      WriteTestInvestigations(finder, testRuns);
      WriteProblemInvestigations(finder, buildProblems);

      assert log == s0.log + TestWrites(hs, testRuns) + ProblemWrites(hs, buildProblems);
      seenTests := seenTests + Ids(testRuns);
      PassReturns(Config(), s0, atStart, b, testRuns, buildProblems);
      assert State() == Pass(Config(), s0, atStart, b).1;
      return Returned(shouldDelete);
    }

    /** The loop over the pass's tests: an investigation for every test the chain answers for. */
    method WriteTestInvestigations(finder: ResponsibleUserFinder, testRuns: seq<TestRun>)
      modifies this`log
      ensures log == old(log) + TestWrites(finder.orderedHeuristics, testRuns)
    {
      ghost var hs := finder.orderedHeuristics;
      ghost var log0 := log;
      var i := 0;
      while i < |testRuns|
        invariant 0 <= i <= |testRuns|
        invariant log == log0 + TestWrites(hs, testRuns[..i])
      {
        var responsible;
        ghost var consulted;
        responsible, consulted := finder.FindResponsibleForTest(testRuns[i]);
        if responsible.Some? {
          log := log + [TestAssignment(testRuns[i], responsible.value)];
        }
        assert testRuns[..i + 1][..i] == testRuns[..i];
        i := i + 1;
      }
      assert testRuns[..i] == testRuns;
    }

    /** The loop over the pass's build problems. */
    method WriteProblemInvestigations(finder: ResponsibleUserFinder, buildProblems: seq<BuildProblem>)
      modifies this`log
      ensures log == old(log) + ProblemWrites(finder.orderedHeuristics, buildProblems)
    {
      ghost var hs := finder.orderedHeuristics;
      ghost var log0 := log;
      var j := 0;
      while j < |buildProblems|
        invariant 0 <= j <= |buildProblems|
        invariant log == log0 + ProblemWrites(hs, buildProblems[..j])
      {
        var responsible;
        ghost var consulted;
        responsible, consulted := finder.FindResponsibleForProblem(buildProblems[j]);
        if responsible.Some? {
          log := log + [ProblemAssignment(buildProblems[j], responsible.value)];
        }
        assert buildProblems[..j + 1][..j] == buildProblems[..j];
        j := j + 1;
      }
      assert buildProblems[..j] == buildProblems;
    }
  }
}
