/**
 * The four heuristics behind one interface, the factories that build them for a build, and the
 * batch form of a heuristic that the batch chain runs.
 */
module Heuristics {
  import opened Common
  import opened Responsibilities
  import BrokenFileHeuristic
  import OneCommitterHeuristic
  import DefaultUserHeuristic
  import PreviousResponsibleHeuristic

  /** A heuristic built for one build. */
  datatype Heuristic =
    | OneCommitter(build: Build)
    | BrokenFile(build: Build)
    | DefaultUser(accounts: map<string, User>, build: Build)
    | PreviousResponsible(inv: PreviousResponsibleHeuristic.Investigations, audit: map<int, User>, build: Build)

  /**
   * A factory of heuristics.  The previous-responsible factory holds the audit log's responsible
   * user per test name id; what it hands a heuristic is that log restricted to the applicable tests.
   */
  datatype HeuristicFactory =
    | OneCommitterFactory
    | BrokenFileFactory
    | DefaultUserFactory(accounts: map<string, User>)
    | PreviousResponsibleFactory(inv: PreviousResponsibleHeuristic.Investigations, auditLog: map<int, User>)

  /** `findInAudit`: the audit log's entries for the given tests. */
  function FindInAudit(auditLog: map<int, User>, tests: seq<TestRun>): (r: map<int, User>)
    ensures r.Keys <= auditLog.Keys
    ensures forall id :: id in r <==> id in auditLog && exists t :: t in tests && t.testNameId == id
    ensures forall id | id in r :: r[id] == auditLog[id]
  {
    map id | id in auditLog && (exists t :: t in tests && t.testNameId == id) :: auditLog[id]
  }

  /** `createHeuristic(build, applicableTestRuns, applicableBuildProblems)`. */
  function CreateHeuristic(f: HeuristicFactory, b: Build, tests: seq<TestRun>, problems: seq<BuildProblem>): (h: Heuristic)
    ensures h.build == b
  {
    match f
    case OneCommitterFactory => OneCommitter(b)
    case BrokenFileFactory => BrokenFile(b)
    case DefaultUserFactory(accounts) => DefaultUser(accounts, b)
    case PreviousResponsibleFactory(inv, auditLog) => PreviousResponsible(inv, FindInAudit(auditLog, tests), b)
  }

  /** `heuristic.findResponsibleUser(testRun)`. */
  function ForTest(h: Heuristic, t: TestRun): Option<Pair>
  {
    match h
    case OneCommitter(b) => OneCommitterHeuristic.FindResponsibleUser(b)
    case BrokenFile(b) => BrokenFileHeuristic.Verdict(b, BrokenFileHeuristic.TestText(t))
    case DefaultUser(accounts, b) => DefaultUserHeuristic.FindResponsibleUser(accounts, b)
    case PreviousResponsible(inv, audit, b) => PreviousResponsibleHeuristic.FindForTest(inv, audit, b, t)
  }

  /** `heuristic.findResponsibleUser(buildProblem)`. */
  function ForProblem(h: Heuristic, p: BuildProblem): Option<Pair>
  {
    match h
    case OneCommitter(b) => OneCommitterHeuristic.FindResponsibleUser(b)
    case BrokenFile(b) => BrokenFileHeuristic.Verdict(b, BrokenFileHeuristic.ProblemText(p))
    case DefaultUser(accounts, b) => DefaultUserHeuristic.FindResponsibleUser(accounts, b)
    case PreviousResponsible(inv, _, b) => PreviousResponsibleHeuristic.FindForProblem(inv, b, p)
  }

  /** The one-committer and default-user heuristics give the same answer whatever failure they are asked about. */
  lemma UniformHeuristicsIgnoreTheFailure(h: Heuristic, t1: TestRun, t2: TestRun, p: BuildProblem)
    requires h.OneCommitter? || h.DefaultUser?
    ensures ForTest(h, t1) == ForTest(h, t2) == ForProblem(h, p)
  {
  }

  /** The previous-responsible heuristic built by its factory sees the audit log only for the applicable tests. */
  lemma PreviousResponsibleSeesApplicableAuditOnly(inv: PreviousResponsibleHeuristic.Investigations,
      auditLog: map<int, User>, b: Build, tests: seq<TestRun>, problems: seq<BuildProblem>, t: TestRun)
    requires t.testNameId !in inv.forTest
    ensures var h := CreateHeuristic(PreviousResponsibleFactory(inv, auditLog), b, tests, problems);
      ForTest(h, t).value.user.Some? <==> t.testNameId in auditLog && exists u :: u in tests && u.testNameId == t.testNameId
  {
  }

  /** The items of a batch context: the build, its problems and its test runs. */
  datatype HeuristicContext = HeuristicContext(build: Build, problems: seq<BuildProblem>, tests: seq<TestRun>)

  /** A batch result: the responsibility found per failure. */
  type HeuristicResult = map<Failure, Responsibility>

  /** A failure is one of the context's items. */
  predicate InContext(f: Failure, ctx: HeuristicContext)
  {
    match f
    case TestFailure(t) => t in ctx.tests
    case ProblemFailure(p) => p in ctx.problems
  }

  /**
   * The batch form of the heuristic a factory builds for a context: a responsibility for every
   * item whose answer names a user, with the reason rendered after the plugin's prefix.
   */
  function LiftedResult(f: HeuristicFactory, prefix: string, ctx: HeuristicContext): (r: HeuristicResult)
    ensures forall x | x in r :: InContext(x, ctx)
  {
    var h := CreateHeuristic(f, ctx.build, ctx.tests, ctx.problems);
    var tests := map t | t in ctx.tests && ForTest(h, t).Some? && ForTest(h, t).value.user.Some? ::
      TestFailure(t) := Responsibility(ForTest(h, t).value.user.value, ForTest(h, t).value.reason.Text(prefix));
    var problems := map p | p in ctx.problems && ForProblem(h, p).Some? && ForProblem(h, p).value.user.Some? ::
      ProblemFailure(p) := Responsibility(ForProblem(h, p).value.user.value, ForProblem(h, p).value.reason.Text(prefix));
    tests + problems
  }

  function Lift(f: HeuristicFactory, prefix: string): HeuristicContext -> HeuristicResult
  {
    ctx => LiftedResult(f, prefix, ctx)
  }

  /** A lifted heuristic answers exactly for the context's items whose per-item answer names a user. */
  lemma LiftedAnswersNamedUsers(f: HeuristicFactory, prefix: string, ctx: HeuristicContext, t: TestRun)
    ensures var h := CreateHeuristic(f, ctx.build, ctx.tests, ctx.problems);
      TestFailure(t) in LiftedResult(f, prefix, ctx) <==>
        t in ctx.tests && ForTest(h, t).Some? && ForTest(h, t).value.user.Some?
  {
  }
}
