/**
 * The server-side entities the investigation auto-assigner reads, as plain values.
 * A `Build` is one snapshot of a build as the server reports it at one moment;
 * the per-build processor is handed the current snapshot on every pass.
 */
module Common {

  datatype Option<+T> = None | Some(value: T)

  /** A server user account; users are compared as values. */
  datatype User = User(id: int, username: string)

  /** A failed test run: the test's stable name id, its name, and the run's full text (stack trace etc.). */
  datatype TestRun = TestRun(testNameId: int, testName: string, fullText: string)

  /**
   * A build problem.  `compileErrors` holds the compiler messages collected from the build log
   * for a compilation-error problem (empty for other problems); `isImpl` says whether the
   * server object is a `BuildProblemImpl`.
   */
  datatype BuildProblem = BuildProblem(
    id: int,
    problemType: string,
    description: string,
    compileErrors: seq<string>,
    isImpl: bool)

  /** A VCS modification: its committers (in the server's order) and the relative paths of its changed files. */
  datatype VcsChange = VcsChange(committers: seq<User>, files: seq<string>)

  /** A change descriptor, whose related VCS change may be missing. */
  datatype ChangeDescriptor = ChangeDescriptor(relatedVcsChange: Option<VcsChange>)

  /** A descriptor of the plugin's build feature; the value of its default-responsible parameter, if set. */
  datatype FeatureDescriptor = FeatureDescriptor(defaultResponsible: Option<string>)

  /** A failure the assigner can take responsibility decisions about. */
  datatype Failure = TestFailure(test: TestRun) | ProblemFailure(problem: BuildProblem)

  datatype Build = Build(
    id: int,
    fullName: string,
    buildNumber: string,
    isPersonal: bool,
    hasBuildType: bool,
    isBuildEx: bool,                  // the build object is a BuildEx
    isFinished: bool,
    features: seq<FeatureDescriptor>, // descriptors of the plugin's build feature, in server order
    committers: set<User>,            // committers since the last build
    promotionIsEx: bool,              // the build promotion is a BuildPromotionEx
    detectedChanges: seq<ChangeDescriptor>, // changes since the last build
    failedTests: seq<TestRun>,        // first-failed-in-build and fixed-in-build test runs
    problems: seq<BuildProblem>,
    maxTestsThreshold: int)           // the per-build threshold parameter

  /** The phrase a presentable description rewrites. */
  const YouWere: string := "you were"

  /** Why a heuristic picked a user; `Text` renders the message the source formats. */
  datatype Reason =
    | SoleCommitter(buildFullName: string, buildNumber: string)
    | ChangedFile(path: string)
    | DefaultResponsible(buildFullName: string, buildNumber: string)
    | PreviousTest(testName: string, buildFullName: string)
    | PreviousProblem(problemType: string, buildFullName: string)
  {
    /** The reason text, given the plugin's reason prefix. */
    function Text(prefix: string): string
    {
      match this
      case SoleCommitter(name, number) =>
        prefix + " " + YouWere + " responsible the only committer to the build: " + name + " # " + number
      case ChangedFile(path) =>
        prefix + " you changed the \"" + path + "\" file, which probably caused this failure."
      case DefaultResponsible(name, number) =>
        prefix + " you're the default responsible user for the build: " + name + " #" + number
      case PreviousTest(test, name) =>
        prefix + " " + YouWere + " responsible for the test: `" + test + "` in build `" + name + "` previous time"
      case PreviousProblem(problemType, name) =>
        prefix + " " + YouWere + " responsible for the build problem: `" + problemType + "` in build `" + name + "` previous time"
    }
  }

  /** The (user, reason) pair a per-item heuristic answers with; the user may be missing. */
  datatype Pair = Pair(user: Option<User>, reason: Reason)
}
