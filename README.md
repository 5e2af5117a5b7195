# Investigations auto-assigner: a Dafny model of the resolution engine

This project models the core of the TeamCity investigations auto-assigner plugin. When a build
fails, the plugin decides who should investigate each failed test and build problem, and it
writes an investigation for that user. The model covers:

- **The dispatcher** (`Dispatcher`). Build events register one processor per build. A periodic
  sweep runs every registered processor once and forgets the builds that had finished.
- **The per-build processor** (`Processor`). Each pass picks the failed tests not handled in an
  earlier pass, up to the build's threshold, and then the applicable build problems. It asks the
  per-item heuristic chain about each of them and records an investigation for every answer.
- **The per-item chain** (`ItemChain`). The heuristics built for a pass are asked in order about
  one test run or build problem. The first non-null answer wins, even one that names no user.
- **The batch chain** (`BatchChain`). Each heuristic in turn is handed only the items that no
  earlier heuristic has claimed. Its results are merged into one map from failure to
  responsibility.
- **The four heuristics.**
  - one committer (`OneCommitterHeuristic`);
  - broken file, which matches file paths of the build's changes against the failure text
    (`BrokenFileHeuristic`);
  - the build feature's default user (`DefaultUserHeuristic`);
  - the previous responsible, from the live investigation history or the audit log
    (`PreviousResponsibleHeuristic`);
  - their common interface and factories (`Heuristics`).
- **The `Responsibility` value** (`Responsibilities`): its equality, its hash code with 32-bit
  wrap-around, and its presentable description.

The model takes the same form as the code. The heuristics are functions over a `Build` snapshot.
The two `ResponsibleUserFinder`s, the processor and the dispatcher are classes whose methods loop
and update fields. Each method is proved against a specification function, and the properties the
code promises are proved about those functions. `Strings` and `Seqs` hold the Java `String` and
stream operations the code relies on: `contains`, `indexOf`, `lastIndexOf`, `replaceFirst` with a
literal pattern, `filter` and `limit`.

### Behaviour of the code that one might not expect (the model follows the code)

- **A failing processor is not isolated.** One might expect that one build's failure never aborts
  the sweep. In the code, `getApplicableBuildProblems` casts every problem to `BuildProblemImpl`
  (BuildProblemsProcessor.java:106-109), and nothing catches the `ClassCastException`.
  - The exception leaves `process`, and then the sweep. The processors visited before it have
    already run their pass; those not yet visited are untouched.
  - The scheduled executor suppresses every later run after such an exception.
  - `Processor.Pass` returns `Threw`, and `Processor.PassThrowsExactlyOnCastFailure` says when.
  - `Dispatcher.BuildProblemsDispatcher.Sweep` stops at that processor and sets
    `sweepsSuppressed`, and every later sweep does nothing.
- **The threshold caps tests only.** One might expect that the number of examined failures never
  exceeds the threshold. In the code only the tests are limited (`limit(threshold - processed)`).
  Below the threshold, every applicable build problem is taken.
  `Processor.ProcessedCanExceedThreshold` exhibits a pass that ends with the counter above the
  threshold.
- **Build problems are not remembered.** Only test name ids are remembered between passes
  (`Processor.ExaminedTestsAreNotExaminedAgain`). A build problem is examined again on every pass
  that starts below the threshold, for as long as the applicability check still accepts it.
- **A missing default-responsible parameter.** `String.valueOf` turns the missing value into
  "null", and the code then looks up an account with that name. See
  `DefaultUserHeuristic.MissingParameterNamesNullUser`.
- **A previous-responsible answer with no user.** For a test, the previous-responsible heuristic
  always answers with a pair, possibly one with no user, and that pair stops the per-item chain
  (`ItemChain.AnswerWithoutUserStopsTheChain`). The batch form that the heuristic's tests expect
  leaves such items unclaimed, and `Heuristics.LiftedResult` drops them.

## Model

| member | source | states |
|---|---|---|
| BrokenFileHeuristic.PathSplit | src/main/java/jetbrains/buildServer/iaa/heuristics/BrokenFileHeuristic.java:173-179 | There is no parent exactly when the path has no '/' or '\'. Otherwise the parent is the text before the last separator, and the file name is the separator-free text after it. |
| BrokenFileHeuristic.NameWithoutExtensionIsPrefix | src/main/java/jetbrains/buildServer/iaa/heuristics/BrokenFileHeuristic.java:159 | The name without extension is a prefix of the file name. |
| BrokenFileHeuristic.PatternPartsAreSegments | src/main/java/jetbrains/buildServer/iaa/heuristics/BrokenFileHeuristic.java:157-168 | The pattern parts are up to two ancestor directory names, then the bare file name. There are one, two or three parts, according to how many parents the path has. |
| BrokenFileHeuristic.Patterns | src/main/java/jetbrains/buildServer/iaa/heuristics/BrokenFileHeuristic.java:170 | Every file has exactly three patterns, its parts joined by '.', '/' and '\'. |
| BrokenFileHeuristic.GetPatterns | src/main/java/jetbrains/buildServer/iaa/heuristics/BrokenFileHeuristic.java:157-171 | Building the part list by inserting at the front yields `Patterns(filePath)`. |
| BrokenFileHeuristic.SlashPatternOccursInPath | src/main/java/jetbrains/buildServer/iaa/heuristics/BrokenFileHeuristic.java:157-171 | For a path written with '/' only, the '/'-joined pattern occurs in the path itself. |
| BrokenFileHeuristic.TextQuotingPathMatches | src/main/java/jetbrains/buildServer/iaa/heuristics/BrokenFileHeuristic.java:144-171 | A failure text that quotes a '/'-separated changed path matches that file. |
| BrokenFileHeuristic.DotFileMatchesEveryText | src/main/java/jetbrains/buildServer/iaa/heuristics/BrokenFileHeuristic.java:147-159 | A top-level file whose only '.' is its first character, such as ".gitignore", has empty patterns, so it matches every text. |
| BrokenFileHeuristic.BrokenFileOfIsFirstMatch | src/main/java/jetbrains/buildServer/iaa/heuristics/BrokenFileHeuristic.java:144-154 | The broken file is absent exactly when no file matches. Otherwise it is a matching file, and every earlier file does not match. |
| BrokenFileHeuristic.FindBrokenFile | src/main/java/jetbrains/buildServer/iaa/heuristics/BrokenFileHeuristic.java:144-154 | The nested loops return exactly the first matching file of the change, or nothing. |
| BrokenFileHeuristic.AnyPatternOccurs | src/main/java/jetbrains/buildServer/iaa/heuristics/BrokenFileHeuristic.java:147-151 | The inner loop reports whether the text contains one of the patterns. |
| BrokenFileHeuristic.FindResponsibleUser | src/main/java/jetbrains/buildServer/iaa/heuristics/BrokenFileHeuristic.java:109-141 | The method answers `Verdict(b, text)`. It abstains when the build promotion is not a `BuildPromotionEx`. |
| BrokenFileHeuristic.FindInChanges | src/main/java/jetbrains/buildServer/iaa/heuristics/BrokenFileHeuristic.java:119-141 | The one-pass loop with early returns answers `VerdictOn(changes, text)`. Its invariant is the committer and broken file of the matching changes seen so far. |
| BrokenFileHeuristic.SpoiledPrefixAbstains | src/main/java/jetbrains/buildServer/iaa/heuristics/BrokenFileHeuristic.java:125-132 | Once the matching changes of a prefix do not share one sole committer, the answer is no one, whatever follows. |
| BrokenFileHeuristic.SharedCommitterVerdict | src/main/java/jetbrains/buildServer/iaa/heuristics/BrokenFileHeuristic.java:134-140 | When the matching changes share one sole committer, the answer blames that committer. It names the broken file of the last matching change. |
| BrokenFileHeuristic.DescriptorWithoutChangeIsIgnored | src/main/java/jetbrains/buildServer/iaa/heuristics/BrokenFileHeuristic.java:114-118 | Inserting a change descriptor that has no related VCS change anywhere leaves the answer unchanged. |
| BrokenFileHeuristic.SeveralCommittersAbstain | src/main/java/jetbrains/buildServer/iaa/heuristics/BrokenFileHeuristic.java:125-126 | A matching change with zero or several committers makes the heuristic abstain. |
| BrokenFileHeuristic.DifferentCommittersAbstain | src/main/java/jetbrains/buildServer/iaa/heuristics/BrokenFileHeuristic.java:128-132 | Two matching changes with different sole committers make the heuristic abstain. |
| BrokenFileHeuristic.VerdictBlamesTheSoleCommitter | src/main/java/jetbrains/buildServer/iaa/heuristics/BrokenFileHeuristic.java:109-141 | The heuristic blames u if and only if three things hold: the promotion is a `BuildPromotionEx`, some change matches, and every matching change was committed by u alone. An answer always names a user, and its reason names a file of a change that the text mentions. |
| BrokenFileHeuristic.TestTextMentionsNameAndOutput | src/main/java/jetbrains/buildServer/iaa/heuristics/BrokenFileHeuristic.java:66-70 | The text matched for a test contains the test's name and its full output. |
| BrokenFileHeuristic.ProblemTextMentionsErrorsAndDescription | src/main/java/jetbrains/buildServer/iaa/heuristics/BrokenFileHeuristic.java:79-94 | The text matched for a build problem contains every collected compiler message and the problem's description. |
| BrokenFileHeuristic.CompileErrorQuotingPathMatches | src/main/java/jetbrains/buildServer/iaa/heuristics/BrokenFileHeuristic.java:79-94 | A compiler message that quotes a '/'-separated changed path makes that file match the problem. |
| OneCommitterHeuristic.TheOnly | src/main/java/jetbrains/buildServer/iaa/heuristics/OneCommitterHeuristic.java:76-77 | The user taken from a one-element committer set is its only member. |
| OneCommitterHeuristic.FindResponsibleUser | src/main/java/jetbrains/buildServer/iaa/heuristics/OneCommitterHeuristic.java:62-80 | The heuristic abstains exactly when the number of committers since the last build is not one. Otherwise it blames that committer with the sole-committer reason for this build. |
| DefaultUserHeuristic.ParameterText | src/main/java/jetbrains/buildServer/iaa/heuristics/DefaultUserHeuristic.java:75 | A present parameter value is read unchanged. |
| DefaultUserHeuristic.FindResponsibleUser | src/main/java/jetbrains/buildServer/iaa/heuristics/DefaultUserHeuristic.java:70-89 | The heuristic answers if and only if the feature is configured, the first descriptor's parameter text is non-empty, and the text names an account. It then blames that account with the default-responsible reason. |
| DefaultUserHeuristic.OnlyFirstDescriptorCounts | src/main/java/jetbrains/buildServer/iaa/heuristics/DefaultUserHeuristic.java:74 | Descriptors after the first one never change the answer. |
| DefaultUserHeuristic.MissingParameterNamesNullUser | src/main/java/jetbrains/buildServer/iaa/heuristics/DefaultUserHeuristic.java:75-78 | Without the parameter, the heuristic answers exactly when an account named "null" exists, and it blames that account. |
| PreviousResponsibleHeuristic.FindForTest | src/main/java/jetbrains/buildServer/iaa/heuristics/PreviousResponsibleHeuristic.java:61-72 | The heuristic always answers for a test, with the previous-test reason. The answer names a user exactly when the live history or the audit log has one. The live history comes first. |
| PreviousResponsibleHeuristic.LiveHistoryOverridesAudit | src/main/java/jetbrains/buildServer/iaa/heuristics/PreviousResponsibleHeuristic.java:64-69 | When the live history knows the test, the audit log is not consulted. |
| PreviousResponsibleHeuristic.FindForProblem | src/main/java/jetbrains/buildServer/iaa/heuristics/PreviousResponsibleHeuristic.java:74-87 | The heuristic answers for a problem exactly when the live history has a previous responsible for it, and it names that user. |
| PreviousResponsibleHeuristic.ProblemReasonNamesTypeAndBuild | src/main/java/jetbrains/buildServer/iaa/heuristics/PreviousResponsibleHeuristic.java:77-80 | The problem reason contains the problem type and the build's full name. |
| Heuristics.FindInAudit | src/main/java/jetbrains/buildServer/iaa/heuristics/PreviousResponsibleHeuristicFactory.java:48-49 | The audit entries handed to a heuristic are exactly the log's entries for the applicable tests, with the same users. |
| Heuristics.CreateHeuristic | src/main/java/jetbrains/buildServer/iaa/heuristics/PreviousResponsibleHeuristicFactory.java:42-52 | Every factory builds its heuristic for the build it is given. |
| Heuristics.UniformHeuristicsIgnoreTheFailure | src/main/java/jetbrains/buildServer/iaa/heuristics/OneCommitterHeuristic.java:52-60 | The one-committer and default-user heuristics give the same answer for every test and problem. |
| Heuristics.PreviousResponsibleSeesApplicableAuditOnly | src/main/java/jetbrains/buildServer/iaa/heuristics/PreviousResponsibleHeuristicFactory.java:48-51 | For a test unknown to the live history, the heuristic finds a user exactly when the audit log has one and the test is among this pass's applicable tests. |
| Heuristics.LiftedResult | src/test/java/jetbrains/buildServer/iaa/heuristics/PreviousResponsibleHeuristicTest.java:80-117 | A batch heuristic answers only about items of the context it is handed. |
| Heuristics.LiftedAnswersNamedUsers | src/test/java/jetbrains/buildServer/iaa/heuristics/PreviousResponsibleHeuristicTest.java:99-117 | A batch heuristic claims a test exactly when the test is in its context and the per-item answer names a user. |
| ItemChain.FirstAnswerIsFirst | src/main/java/jetbrains/buildServer/iaa/ResponsibleUserFinder.java:53-68 | The chain's answer is absent exactly when every heuristic abstains. Otherwise it is the answer at the first position that answers, and every earlier heuristic abstained. |
| ItemChain.AnswerWithoutUserStopsTheChain | src/main/java/jetbrains/buildServer/iaa/ResponsibleUserFinder.java:57-61 | An answer that names no user still ends the search, and it is the result. |
| ItemChain.ResponsibleUserFinder.constructor | src/main/java/jetbrains/buildServer/iaa/ResponsibleUserFinder.java:37-45 | One heuristic per factory, in factory order, each created for this build and this pass's items. |
| ItemChain.ResponsibleUserFinder.FindResponsibleForTest | src/main/java/jetbrains/buildServer/iaa/ResponsibleUserFinder.java:47-70 | The result is the first answer of the ordered heuristics for the test. The heuristics consulted are those up to and including the one that answers, or all of them. |
| ItemChain.ResponsibleUserFinder.FindResponsibleForProblem | src/main/java/jetbrains/buildServer/iaa/ResponsibleUserFinder.java:72-96 | The same rule holds for a build problem. |
| BatchChain.Narrow | src/main/java/jetbrains/buildServer/iaa/processing/ResponsibleUserFinder.java:40-53 | The narrowed context keeps the build. |
| BatchChain.NarrowKeepsUnclaimedInOrder | src/main/java/jetbrains/buildServer/iaa/processing/ResponsibleUserFinder.java:40-48 | The context handed to a heuristic holds exactly the unclaimed tests and problems, as subsequences of the original lists. |
| BatchChain.EmptyChainFindsNothing | src/main/java/jetbrains/buildServer/iaa/processing/ResponsibleUserFinder.java:36-60 | With no heuristics, the result is empty. |
| BatchChain.ChainFromAppend | src/main/java/jetbrains/buildServer/iaa/processing/ResponsibleUserFinder.java:39-57 | Running two lists of heuristics one after the other is the same as running their concatenation as one chain. |
| BatchChain.ChainPrefixClaimsAreFinal | src/main/java/jetbrains/buildServer/iaa/processing/ResponsibleUserFinder.java:39-57 | A claim made by the first heuristics of a chain is the one the whole chain ends with, when the later ones answer only in context. |
| BatchChain.StepKeepsClaims | src/main/java/jetbrains/buildServer/iaa/processing/ResponsibleUserFinder.java:50-56 | A merge by a heuristic that answers only in context keeps every existing claim. |
| BatchChain.ChainKeepsEarlierClaims | src/main/java/jetbrains/buildServer/iaa/processing/ResponsibleUserFinder.java:39-57 | A claim made earlier is never changed by later heuristics that answer only in context. |
| BatchChain.FirstHeuristicWins | src/main/java/jetbrains/buildServer/iaa/processing/ResponsibleUserFinder.java:39-57 | Every answer of the first heuristic is final. |
| BatchChain.NothingLeftNothingChanges | src/main/java/jetbrains/buildServer/iaa/processing/ResponsibleUserFinder.java:50 | Once every item is claimed, the later heuristics are not run and the result stays as it is. |
| BatchChain.LiftedHeuristicsAnswerInContext | src/main/java/jetbrains/buildServer/iaa/processing/ResponsibleUserFinder.java:55 | Heuristics lifted from the per-item ones answer only in context, so the chain's no-reclaim property applies to them. |
| BatchChain.ResponsibleUserFinder.constructor | src/main/java/jetbrains/buildServer/iaa/processing/ResponsibleUserFinder.java:32-34 | The finder holds the heuristics in the order given. |
| BatchChain.ResponsibleUserFinder.FindResponsibleUser | src/main/java/jetbrains/buildServer/iaa/processing/ResponsibleUserFinder.java:36-60 | The loop's result is the chain over the ordered heuristics, step by step. |
| Processor.ApplicableTestsAreCappedAndFresh | src/main/java/jetbrains/buildServer/iaa/BuildProblemsProcessor.java:118-129 | A pass's tests are none once the counter reaches the threshold. Otherwise they are the first min(threshold - processed, eligible) eligible tests, in order. Each is a failed test of the build, accepted by the applicability check and never seen before. |
| Processor.ProblemsAreNotCapped | src/main/java/jetbrains/buildServer/iaa/BuildProblemsProcessor.java:102-116 | Below the threshold, every applicable problem of a `BuildEx` whose problems are all `BuildProblemImpl`s is taken, however many there are. |
| Processor.ProcessedCanExceedThreshold | src/main/java/jetbrains/buildServer/iaa/BuildProblemsProcessor.java:71-75 | With a threshold of one and two applicable problems, one pass brings the counter to two. |
| Processor.TestWritesExactlyAnswered | src/main/java/jetbrains/buildServer/iaa/BuildProblemsProcessor.java:80-87 | An investigation is written for a test exactly when the test was examined and the chain answered for it, and it carries that answer. |
| Processor.ProblemWritesExactlyAnswered | src/main/java/jetbrains/buildServer/iaa/BuildProblemsProcessor.java:89-95 | The same holds for build problems. |
| Processor.PassOnlyGrows | src/main/java/jetbrains/buildServer/iaa/BuildProblemsProcessor.java:68-100 | A pass only adds. The counter never decreases, remembered test ids are kept, and earlier investigations stay in place. A pass that returns reports the finished flag read at its start. |
| Processor.PassThrowsExactlyOnCastFailure | src/main/java/jetbrains/buildServer/iaa/BuildProblemsProcessor.java:73-75 | A pass throws if and only if three things hold: the counter is still below the threshold after the tests, the build is a `BuildEx`, and one of its problems is not a `BuildProblemImpl`. |
| Processor.ExaminedTestsAreNotExaminedAgain | src/main/java/jetbrains/buildServer/iaa/BuildProblemsProcessor.java:97 | A test examined by a pass that returns is never examined by a later pass, whatever the build then reports, because its name id is remembered. |
| Processor.BuildProblemsProcessor.constructor | src/main/java/jetbrains/buildServer/iaa/BuildProblemsProcessor.java:49-66 | The threshold is read from the build once. The counter starts at zero, with no test seen and nothing written. |
| Processor.BuildProblemsProcessor.GetApplicableBuildProblems | src/main/java/jetbrains/buildServer/iaa/BuildProblemsProcessor.java:102-116 | The result is empty at or above the threshold or for a build that is not a `BuildEx`. The cast loop fails on a problem that is not a `BuildProblemImpl`. Otherwise the applicable problems are returned in order. |
| Processor.BuildProblemsProcessor.Process | src/main/java/jetbrains/buildServer/iaa/BuildProblemsProcessor.java:68-100 | The outcome and the new counter, remembered ids and writes are exactly those of `Pass` from the old state. The finished flag comes from the build as it was when the pass began. The rest of the pass reads a possibly later view of the build, so a build that finishes during a pass gets one more pass. |
| Processor.BuildProblemsProcessor.WriteTestInvestigations | src/main/java/jetbrains/buildServer/iaa/BuildProblemsProcessor.java:80-87 | The test loop appends exactly the test writes. |
| Processor.BuildProblemsProcessor.WriteProblemInvestigations | src/main/java/jetbrains/buildServer/iaa/BuildProblemsProcessor.java:89-95 | The problem loop appends exactly the problem writes. |
| Dispatcher.BuildProblemsDispatcher.constructor | src/main/java/jetbrains/buildServer/iaa/BuildProblemsDispatcher.java:37-42 | The dispatcher starts with no processors, and sweeps are scheduled. |
| Dispatcher.BuildProblemsDispatcher.Register | src/main/java/jetbrains/buildServer/iaa/BuildProblemsDispatcher.java:52 | `putIfAbsent` leaves an existing processor in place. Otherwise it files a fresh processor under the build's id that is exactly what `getProcessor` makes (`NewProcessorFor`): the build's threshold, the dispatcher's applicability checks and heuristic factories, a zero counter, no seen tests and no investigations written. |
| Dispatcher.BuildProblemsDispatcher.OnTestFailed | src/main/java/jetbrains/buildServer/iaa/BuildProblemsDispatcher.java:50-53 | An ignored build is not registered. Any other build ends up with a processor, and existing processors are kept. A processor filed by this call is fresh and satisfies `NewProcessorFor` for the build. |
| Dispatcher.BuildProblemsDispatcher.OnBuildProblemsChanged | src/main/java/jetbrains/buildServer/iaa/BuildProblemsDispatcher.java:63-68 | The same rule holds, and the build must also be a `BuildEx`. A processor filed by this call is fresh and satisfies `NewProcessorFor` for the build. |
| Dispatcher.ShouldIgnore | src/main/java/jetbrains/buildServer/iaa/BuildProblemsDispatcher.java:86-93 | A build that is not ignored has the feature configured, is not personal, and has a build type, which the processor's constructor assumes (BuildProblemsProcessor.java:55). |
| Dispatcher.BuildProblemsDispatcher.SweepOne | src/main/java/jetbrains/buildServer/iaa/BuildProblemsDispatcher.java:79-82 | The processor under the key runs one pass: its new state is `Pass` from its old state. The result says whether that pass threw. The key is removed exactly when the pass returned and the build had finished when the pass began. |
| Dispatcher.BuildProblemsDispatcher.Sweep | src/main/java/jetbrains/buildServer/iaa/BuildProblemsDispatcher.java:77-84 | Once suppressed, a sweep changes nothing. Otherwise, when no pass throws, every processor runs exactly one pass, and exactly the builds that had finished when their pass began are removed. A sweep becomes suppressed only when some processor's pass threw, and then `Stopped` holds at that processor: it ran its pass, the pass threw, and the processor stays filed. Every other processor either ran a pass that returned, and was removed exactly when its build had finished, or is untouched and still filed. Only processors whose pass returned, on a build that had finished when the pass began, are ever removed. |
| Dispatcher.BuildProblemsDispatcher.SweepAll | src/main/java/jetbrains/buildServer/iaa/BuildProblemsDispatcher.java:78-83 | The loop over the keys runs every pass once, or stops at the key whose pass threw. |
| Dispatcher.BuildProblemsDispatcher.SweepStep | src/main/java/jetbrains/buildServer/iaa/BuildProblemsDispatcher.java:79-82 | One turn of the loop keeps the sweep's invariant, or records where and why the sweep stopped. |
| Responsibilities.EqualsIsAnEquivalence | src/main/java/jetbrains/buildServer/iaa/common/Responsibility.java:43-52 | `equals` is reflexive, symmetric and transitive, and false for objects that are not `Responsibility`s. |
| Responsibilities.EqualsIgnoresUserIdentity | src/main/java/jetbrains/buildServer/iaa/common/Responsibility.java:50-51 | Two users with the same username give equal responsibilities. |
| Responsibilities.ToInt32 | src/main/java/jetbrains/buildServer/iaa/common/Responsibility.java:56-59 | Java `int` arithmetic wraps: the result is a 32-bit signed value congruent to the exact value modulo 2^32. |
| Responsibilities.StringHash | src/main/java/jetbrains/buildServer/iaa/common/Responsibility.java:56-59 | The string hash is a 32-bit signed value. |
| Responsibilities.HashCode | src/main/java/jetbrains/buildServer/iaa/common/Responsibility.java:54-60 | `hashCode` is a 32-bit signed value. |
| Responsibilities.EqualImpliesEqualHashCodes | src/main/java/jetbrains/buildServer/iaa/common/Responsibility.java:43-60 | Equal responsibilities have equal hash codes. |
| Responsibilities.PresentableWithoutPhraseIsUnchanged | src/main/java/jetbrains/buildServer/iaa/common/Responsibility.java:39-41 | A description without "you were" is presented unchanged. |
| Responsibilities.PresentableSoleCommitter | src/main/java/jetbrains/buildServer/iaa/common/Responsibility.java:39-41 | In a sole-committer reason whose prefix does not itself contain "you were", the message's "you were" becomes "<username> was", and the rest is unchanged. |
| Responsibilities.PresentableAfterPrefix | src/main/java/jetbrains/buildServer/iaa/common/Responsibility.java:39-41 | For any text "<prefix> you were<rest>" whose prefix does not contain "you were", the presentable text is "<prefix> <username> was<rest>": the first occurrence is the one replaced, and nothing else changes. |
| Strings.ReplaceFirst | src/main/java/jetbrains/buildServer/iaa/common/Responsibility.java:40 | `replaceFirst` with a literal pattern leaves the text unchanged when the pattern is absent. Otherwise exactly the first occurrence is replaced. |
| Strings.LastIndexInIsLast | src/main/java/jetbrains/buildServer/iaa/heuristics/BrokenFileHeuristic.java:177 | `lastIndexOf` over the separators is absent exactly when there is no separator. Otherwise it is the position of a separator with none after it. |
| Strings.ContainsTransitive | src/main/java/jetbrains/buildServer/iaa/heuristics/BrokenFileHeuristic.java:148 | A pattern inside a substring of the text is inside the text. |
| Seqs.FilterKeepsExactly | src/main/java/jetbrains/buildServer/iaa/BuildProblemsProcessor.java:123-126 | `filter` keeps exactly the elements that pass, and nothing else. |
| Seqs.FirstIndexIsFirst | src/main/java/jetbrains/buildServer/iaa/heuristics/BrokenFileHeuristic.java:145-152 | The first index found is the first position that satisfies the predicate. |

## Left out

- Threads and scheduling are left out. The event listeners, the 2-minute periodic executor, server
  shutdown, and the concurrent map's weakly consistent iteration are not modelled. A sweep visits
  the keys present when it starts, in an order the model leaves open.
- Persistence is left out. The investigation entries, the project they belong to and `Dates.now()`
  are not modelled. The processor records its writes in the ordered `log` instead.
- The server's read API is a value. Each `Build` is the snapshot of a build at one moment.
  Committers, detected changes, failed tests with statistics, and the feature descriptors are
  fields of that snapshot. A pass is handed two snapshots: the build when the pass begins
  (`atStart`, where `isFinished()` is read) and the build as the rest of the pass reads it
  (`during`). The code calls the server afresh for each read, and successive reads within one
  pass could see further changes. The model gives them all the one `during` view.
- The applicability checkers are not part of this model. They appear as the predicates
  `testApplicable` and `problemApplicable`, fixed when the processor is made. They do not see the
  investigations the processor itself writes. In the code, the build-problem check rejects a
  problem that is already under investigation, including one assigned on an earlier pass. The
  model's predicate cannot depend on the processor's own `log`.
- `InvestigationsManager` is not part of this model either. Its previous-responsible lookups
  appear as maps from test name id and from problem id to a user. Its `findInAudit` is the
  restriction of an audit map to the applicable tests.
- Collecting compile errors from the build log is left out. So is parsing the compile-block index
  from a problem's additional data. A build problem carries the collected error texts, which are
  empty when there are none.
- `Constants.REASON_PREFIX` and the feature's parameter key are not part of this model. Reasons
  are structured values that render the code's format strings around a given prefix.
- Log messages, `getName` and `getDescription` are left out.
- The factory wiring (`BuildProblemsProcessorFactory`, the heuristic factories' dependencies) and
  `FailedTestAssigner` are left out.
- BrokenFileHeuristic.PathSplit: `java.io.File#getName` is taken to be the text after the last
  '/' or '\'. The platform-dependent behaviour of `File` is not modelled.
  `FileUtil.getNameWithoutExtension` is not part of this model either. It is taken to cut the name
  at its last '.', or to keep the whole name when there is none. One consequence is
  `BrokenFileHeuristic.DotFileMatchesEveryText`: a name such as ".gitignore" loses everything, and
  its empty pattern matches every text.
- Strings.ReplaceFirst: the pattern and replacement are literal text. This holds for "you were"
  and for usernames without `$` or `\`. Regular-expression semantics in general are not modelled.
- Responsibilities.PresentableSoleCommitter: the lemma assumes a prefix that does not contain
  "you were", because the value of `Constants.REASON_PREFIX` is not part of this model. A prefix
  that contained it would have its own occurrence replaced instead.
- Responsibilities.StringHash: the hash is computed over Dafny characters. Java hashes UTF-16
  code units, and the two agree for characters of the Basic Multilingual Plane.
- Processor.BuildProblemsProcessor.Process: the counter is an unbounded integer. Java's `int`
  overflow after more than 2^31 examined items is not modelled.
- Dispatcher.BuildProblemsDispatcher.Sweep: when a pass throws, the contract says that each other
  processor either ran a pass that returned or is untouched, but not which. The keys are
  visited in an order the map does not promise.
- BatchChain.Step: `HeuristicResult.merge` is not part of this model. It is taken to be a map
  union in which the newer answer wins. Heuristics that answer only in context are handed only
  unclaimed items, so for them no answer is ever overwritten, whatever `merge` does on a
  collision.
- Heuristics.LiftedResult: the batch form of a heuristic is not part of this model. It is taken
  to answer, for each item of its context, the per-item answer when that answer names a user. This
  agrees with the expectations in PreviousResponsibleHeuristicTest.java.
- Instance checks (`isPersonal`, `BuildEx`, `BuildPromotionEx`, `BuildProblemImpl`) and a missing
  build type are boolean fields of the snapshot.
