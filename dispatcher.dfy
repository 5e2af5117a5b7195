/**
 * The dispatcher: build events register one processor per build, and a periodic sweep runs every
 * registered processor once, forgetting those whose build had finished when its pass began.
 */
module Dispatcher {
  import opened Common
  import opened Heuristics
  import opened Processor

  /**
   * `shouldIgnore`: the plugin's build feature is not configured, the build is personal, or it
   * has no build type.  So every build that gets a processor has the feature and a build type, as
   * the processor's constructor assumes.
   */
  predicate ShouldIgnore(b: Build): (ignored: bool)
    ensures !ignored ==> |b.features| > 0 && !b.isPersonal && b.hasBuildType
  {
    |b.features| == 0 || b.isPersonal || !b.hasBuildType
  }

  class BuildProblemsDispatcher {
    /** What the processor factory hands every new processor. */
    const testApplicable: TestRun -> bool
    const problemApplicable: BuildProblem -> bool
    const factories: seq<HeuristicFactory>
    /** The processors by build id. */
    var processors: map<int, BuildProblemsProcessor>
    /** Set once a sweep lets an exception escape: the scheduled executor then suppresses every later sweep. */
    var sweepsSuppressed: bool

    /** Every processor is filed under the id of its own build. */
    predicate Valid()
      reads this
    {
      forall k | k in processors :: processors[k].buildId == k
    }

    constructor (testApplicable: TestRun -> bool, problemApplicable: BuildProblem -> bool, factories: seq<HeuristicFactory>)
      ensures this.testApplicable == testApplicable && this.problemApplicable == problemApplicable
      ensures this.factories == factories
      ensures processors == map[] && !sweepsSuppressed
      ensures Valid()
    {
      this.testApplicable := testApplicable;
      this.problemApplicable := problemApplicable;
      this.factories := factories;
      processors := map[];
      sweepsSuppressed := false;
    }

    /**
     * `p` is what `getProcessor(b)` makes: a processor of build `b` with the build's threshold,
     * this dispatcher's applicability checks and factories, no item examined yet and nothing written.
     */
    ghost predicate NewProcessorFor(p: BuildProblemsProcessor, b: Build)
      reads this, p
    {
      && p.buildId == b.id
      && p.threshold == b.maxTestsThreshold
      && p.testApplicable == testApplicable
      && p.problemApplicable == problemApplicable
      && p.factories == factories
      && p.processed == 0 && p.seenTests == {} && p.log == []
    }

    /** `putIfAbsent(build id, getProcessor(build))`: a processor is made for the build unless one is already filed. */
    method Register(b: Build)
      requires Valid()
      modifies this`processors
      ensures Valid()
      ensures b.id in old(processors) ==> processors == old(processors)
      ensures b.id !in old(processors) ==>
        && processors.Keys == old(processors).Keys + {b.id}
        && (forall k | k in old(processors) :: processors[k] == old(processors)[k])
        && fresh(processors[b.id])
        && NewProcessorFor(processors[b.id], b)
    {
      var processor := new BuildProblemsProcessor(b, testApplicable, problemApplicable, factories);
      if b.id !in processors {
        processors := processors[b.id := processor];
      }
    }

    /** `testFailed`: a build that is not ignored gets a processor. */
    method OnTestFailed(b: Build)
      requires Valid()
      modifies this`processors
      ensures Valid()
      ensures ShouldIgnore(b) || b.id in old(processors) ==> processors == old(processors)
      ensures !ShouldIgnore(b) ==> processors.Keys == old(processors).Keys + {b.id}
      ensures forall k | k in old(processors) :: k in processors && processors[k] == old(processors)[k]
      ensures !ShouldIgnore(b) && b.id !in old(processors) ==>
        fresh(processors[b.id]) && NewProcessorFor(processors[b.id], b)
    {
      if ShouldIgnore(b) {
        return;
      }
      Register(b);
    }

    /** `buildProblemsChanged`: a build that is not ignored and is a `BuildEx` gets a processor. */
    method OnBuildProblemsChanged(b: Build)
      requires Valid()
      modifies this`processors
      ensures Valid()
      ensures ShouldIgnore(b) || !b.isBuildEx || b.id in old(processors) ==> processors == old(processors)
      ensures !ShouldIgnore(b) && b.isBuildEx ==> processors.Keys == old(processors).Keys + {b.id}
      ensures forall k | k in old(processors) :: k in processors && processors[k] == old(processors)[k]
      ensures !ShouldIgnore(b) && b.isBuildEx && b.id !in old(processors) ==>
        fresh(processors[b.id]) && NewProcessorFor(processors[b.id], b)
    {
      if ShouldIgnore(b) || !b.isBuildEx {
        return;
      }
      Register(b);
    }

    /**
     * One turn of the sweep: the processor filed under the key runs one pass, handed the build as
     * it is when the pass begins (`atStart`) and as the pass goes on to read it (`during`).  It is
     * removed when that pass returns true; a pass that throws leaves the map as it is.
     */
    method SweepOne(atStart: int -> Build, during: int -> Build, processorKey: int) returns (threw: bool)
      requires Valid() && processorKey in processors
      modifies this`processors, processors[processorKey]
      ensures Valid()
      ensures var p := old(processors)[processorKey];
        var r := Pass(p.Config(), old(p.State()), atStart(processorKey), during(processorKey));
        p.State() == r.1 && (threw <==> r.0.Threw?)
      ensures processors == if !threw && atStart(processorKey).isFinished then old(processors) - {processorKey} else old(processors)
    {
      var outcome := processors[processorKey].Process(atStart(processorKey), during(processorKey));
      if outcome.Threw? {
        return true;
      }
      PassOnlyGrows(processors[processorKey].Config(), old(processors[processorKey].State()),
                    atStart(processorKey), during(processorKey));
      if outcome.shouldDelete {
        processors := processors - {processorKey};
      }
      return false;
    }

    /**
     * `processBrokenBuildsOneThread`, with `atStart` and `during` giving each build as its pass
     * sees it.  Keys are visited in an order the map does not promise.  Without an exception,
     * every processor runs exactly one pass and exactly those whose build had finished when their
     * pass began are removed.  A pass that throws ends the sweep (`Stopped`): its processor stays
     * filed, the processors not yet visited are untouched, and the executor suppresses every later
     * sweep.
     */
    method Sweep(atStart: int -> Build, during: int -> Build)
      requires Valid()
      modifies this`processors, this`sweepsSuppressed, processors.Values
      ensures Valid()
      ensures old(sweepsSuppressed) ==> sweepsSuppressed && processors == old(processors)
      ensures old(sweepsSuppressed) ==> forall k | k in old(processors) :: old(processors)[k].State() == old(processors[k].State())
      ensures processors.Keys <= old(processors).Keys
      ensures forall k | k in processors :: processors[k] == old(processors)[k]
      ensures !old(sweepsSuppressed) ==> forall k | k in old(processors) ::
        RanPass(old(processors)[k], old(processors[k].State()), atStart(k), during(k))
        || old(processors)[k].State() == old(processors[k].State())
      ensures forall k | k in old(processors) && k !in processors ::
        && atStart(k).isFinished
        && RanPass(old(processors)[k], old(processors[k].State()), atStart(k), during(k))
        && !PassThrew(old(processors)[k], old(processors[k].State()), atStart(k), during(k))
      ensures !sweepsSuppressed ==> forall k | k in old(processors) ::
        && RanPass(old(processors)[k], old(processors[k].State()), atStart(k), during(k))
        && !PassThrew(old(processors)[k], old(processors[k].State()), atStart(k), during(k))
        && (k in processors <==> !atStart(k).isFinished)
      ensures sweepsSuppressed && !old(sweepsSuppressed) ==> exists k | k in old(processors) ::
        && k in processors
        && RanPass(old(processors)[k], old(processors[k].State()), atStart(k), during(k))
        && PassThrew(old(processors)[k], old(processors[k].State()), atStart(k), during(k))
      ensures sweepsSuppressed && !old(sweepsSuppressed) ==> exists k :: Stopped(old(processors), old(States()), k, atStart, during)
    {
      if sweepsSuppressed {
        return;
      }
      ghost var procs0, before := processors, States();
      assert procs0 == old(processors) && before == old(States());
      ghost var stopKey;
      var threw;
      threw, stopKey := SweepAll(atStart, during, procs0, before);
      sweepsSuppressed := threw;
      if threw {
        assert Stopped(procs0, before, stopKey, atStart, during);
      }
    }

    /** The state of every filed processor, by key. */
    ghost function States(): (states: map<int, PassState>)
      reads this, processors.Values
      ensures states.Keys == processors.Keys
      ensures forall k | k in processors :: states[k] == processors[k].State()
    {
      map k | k in processors :: processors[k].State()
    }

    /**
     * The loop of the sweep over the processors `procs0`, whose states were `before`: it visits
     * every key once, unless a pass throws, which ends it at `stopKey`.
     */
    method SweepAll(atStart: int -> Build, during: int -> Build,
                    ghost procs0: map<int, BuildProblemsProcessor>, ghost before: map<int, PassState>)
      returns (threw: bool, ghost stopKey: int)
      requires Valid() && procs0 == processors
      requires before.Keys == procs0.Keys && forall k | k in procs0 :: before[k] == procs0[k].State()
      modifies this`processors, procs0.Values
      ensures Valid()
      ensures !threw ==> Swept(procs0, before, {}, atStart, during)
      ensures threw ==> Stopped(procs0, before, stopKey, atStart, during)
    {
      var remaining := processors.Keys;
      stopKey := 0;
      while remaining != {}
        invariant Valid()
        invariant forall k | k in procs0 :: procs0[k].buildId == k
        invariant Swept(procs0, before, remaining, atStart, during)
        decreases remaining
      {
        assert (forall k :: k !in remaining) ==> remaining == {};
        var processorKey :| processorKey in remaining;
        threw := SweepStep(atStart, during, processorKey, procs0, before, remaining);
        if threw {
          stopKey := processorKey;
          return;
        }
        remaining := remaining - {processorKey};
      }
      threw := false;
    }

    /**
     * A sweep stopped by the pass of `stopKey`, which threw: every other processor either ran its
     * pass without an exception (and was removed exactly when its build had finished) or is
     * untouched and still filed.
     */
    ghost predicate Stopped(procs0: map<int, BuildProblemsProcessor>, before: map<int, PassState>, stopKey: int,
                            atStart: int -> Build, during: int -> Build)
      reads this, procs0.Values
    {
      && before.Keys == procs0.Keys
      && stopKey in procs0 && stopKey in processors
      && RanPass(procs0[stopKey], before[stopKey], atStart(stopKey), during(stopKey))
      && PassThrew(procs0[stopKey], before[stopKey], atStart(stopKey), during(stopKey))
      && processors.Keys <= procs0.Keys
      && (forall k | k in processors :: processors[k] == procs0[k])
      && (forall k | k in procs0 && k != stopKey ::
            || (&& RanPass(procs0[k], before[k], atStart(k), during(k))
                && !PassThrew(procs0[k], before[k], atStart(k), during(k))
                && (k in processors <==> !atStart(k).isFinished))
            || (procs0[k].State() == before[k] && k in processors))
    }

    /**
     * The sweep so far, from the processors `procs0` with states `before`: the keys outside
     * `remaining` have run their pass without an exception and were removed exactly when their
     * build had finished; the keys in `remaining` are still filed and untouched.
     */
    ghost predicate Swept(procs0: map<int, BuildProblemsProcessor>, before: map<int, PassState>, remaining: set<int>,
                          atStart: int -> Build, during: int -> Build)
      reads this, procs0.Values
    {
      && before.Keys == procs0.Keys
      && remaining <= processors.Keys <= procs0.Keys
      && (forall k | k in processors :: processors[k] == procs0[k])
      && (forall k | k in remaining :: procs0[k].State() == before[k])
      && (forall k | k in procs0 && k !in remaining ::
            && RanPass(procs0[k], before[k], atStart(k), during(k))
            && !PassThrew(procs0[k], before[k], atStart(k), during(k))
            && (k in processors <==> !atStart(k).isFinished))
    }

    /** One turn of the sweep's loop, keeping `Swept` when the pass returns. */
    method SweepStep(atStart: int -> Build, during: int -> Build, processorKey: int,
                     ghost procs0: map<int, BuildProblemsProcessor>, ghost before: map<int, PassState>, ghost remaining: set<int>)
      returns (threw: bool)
      requires Valid() && processorKey in remaining
      requires forall k | k in procs0 :: procs0[k].buildId == k
      requires Swept(procs0, before, remaining, atStart, during)
      modifies this`processors, procs0[processorKey]
      ensures Valid()
      ensures !threw ==> Swept(procs0, before, remaining - {processorKey}, atStart, during)
      ensures threw ==> Stopped(procs0, before, processorKey, atStart, during)
    {
      threw := SweepOne(atStart, during, processorKey);
      assert forall k | k in procs0 && k != processorKey :: procs0[k] != procs0[processorKey];
    }
  }

  /** The processor's state is the one its pass computes from `before`. */
  predicate RanPass(p: BuildProblemsProcessor, before: PassState, atStart: Build, during: Build)
    reads p
  {
    p.State() == Pass(p.Config(), before, atStart, during).1
  }

  /** The pass of the processor from `before` lets the cast exception escape. */
  predicate PassThrew(p: BuildProblemsProcessor, before: PassState, atStart: Build, during: Build)
  {
    Pass(p.Config(), before, atStart, during).0.Threw?
  }
}
