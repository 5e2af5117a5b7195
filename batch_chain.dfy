/**
 * The batch chain: each heuristic in order is handed only the context's items that no earlier
 * heuristic has claimed, and what it returns is merged into one accumulated result.
 */
module BatchChain {
  import opened Common
  import opened Seqs
  import opened Responsibilities
  import opened Heuristics

  /** The context cut down to the items that `acc` has no responsibility for, in their original order. */
  function Narrow(ctx: HeuristicContext, acc: HeuristicResult): (sub: HeuristicContext)
    ensures sub.build == ctx.build
  {
    HeuristicContext(ctx.build,
                     Filter(ctx.problems, p => ProblemFailure(p) !in acc),
                     Filter(ctx.tests, t => TestFailure(t) !in acc))
  }

  /** A narrowed context holds exactly the unclaimed items, as subsequences of the original lists. */
  lemma NarrowKeepsUnclaimedInOrder(ctx: HeuristicContext, acc: HeuristicResult)
    ensures IsSubsequence(Narrow(ctx, acc).tests, ctx.tests)
    ensures IsSubsequence(Narrow(ctx, acc).problems, ctx.problems)
    ensures forall t :: t in Narrow(ctx, acc).tests <==> t in ctx.tests && TestFailure(t) !in acc
    ensures forall p :: p in Narrow(ctx, acc).problems <==> p in ctx.problems && ProblemFailure(p) !in acc
  {
    FilterIsSubsequence(ctx.tests, t => TestFailure(t) !in acc);
    FilterIsSubsequence(ctx.problems, p => ProblemFailure(p) !in acc);
    FilterKeepsExactly(ctx.tests, t => TestFailure(t) !in acc);
    FilterKeepsExactly(ctx.problems, p => ProblemFailure(p) !in acc);
    var sub := Narrow(ctx, acc);
    forall t | t in sub.tests
      ensures t in ctx.tests && TestFailure(t) !in acc
    {
      var k :| 0 <= k < |sub.tests| && sub.tests[k] == t;
    }
    forall t | t in ctx.tests && TestFailure(t) !in acc
      ensures t in sub.tests
    {
      var k :| 0 <= k < |ctx.tests| && ctx.tests[k] == t;
    }
    forall p | p in sub.problems
      ensures p in ctx.problems && ProblemFailure(p) !in acc
    {
      var k :| 0 <= k < |sub.problems| && sub.problems[k] == p;
    }
    forall p | p in ctx.problems && ProblemFailure(p) !in acc
      ensures p in sub.problems
    {
      var k :| 0 <= k < |ctx.problems| && ctx.problems[k] == p;
    }
  }

  /** Something is left to decide in a context. */
  predicate HasItems(ctx: HeuristicContext)
  {
    |ctx.tests| > 0 || |ctx.problems| > 0
  }

  /** One step of the chain: the heuristic runs on the unclaimed items, if any, and its result is merged in. */
  function Step(h: HeuristicContext -> HeuristicResult, ctx: HeuristicContext, acc: HeuristicResult): HeuristicResult
  {
    var sub := Narrow(ctx, acc);
    if HasItems(sub) then acc + h(sub) else acc
  }

  /** The chain's result after the heuristics `hs`, starting from `acc`. */
  function ChainFrom(hs: seq<HeuristicContext -> HeuristicResult>, ctx: HeuristicContext, acc: HeuristicResult): HeuristicResult
    decreases |hs|
  {
    if |hs| == 0 then acc else ChainFrom(hs[1..], ctx, Step(hs[0], ctx, acc))
  }

  function Chain(hs: seq<HeuristicContext -> HeuristicResult>, ctx: HeuristicContext): HeuristicResult
  {
    ChainFrom(hs, ctx, map[])
  }

  /** Running one more heuristic is one more step. */
  lemma {:induction false} ChainFromSnoc(hs: seq<HeuristicContext -> HeuristicResult>, h: HeuristicContext -> HeuristicResult,
                                         ctx: HeuristicContext, acc: HeuristicResult)
    ensures ChainFrom(hs + [h], ctx, acc) == Step(h, ctx, ChainFrom(hs, ctx, acc))
    decreases |hs|
  {
    if |hs| > 0 {
      assert (hs + [h])[1..] == hs[1..] + [h];
      ChainFromSnoc(hs[1..], h, ctx, Step(hs[0], ctx, acc));
    } else {
      assert hs + [h] == [h];
    }
  }

  /** Running two runs of heuristics one after the other is running them as one chain. */
  lemma {:induction false} ChainFromAppend(hs1: seq<HeuristicContext -> HeuristicResult>, hs2: seq<HeuristicContext -> HeuristicResult>,
                                           ctx: HeuristicContext, acc: HeuristicResult)
    ensures ChainFrom(hs1 + hs2, ctx, acc) == ChainFrom(hs2, ctx, ChainFrom(hs1, ctx, acc))
    decreases |hs1|
  {
    if |hs1| > 0 {
      assert (hs1 + hs2)[1..] == hs1[1..] + hs2;
      ChainFromAppend(hs1[1..], hs2, ctx, Step(hs1[0], ctx, acc));
    } else {
      assert hs1 + hs2 == hs2;
    }
  }

  /**
   * A claim made by the first heuristics of the chain is the one the chain ends with, when the
   * later ones answer only in context.
   */
  lemma ChainPrefixClaimsAreFinal(hs1: seq<HeuristicContext -> HeuristicResult>, hs2: seq<HeuristicContext -> HeuristicResult>,
                                  ctx: HeuristicContext, x: Failure)
    requires AnswersInContext(hs2)
    requires x in Chain(hs1, ctx)
    ensures x in Chain(hs1 + hs2, ctx) && Chain(hs1 + hs2, ctx)[x] == Chain(hs1, ctx)[x]
  {
    ChainFromAppend(hs1, hs2, ctx, map[]);
    ChainKeepsEarlierClaims(hs2, ctx, Chain(hs1, ctx));
  }

  /** With no heuristics the result is empty. */
  lemma EmptyChainFindsNothing(ctx: HeuristicContext)
    ensures Chain([], ctx) == map[]
  {
  }

  /** Every heuristic answers only about the items of the context it is handed. */
  ghost predicate AnswersInContext(hs: seq<HeuristicContext -> HeuristicResult>)
  {
    forall i, c :: 0 <= i < |hs| ==> forall x | x in hs[i](c) :: InContext(x, c)
  }

  /** A step by a heuristic that answers in context keeps every claim already made. */
  lemma StepKeepsClaims(h: HeuristicContext -> HeuristicResult, ctx: HeuristicContext, acc: HeuristicResult)
    requires forall c, x | x in h(c) :: InContext(x, c)
    ensures forall x | x in acc :: x in Step(h, ctx, acc) && Step(h, ctx, acc)[x] == acc[x]
  {
    var sub := Narrow(ctx, acc);
    NarrowKeepsUnclaimedInOrder(ctx, acc);
    assert forall x | x in h(sub) :: InContext(x, sub);
  }

  /**
   * If every heuristic answers only in context, a responsibility an earlier heuristic found for
   * an item is the one the chain ends with.
   */
  lemma {:induction false} ChainKeepsEarlierClaims(hs: seq<HeuristicContext -> HeuristicResult>, ctx: HeuristicContext, acc: HeuristicResult)
    requires AnswersInContext(hs)
    ensures forall x | x in acc :: x in ChainFrom(hs, ctx, acc) && ChainFrom(hs, ctx, acc)[x] == acc[x]
    decreases |hs|
  {
    if |hs| > 0 {
      StepKeepsClaims(hs[0], ctx, acc);
      assert AnswersInContext(hs[1..]) by {
        forall i, c | 0 <= i < |hs[1..]|
          ensures forall x | x in hs[1..][i](c) :: InContext(x, c)
        {
          assert hs[1..][i] == hs[i + 1];
        }
      }
      ChainKeepsEarlierClaims(hs[1..], ctx, Step(hs[0], ctx, acc));
    }
  }

  /** The first heuristic's answers are final when every heuristic answers in context. */
  lemma FirstHeuristicWins(hs: seq<HeuristicContext -> HeuristicResult>, ctx: HeuristicContext, x: Failure)
    requires |hs| > 0 && AnswersInContext(hs) && HasItems(ctx)
    requires x in hs[0](ctx)
    ensures x in Chain(hs, ctx) && Chain(hs, ctx)[x] == hs[0](ctx)[x]
  {
    var none: HeuristicResult := map[];
    var sub := Narrow(ctx, none);
    FilterKeepsAll(ctx.tests, t => TestFailure(t) !in none);
    FilterKeepsAll(ctx.problems, p => ProblemFailure(p) !in none);
    assert sub == ctx;
    assert AnswersInContext(hs[1..]) by {
      forall i, c | 0 <= i < |hs[1..]|
        ensures forall y | y in hs[1..][i](c) :: InContext(y, c)
      {
        assert hs[1..][i] == hs[i + 1];
      }
    }
    ChainKeepsEarlierClaims(hs[1..], ctx, none + hs[0](ctx));
  }

  /** Once every item is claimed, the remaining heuristics are not run and the result stays as it is. */
  lemma {:induction false} NothingLeftNothingChanges(hs: seq<HeuristicContext -> HeuristicResult>, ctx: HeuristicContext, acc: HeuristicResult)
    requires forall t | t in ctx.tests :: TestFailure(t) in acc
    requires forall p | p in ctx.problems :: ProblemFailure(p) in acc
    ensures ChainFrom(hs, ctx, acc) == acc
    decreases |hs|
  {
    if |hs| > 0 {
      NarrowKeepsUnclaimedInOrder(ctx, acc);
      var sub := Narrow(ctx, acc);
      assert forall k :: 0 <= k < |sub.tests| ==> sub.tests[k] in sub.tests;
      assert forall k :: 0 <= k < |sub.problems| ==> sub.problems[k] in sub.problems;
      NothingLeftNothingChanges(hs[1..], ctx, acc);
    }
  }

  /** Heuristics lifted from the per-item ones answer only in context, so their claims are final. */
  lemma LiftedHeuristicsAnswerInContext(fs: seq<HeuristicFactory>, prefix: string)
    ensures AnswersInContext(seq(|fs|, i requires 0 <= i < |fs| => Lift(fs[i], prefix)))
  {
    var hs := seq(|fs|, i requires 0 <= i < |fs| => Lift(fs[i], prefix));
    forall i, c | 0 <= i < |hs|
      ensures forall x | x in hs[i](c) :: InContext(x, c)
    {
      assert hs[i](c) == LiftedResult(fs[i], prefix, c);
    }
  }

  /** `processing.ResponsibleUserFinder`: holds the ordered heuristics and runs the chain over a context. */
  class ResponsibleUserFinder {
    const orderedHeuristics: seq<HeuristicContext -> HeuristicResult>

    constructor (hs: seq<HeuristicContext -> HeuristicResult>)
      ensures orderedHeuristics == hs
    {
      orderedHeuristics := hs;
    }

    /** `findResponsibleUser(heuristicContext)`: the loop merges each heuristic's answer into one result. */
    method FindResponsibleUser(ctx: HeuristicContext) returns (heuristicResult: HeuristicResult)
      ensures heuristicResult == Chain(orderedHeuristics, ctx)
    {
      heuristicResult := map[];
      var i := 0;
      while i < |orderedHeuristics|
        invariant 0 <= i <= |orderedHeuristics|
        invariant heuristicResult == Chain(orderedHeuristics[..i], ctx)
      {
        var heuristic := orderedHeuristics[i];
        var actualTestRuns := Filter(ctx.tests, t => TestFailure(t) !in heuristicResult);
        var actualBuildProblems := Filter(ctx.problems, p => ProblemFailure(p) !in heuristicResult);
        ChainFromSnoc(orderedHeuristics[..i], heuristic, ctx, map[]);
        assert orderedHeuristics[..i + 1] == orderedHeuristics[..i] + [heuristic];
        if |actualTestRuns| > 0 || |actualBuildProblems| > 0 {
          var buildContext := HeuristicContext(ctx.build, actualBuildProblems, actualTestRuns);
          heuristicResult := heuristicResult + heuristic(buildContext);
        }
        i := i + 1;
      }
      assert orderedHeuristics[..i] == orderedHeuristics;
    }
  }
}
