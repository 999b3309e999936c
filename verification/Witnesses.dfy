/**
  Requests that run to OK and go beyond what the documentation says or a reader may expect: more than
  128 operations, joins deeper than three, and two plans with one trace root.
 */
module Witnesses {
  import opened Wrappers
  import opened Proto
  import opened Text
  import opened Handles
  import opened Semantics
  import opened Runs
  import opened StaticDynamic
  import opened PlannerGuard
  import opened Budgets
  import opened Commitment

  // When a plan without outputs runs to OK under the default options.

  lemma NoTemplatesRender(p: Primitives, outputs: seq<string>, m: Machine)
    ensures RenderOutput(p, DEFAULT_OPTIONS, outputs, m).Ok?
  {
    assert NarrativePrefix(p, [], 0, m.assertions) == Ok([]);
  }

  /** The plan passes the planner guard and keeps every budget. */
  ghost predicate Acceptable(p: Primitives, m: PublicManifest, steps: seq<Step>) {
    var env := MakeEnv(m, DEFAULT_OPTIONS);
    && |steps| <= env.budget.maxOps
    && TotalCost(env, p.power, steps, |steps|) <= env.budget.maxTotalCost
    && forall i :: 0 <= i < |steps| ==> GuardAdmits(HandleNames(m), SelectorNames(m), steps, i) && Budgeted(env, steps, i)
  }

  lemma AcceptableRuns(p: Primitives, m: PublicManifest, steps: seq<Step>)
    requires Acceptable(p, m, steps) && RunPrefix(MakeEnv(m, DEFAULT_OPTIONS), steps, |steps|).Ok?
    ensures ExecutePlan(p, m, RmvmPlan(m.requestId, steps, []), DEFAULT_OPTIONS).Ok?
  {
    hide MakeEnv, ValidateStatic, RunPrefix, BuildProof, RenderOutput, Budgeted, GuardAdmits, TotalCost;
    var plan := RmvmPlan(m.requestId, steps, []);
    StaticCheckExactly(m, DEFAULT_OPTIONS, p.power, plan);
    NoTemplatesRender(p, [], RunPrefix(MakeEnv(m, DEFAULT_OPTIONS), steps, |steps|).value);
  }

  lemma {:induction false} UnitCosts(env: Env, power: nat -> real, steps: seq<Step>, n: nat)
    requires n <= |steps| && forall i :: 0 <= i < n ==> steps[i].op.Some? && StepCost(env, power, steps[i].op.value) == 1.0
    ensures TotalCost(env, power, steps, n) == n as real
  {
    hide StepCost;
    if n > 0 {
      UnitCosts(env, power, steps, n - 1);
    }
  }

  // Two plans, one trace.

  /** Fetches of one ready handle run to OK, whatever usable, distinct names they write. */
  lemma FetchesRun(p: Primitives, m: PublicManifest, ref: string, steps: seq<Step>)
    requires ref in HandlesIndex(m.handles) && AvailabilityFromI32(HandlesIndex(m.handles)[ref].availability) == Ready
    requires DistinctOuts(steps) && forall i :: 0 <= i < |steps| ==> steps[i].op == Some(Fetch(ref)) && !Blank(steps[i].out)
    requires |steps| <= NormalizeBudget(m.budget).maxOps && |steps| as real <= NormalizeBudget(m.budget).maxTotalCost
    ensures ExecutePlan(p, m, RmvmPlan(m.requestId, steps, []), DEFAULT_OPTIONS).Ok?
  {
    hide Blank, ExecutePlan, RunPrefix, HandlesIndex, SelectorsIndex, NormalizeBudget;
    var env := MakeEnv(m, DEFAULT_OPTIONS);
    HandlesIndexSound(m.handles);
    assert ref in HandleNames(m);
    UnitCosts(env, p.power, steps, |steps|);
    forall i | 0 <= i < |steps| ensures GuardAdmits(HandleNames(m), SelectorNames(m), steps, i) && Budgeted(env, steps, i) {
      OutFresh(steps, i);
    }
    FetchPrefix(env, ref, steps, |steps|);
    AcceptableRuns(p, m, steps);
  }

  lemma {:induction false} FetchPrefix(env: Env, ref: string, steps: seq<Step>, n: nat)
    requires ref in env.handlesByRef && AvailabilityFromI32(env.handlesByRef[ref].availability) == Ready
    requires n <= |steps| && forall i :: 0 <= i < |steps| ==> steps[i].op == Some(Fetch(ref))
    ensures RunPrefix(env, steps, n).Ok?
  {
    hide RunPrefix, TraceToken;
    if n == 0 {
      NothingRan(env, steps);
    } else {
      FetchPrefix(env, ref, steps, n - 1);
      RunOneMore(env, steps, n);
    }
  }

  lemma ForgedNamesUsable()
    ensures !Blank("x:FETCH\n1:y") && !Blank("x") && !Blank("y") && "x" != "y"
  {
    BlankIffWhitespace("x:FETCH\n1:y");
    BlankIffWhitespace("x");
    BlankIffWhitespace("y");
    assert "x:FETCH\n1:y"[0] == 'x' && "x"[0] == 'x' && "y"[0] == 'y';
  }

  /** One step that spans two lines of the trace, and the two steps it passes for: both run to OK, with one trace root. */
  lemma LineBreakForgesTrace(p: Primitives, h: HandleRef)
    requires AvailabilityFromI32(h.availability) == Ready
    ensures var m := PublicManifest("", [h], [], None);
            var one := RmvmPlan("", [Step("x:FETCH\n1:y", Some(Fetch(h.ref)))], []);
            var two := RmvmPlan("", [Step("x", Some(Fetch(h.ref))), Step("y", Some(Fetch(h.ref)))], []);
            var r, r' := ExecutePlan(p, m, one, DEFAULT_OPTIONS), ExecutePlan(p, m, two, DEFAULT_OPTIONS);
            && r.Ok? && r'.Ok? && r.value.proof.traceRoot == r'.value.proof.traceRoot
            && !SameShape(one.steps, two.steps)
  {
    hide ExecutePlan, TraceText, Blank, HandlesIndex;
    var m := PublicManifest("", [h], [], None);
    var op := Fetch(h.ref);
    var one, two := [Step("x:FETCH\n1:y", Some(op))], [Step("x", Some(op)), Step("y", Some(op))];
    LoneHandle(h);
    ForgedNamesUsable();
    FetchesRun(p, m, h.ref, one);
    FetchesRun(p, m, h.ref, two);
    TwoStepTwin("x", op, "y", op);
    assert SpanningName("x", op, "y") == "x:FETCH\n1:y";
    TraceRootIs(p, m, RmvmPlan("", one, []), DEFAULT_OPTIONS);
    TraceRootIs(p, m, RmvmPlan("", two, []), DEFAULT_OPTIONS);
  }

  lemma LoneHandle(h: HandleRef)
    ensures HandlesIndex([h]) == map[h.ref := h]
  {
    assert [h][..0] == [];
    assert HandlesIndex([]) == map[];
  }

  // Many operations.

  /** Any number of ASSERTs that bind nothing runs to OK within the budget, one assertion each. */
  lemma EmptyAssertsRun(p: Primitives, m: PublicManifest, n: nat)
    requires n <= NormalizeBudget(m.budget).maxOps && n as real <= NormalizeBudget(m.budget).maxTotalCost
    ensures var r := ExecutePlan(p, m, RmvmPlan(m.requestId, Repeated(EMPTY_ASSERT, n), []), DEFAULT_OPTIONS);
            r.Ok? && |r.value.assertions| == n
  {
    hide ExecutePlan, RunPrefix, HandlesIndex, SelectorsIndex, NormalizeBudget, Reg, Blank;
    var env, steps := MakeEnv(m, DEFAULT_OPTIONS), Repeated(EMPTY_ASSERT, n);
    forall i | 0 <= i < n ensures steps[i] == Step(Reg(i), Some(EMPTY_ASSERT)) && StepCost(env, p.power, EMPTY_ASSERT) == 1.0 {
    }
    UnitCosts(env, p.power, steps, n);
    RegOuts(steps, n);
    forall i | 0 <= i < n ensures GuardAdmits(HandleNames(m), SelectorNames(m), steps, i) && Budgeted(env, steps, i) {
      OutFresh(steps, i);
      RegsDiffer(i, i + 1);
    }
    EmptyAssertPrefix(env, n, n);
    AcceptableRuns(p, m, steps);
    OkRun(p, m, RmvmPlan(m.requestId, steps, []), DEFAULT_OPTIONS);
  }

  lemma RegOuts(steps: seq<Step>, n: nat)
    requires |steps| == n && forall i :: 0 <= i < n ==> steps[i].out == Reg(i)
    ensures DistinctOuts(steps)
  {
    hide Reg;
    forall i, j | 0 <= i < j < |steps| ensures steps[i].out != steps[j].out {
      RegsDiffer(i, j);
    }
  }

  lemma EmptyAssertIssues(env: Env, regs: Registers)
    requires env.opts == DEFAULT_OPTIONS
    ensures ExecOp(env, regs, EMPTY_ASSERT).Ok? && ExecOp(env, regs, EMPTY_ASSERT).value.assertion.Some?
  {
    var b: map<string, ValueRef> := map[];
    assert SortedKeys(b.Keys) == [];
    assert Gather(regs, b) == Ok(NOTHING_GATHERED);
    assert CanonicalizeCitations(env.opts, [], {}).Ok?;
  }

  lemma {:induction false} EmptyAssertPrefix(env: Env, total: nat, n: nat)
    requires env.opts == DEFAULT_OPTIONS && n <= total
    ensures RunPrefix(env, Repeated(EMPTY_ASSERT, total), n).Ok?
    ensures |RunPrefix(env, Repeated(EMPTY_ASSERT, total), n).value.assertions| == n
  {
    hide RunPrefix, TraceToken, ExecOp, Reg;
    var steps := Repeated(EMPTY_ASSERT, total);
    if n == 0 {
      NothingRan(env, steps);
    } else {
      EmptyAssertPrefix(env, total, n - 1);
      RunOneMore(env, steps, n);
      assert steps[n - 1] == Step(Reg(n - 1), Some(EMPTY_ASSERT));
      EmptyAssertIssues(env, RunPrefix(env, steps, n - 1).value.regs);
    }
  }

  // Deep joins.

  const PROVENANCE_EDGE := 3

  /** A FETCH, then `n` joins of the newest register with itself. */
  function FetchAndJoin(ref: string, n: nat): (steps: seq<Step>)
    ensures |steps| == n + 1
  {
    seq(n + 1, i requires 0 <= i < n + 1 =>
      Step(Reg(i), Some(if i == 0 then Fetch(ref) else Join(Reg(i - 1), Reg(i - 1), PROVENANCE_EDGE))))
  }

  lemma FetchAndJoinSteps(ref: string, n: nat, i: nat)
    requires i <= n
    ensures var s := FetchAndJoin(ref, n)[i];
            && s.out == Reg(i)
            && s.op == Some(if i == 0 then Fetch(ref) else Join(Reg(i - 1), Reg(i - 1), PROVENANCE_EDGE))
  {
  }

  lemma {:induction false} FetchAndJoinDepth(ref: string, n: nat, i: nat)
    requires i <= n
    ensures PlanDepth(FetchAndJoin(ref, n), i) == i
  {
    hide Reg, OperandDepth, Definer, Outs, FetchAndJoin;
    var steps := FetchAndJoin(ref, n);
    FetchAndJoinSteps(ref, n, i);
    if i > 0 {
      FetchAndJoinDepth(ref, n, i - 1);
      FetchAndJoinSteps(ref, n, i - 1);
      LatestReads(steps, i);
      DoubledDepth(steps, i, Reg(i - 1), PROVENANCE_EDGE);
    }
  }

  lemma SelfJoin(env: Env, regs: Registers, r: string, h: HandleRef)
    requires r in regs && AsHandles(regs[r]) == Ok([h]) && env.budget.maxFanout >= 1
    ensures ExecJoin(env, regs, r, r, PROVENANCE_EDGE).Ok?
    ensures AsHandles(ExecJoin(env, regs, r, r, PROVENANCE_EDGE).value) == Ok([h])
  {
    var hs := [h];
    var joined := JoinPairs(EdgeProvenance, hs, 1, hs);
    assert JoinPairs(EdgeProvenance, hs, 0, hs) == map[];
    assert JoinRow(EdgeProvenance, h, hs, 0, map[]) == map[];
    assert joined == map[h.ref := h];
    SortedKeysUnique([h.ref], joined.Keys);
    assert ValuesInOrder(joined) == [h];
    assert |joined| == 1 by { assert joined.Keys == {h.ref}; assert |joined.Keys| == 1; }
  }

  lemma {:induction false} FetchAndJoinPrefix(env: Env, h: HandleRef, n: nat, i: nat)
    requires h.ref in env.handlesByRef && env.handlesByRef[h.ref] == h && AvailabilityFromI32(h.availability) == Ready
    requires env.budget.maxFanout >= 1 && i <= n
    ensures RunPrefix(env, FetchAndJoin(h.ref, n), i + 1).Ok?
    ensures Reg(i) in RunPrefix(env, FetchAndJoin(h.ref, n), i + 1).value.regs
    ensures AsHandles(RunPrefix(env, FetchAndJoin(h.ref, n), i + 1).value.regs[Reg(i)]) == Ok([h])
  {
    hide RunPrefix, TraceToken, Reg, FetchAndJoin, ExecJoin;
    var steps := FetchAndJoin(h.ref, n);
    FetchAndJoinSteps(h.ref, n, i);
    RunOneMore(env, steps, i + 1);
    if i == 0 {
      NothingRan(env, steps);
    } else {
      FetchAndJoinPrefix(env, h, n, i - 1);
      SelfJoin(env, RunPrefix(env, steps, i).value.regs, Reg(i - 1), h);
    }
  }

  lemma {:induction false} FetchAndJoinCost(env: Env, power: nat -> real, ref: string, n: nat, i: nat)
    requires i <= n
    ensures TotalCost(env, power, FetchAndJoin(ref, n), i + 1) == 1.0 + 2.0 * i as real
  {
    hide Reg, FetchAndJoin;
    FetchAndJoinSteps(ref, n, i);
    if i > 0 {
      FetchAndJoinCost(env, power, ref, n, i - 1);
    } else {
      assert TotalCost(env, power, FetchAndJoin(ref, n), 0) == 0.0;
    }
  }

  /** Joins nest as deep as the budget lets them: the last of `n` runs to OK with join depth `n`. */
  lemma DeepJoinsRun(p: Primitives, m: PublicManifest, h: HandleRef, n: nat)
    requires h.ref in HandlesIndex(m.handles) && HandlesIndex(m.handles)[h.ref] == h && AvailabilityFromI32(h.availability) == Ready
    requires n < NormalizeBudget(m.budget).maxOps && n <= NormalizeBudget(m.budget).maxJoinDepth
    requires 1.0 + 2.0 * n as real <= NormalizeBudget(m.budget).maxTotalCost
    ensures var env, steps := MakeEnv(m, DEFAULT_OPTIONS), FetchAndJoin(h.ref, n);
            && ExecutePlan(p, m, RmvmPlan(m.requestId, steps, []), DEFAULT_OPTIONS).Ok?
            && RunPrefix(env, steps, n + 1).Ok? && Written(env, steps, n).joinDepth == n
  {
    hide ExecutePlan, RunPrefix, HandlesIndex, SelectorsIndex, FetchAndJoin, PlanDepth, Reg, Blank, Written, RefsKnown;
    var env, steps := MakeEnv(m, DEFAULT_OPTIONS), FetchAndJoin(h.ref, n);
    forall i | 0 <= i <= n ensures steps[i].out == Reg(i) {
      FetchAndJoinSteps(h.ref, n, i);
    }
    RegOuts(steps, n + 1);
    FetchAndJoinPrefix(env, h, n, n);
    FetchAndJoinCost(env, p.power, h.ref, n, n);
    forall i | 0 <= i < n + 1 ensures GuardAdmits(HandleNames(m), SelectorNames(m), steps, i) && Budgeted(env, steps, i) {
      FetchAndJoinAdmitted(m, h, n, i);
    }
    AcceptableRuns(p, m, steps);
    RunComputesDepth(env, steps, n);
    FetchAndJoinDepth(h.ref, n, n);
  }

  lemma FetchAndJoinAdmitted(m: PublicManifest, h: HandleRef, n: nat, i: nat)
    requires i <= n <= NormalizeBudget(m.budget).maxJoinDepth && h.ref in HandlesIndex(m.handles)
    ensures var env, steps := MakeEnv(m, DEFAULT_OPTIONS), FetchAndJoin(h.ref, n);
            GuardAdmits(HandleNames(m), SelectorNames(m), steps, i) && Budgeted(env, steps, i)
  {
    hide HandlesIndex, SelectorsIndex, FetchAndJoin, PlanDepth, Reg, Blank;
    var steps := FetchAndJoin(h.ref, n);
    forall j | 0 <= j <= n ensures steps[j].out == Reg(j) {
      FetchAndJoinSteps(h.ref, n, j);
    }
    RegOuts(steps, n + 1);
    OutFresh(steps, i);
    RegsDiffer(i, i + 1);
    FetchAndJoinSteps(h.ref, n, i);
    FetchAndJoinDepth(h.ref, n, i);
    HandlesIndexSound(m.handles);
    assert h.ref in HandleNames(m);
    if i > 0 {
      assert steps[i - 1].out in Outs(steps, i + 1);
    }
  }

  /** The documented caps of 128 operations and join depth 3 fail of OK requests under a manifest that asks for more. */
  lemma BeyondDocumentedCaps(p: Primitives, h: HandleRef)
    requires AvailabilityFromI32(h.availability) == Ready
    ensures var m := PublicManifest("", [h], [], Some(PlanBudget(129, 4, 64, 512.0)));
            var env, many, deep := MakeEnv(m, DEFAULT_OPTIONS), Repeated(EMPTY_ASSERT, 129), FetchAndJoin(h.ref, 4);
            && |many| == 129 && ExecutePlan(p, m, RmvmPlan("", many, []), DEFAULT_OPTIONS).Ok?
            && ExecutePlan(p, m, RmvmPlan("", deep, []), DEFAULT_OPTIONS).Ok?
            && RunPrefix(env, deep, 5).Ok? && Written(env, deep, 4).joinDepth == 4
  {
    hide ExecutePlan, RunPrefix, HandlesIndex, FetchAndJoin, Written, Repeated, MakeEnv;
    var m := PublicManifest("", [h], [], Some(PlanBudget(129, 4, 64, 512.0)));
    LoneHandle(h);
    EmptyAssertsRun(p, m, 129);
    DeepJoinsRun(p, m, h, 4);
  }
}
