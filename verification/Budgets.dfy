/**
  Budgets: what normalizing keeps, and exactly when a manifest's budget enforces a given cap on the
  number of operations or on the join depth of the plans the check accepts.
 */
module Budgets {
  import opened Wrappers
  import opened Proto
  import opened Text
  import opened Handles
  import opened Semantics
  import opened Runs
  import opened StaticDynamic
  import opened CostBound

  function AsPlanBudget(b: Budget): PlanBudget {
    PlanBudget(b.maxOps, b.maxJoinDepth, b.maxFanout, b.maxTotalCost)
  }

  /** A budget is usable as it stands when every limit is positive. */
  predicate AllPositive(b: PlanBudget) {
    b.maxOps > 0 && b.maxJoinDepth > 0 && b.maxFanout > 0 && b.maxTotalCost > 0.0
  }

  /**
    Normalizing leaves alone exactly the budgets with positive limits, keeps each positive limit,
    puts the default for every other, and is idempotent.
   */
  lemma NormalizingExactly(b: PlanBudget)
    ensures var r := NormalizeBudget(Some(b));
            && AllPositive(AsPlanBudget(r)) && NormalizeBudget(Some(AsPlanBudget(r))) == r
            && (AsPlanBudget(r) == b <==> AllPositive(b))
            && (r.maxOps == b.maxOps || (b.maxOps == 0 && r.maxOps == NormalizeBudget(None).maxOps))
            && (r.maxJoinDepth == b.maxJoinDepth || (b.maxJoinDepth == 0 && r.maxJoinDepth == NormalizeBudget(None).maxJoinDepth))
            && (r.maxFanout == b.maxFanout || (b.maxFanout == 0 && r.maxFanout == NormalizeBudget(None).maxFanout))
            && (r.maxTotalCost == b.maxTotalCost || (b.maxTotalCost <= 0.0 && r.maxTotalCost == NormalizeBudget(None).maxTotalCost))
    ensures NormalizeBudget(None) == Budget(128, 3, 64, 512.0)
  {
  }

  // Many cheap steps.

  const EMPTY_ASSERT := AssertOp(AssertionNumber(AssertWorldFact), map[], [])

  /** A selector call without parameters, or an ASSERT that binds nothing: what always passes the check. */
  predicate IsFree(env: Env, op: Op) {
    op == EMPTY_ASSERT || (op.ApplySelector? && op.selectorRef in env.selectors && op.params == map[])
  }

  function Reg(i: nat): string {
    "r" + Decimal(i)
  }

  lemma RegsDiffer(i: nat, j: nat)
    requires i != j
    ensures Reg(i) != Reg(j) && !Blank(Reg(i))
  {
    assert Reg(i)[1..] == Decimal(i) && Reg(j)[1..] == Decimal(j);
    if Reg(i) == Reg(j) { DecimalInjective(i, j); }
    BlankIffWhitespace(Reg(i));
    assert Reg(i)[0] == 'r';
  }

  function RegsBelow(n: nat): set<string> {
    set i: nat | i < n :: Reg(i)
  }

  lemma NextReg(n: nat)
    ensures Reg(n) !in RegsBelow(n) && !Blank(Reg(n))
    ensures RegsBelow(n + 1) == RegsBelow(n) + {Reg(n)}
  {
    RegsDiffer(n, n + 1);
    forall i: nat | i < n ensures Reg(i) != Reg(n) {
      RegsDiffer(i, n);
    }
  }

  lemma FreeOpsCheck(env: Env, op: Op, declared: set<string>)
    requires IsFree(env, op)
    ensures CheckOp(env, op, declared, map[]) == Ok(()) && OutDepth(op, map[]) == 0
  {
    if op.ApplySelector? {
      CheckParamsOk(env.selectors[op.selectorRef].params, map[]);
    }
  }

  function Repeated(op: Op, n: nat): (steps: seq<Step>)
    ensures |steps| == n
  {
    seq(n, i requires 0 <= i < n => Step(Reg(i), Some(op)))
  }

  lemma ScaleNext(n: nat, cost: real)
    requires n > 0
    ensures n as real * cost == (n - 1) as real * cost + cost
  {
    assert n as real == (n - 1) as real + 1.0;
  }

  lemma FreeStepChecks(env: Env, power: nat -> real, op: Op, n: nat, s: StaticState)
    requires IsFree(env, op) && s.declared == RegsBelow(n) && s.joinDepth == map[]
    ensures CheckStep(env, power, s, Step(Reg(n), Some(op)))
            == Ok(StaticState(RegsBelow(n + 1), map[], s.totalCost + StepCost(env, power, op)))
  {
    hide StepCost, CheckOp, OutDepth, Reg, IsFree, Blank, RegsBelow;
    NextReg(n);
    FreeOpsCheck(env, op, RegsBelow(n) + {Reg(n)});
  }

  lemma {:induction false} RepeatedChecked(env: Env, power: nat -> real, op: Op, total: nat, n: nat)
    requires IsFree(env, op) && n <= total
    ensures var r := CheckPrefix(env, power, Repeated(op, total), n);
            && r.Ok? && r.value.declared == RegsBelow(n) && r.value.joinDepth == map[]
            && r.value.totalCost == n as real * StepCost(env, power, op)
  {
    hide StepCost, CheckStep, Reg, IsFree;
    var cost, steps := StepCost(env, power, op), Repeated(op, total);
    if n > 0 {
      RepeatedChecked(env, power, op, total, n - 1);
      FreeStepChecks(env, power, op, n - 1, CheckPrefix(env, power, steps, n - 1).value);
      ScaleNext(n, cost);
      assert steps[n - 1] == Step(Reg(n - 1), Some(op));
    } else {
      assert RegsBelow(0) == {};
    }
  }

  /** `cap + 1` steps of any free operation cost more than the budget has. */
  ghost predicate TooDear(env: Env, power: nat -> real, cap: nat) {
    forall op :: IsFree(env, op) ==> (cap + 1) as real * StepCost(env, power, op) > env.budget.maxTotalCost
  }

  /** No operation is cheaper than every free one. */
  lemma DearSteps(env: Env, power: nat -> real, cap: nat, op: Op, declared: set<string>, depths: map<string, nat>)
    requires TooDear(env, power, cap) && CheckOp(env, op, declared, depths).Ok?
    ensures (cap + 1) as real * StepCost(env, power, op) > env.budget.maxTotalCost
  {
    assert IsFree(env, EMPTY_ASSERT);
    assert StepCost(env, power, EMPTY_ASSERT) == 1.0;
    if op.ApplySelector? {
      assert IsFree(env, ApplySelector(op.selectorRef, map[]));
      assert StepCost(env, power, ApplySelector(op.selectorRef, map[])) == StepCost(env, power, op);
    } else if op.Join? {
      ScaleMonotone((cap + 1) as real, 1.0, 2.0);
    }
  }

  lemma ScaleSum(c: real, a: real, b: real)
    ensures c * (a + b) == c * a + c * b
  {
  }

  lemma {:induction false} DearPrefix(env: Env, power: nat -> real, steps: seq<Step>, cap: nat, n: nat)
    requires n <= |steps| && TooDear(env, power, cap) && CheckPrefix(env, power, steps, n).Ok?
    ensures (cap + 1) as real * CheckPrefix(env, power, steps, n).value.totalCost >= n as real * env.budget.maxTotalCost
    ensures n > 0 ==> (cap + 1) as real * CheckPrefix(env, power, steps, n).value.totalCost > n as real * env.budget.maxTotalCost
  {
    hide StepCost, CheckOp, OutDepth, CheckStep, TooDear;
    if n > 0 {
      var limit := env.budget.maxTotalCost;
      StepChecked(env, power, steps, n - 1);
      DearPrefix(env, power, steps, cap, n - 1);
      var op, s := steps[n - 1].op.value, CheckPrefix(env, power, steps, n - 1).value;
      DearSteps(env, power, cap, op, s.declared + {steps[n - 1].out}, s.joinDepth);
      ScaleSum((cap + 1) as real, s.totalCost, StepCost(env, power, op));
      ScaleNext(n, limit);
    }
  }

  lemma CancelScale(c: real, n: real, total: real, limit: real)
    requires 0.0 < c <= n && limit > 0.0 && c * total > n * limit
    ensures total > limit
  {
    ScaleMonotone(limit, c, n);
    if total <= limit {
      ScaleMonotone(c, total, limit);
    }
  }

  ghost predicate OpsCapped(env: Env, power: nat -> real, cap: nat) {
    forall plan :: ValidateStatic(env, power, plan).Ok? ==> |plan.steps| <= cap
  }

  /**
    When a cap on the number of operations holds of every accepted plan: exactly when the budget
    states it, or one step more than the cap, however cheap, exceeds the cost budget.
   */
  lemma OpsCapExactly(m: PublicManifest, opts: ExecuteOptions, power: nat -> real, cap: nat)
    ensures var env := MakeEnv(m, opts);
            OpsCapped(env, power, cap) <==> env.budget.maxOps <= cap || TooDear(env, power, cap)
  {
    var env := MakeEnv(m, opts);
    assert env.budget.maxTotalCost > 0.0;
    OpsCapIn(env, power, cap);
  }

  lemma OpsCapIn(env: Env, power: nat -> real, cap: nat)
    requires env.budget.maxTotalCost > 0.0
    ensures OpsCapped(env, power, cap) <==> env.budget.maxOps <= cap || TooDear(env, power, cap)
  {
    hide CheckStep, StepCost, CheckPrefix, IsFree;
    if env.budget.maxOps > cap && !TooDear(env, power, cap) {
      var op :| IsFree(env, op) && (cap + 1) as real * StepCost(env, power, op) <= env.budget.maxTotalCost;
      var plan := RmvmPlan("", Repeated(op, cap + 1), []);
      RepeatedChecked(env, power, op, cap + 1, cap + 1);
      assert ValidateStatic(env, power, plan).Ok?;
    }
    if TooDear(env, power, cap) {
      forall plan | ValidateStatic(env, power, plan).Ok? ensures |plan.steps| <= cap {
        var n := |plan.steps|;
        if n > cap {
          DearPrefix(env, power, plan.steps, cap, n);
          CancelScale((cap + 1) as real, n as real, CheckPrefix(env, power, plan.steps, n).value.totalCost, env.budget.maxTotalCost);
        }
      }
    }
  }

  /** Without selectors the cost budget caps the operations when it is below one more than the cap. */
  lemma TooDearWithoutSelectors(env: Env, power: nat -> real, cap: nat)
    requires env.selectors == map[]
    ensures TooDear(env, power, cap) <==> env.budget.maxTotalCost < (cap + 1) as real
  {
    assert IsFree(env, EMPTY_ASSERT);
    assert StepCost(env, power, EMPTY_ASSERT) == 1.0;
  }

  // Deep joins.

  /** A chain of joins; the first reads its own output, which the check lets pass. */
  function JoinChain(n: nat): (steps: seq<Step>)
    ensures |steps| == n
  {
    seq(n, i requires 0 <= i < n => Step(Reg(i), Some(Join(Reg(if i == 0 then 0 else i - 1), Reg(if i == 0 then 0 else i - 1), 1))))
  }

  lemma {:induction false} ChainOuts(total: nat, n: nat)
    requires n <= total
    ensures Outs(JoinChain(total), n) == RegsBelow(n)
  {
    if n > 0 {
      ChainOuts(total, n - 1);
      OutsExtend(JoinChain(total), n);
      NextReg(n - 1);
    } else {
      assert Outs(JoinChain(total), 0) == {};
    }
  }

  lemma LatestDefiner(steps: seq<Step>, n: nat)
    requires 0 < n <= |steps|
    ensures Definer(steps, n, steps[n - 1].out) == Some(n - 1)
  {
  }

  lemma DoubledDepth(steps: seq<Step>, i: nat, r: string, edge: int)
    requires i < |steps| && steps[i].op == Some(Join(r, r, edge))
    ensures PlanDepth(steps, i) == OperandDepth(steps, i, r) + 1
  {
    hide OperandDepth;
  }

  lemma FirstReads(steps: seq<Step>, r: string)
    ensures OperandDepth(steps, 0, r) == 0
  {
  }

  lemma LatestReads(steps: seq<Step>, i: nat)
    requires 0 < i <= |steps|
    ensures OperandDepth(steps, i, steps[i - 1].out) == PlanDepth(steps, i - 1)
  {
    hide Definer, PlanDepth;
    LatestDefiner(steps, i);
  }

  lemma ChainSteps(total: nat, i: nat)
    requires i < total
    ensures JoinChain(total)[i].out == Reg(i)
    ensures JoinChain(total)[i].op == var r := Reg(if i == 0 then 0 else i - 1); Some(Join(r, r, 1))
  {
  }

  lemma {:induction false} ChainDepth(total: nat, i: nat)
    requires i < total
    ensures PlanDepth(JoinChain(total), i) == i + 1
  {
    hide Reg, PlanDepth, OperandDepth, Definer, Outs, JoinChain;
    var steps := JoinChain(total);
    ChainSteps(total, i);
    if i == 0 {
      FirstReads(steps, Reg(0));
      DoubledDepth(steps, 0, Reg(0), 1);
    } else {
      ChainDepth(total, i - 1);
      ChainSteps(total, i - 1);
      LatestReads(steps, i);
      DoubledDepth(steps, i, Reg(i - 1), 1);
    }
  }

  lemma {:induction false} ChainChecked(env: Env, power: nat -> real, total: nat, n: nat)
    requires n <= total <= env.budget.maxJoinDepth
    ensures CheckPrefix(env, power, JoinChain(total), n).Ok?
    ensures CheckPrefix(env, power, JoinChain(total), n).value.totalCost == 2.0 * n as real
  {
    hide PlanDepth, Reg, Blank, JoinChain;
    if n > 0 {
      ChainChecked(env, power, total, n - 1);
      ChainStep(env, power, total, n - 1);
    }
  }

  lemma ChainStep(env: Env, power: nat -> real, total: nat, i: nat)
    requires i < total <= env.budget.maxJoinDepth && CheckPrefix(env, power, JoinChain(total), i).Ok?
    ensures var steps := JoinChain(total);
            var s := CheckPrefix(env, power, steps, i).value;
            CheckStep(env, power, s, steps[i]).Ok? && CheckStep(env, power, s, steps[i]).value.totalCost == s.totalCost + 2.0
  {
    hide CheckPrefix, PlanDepth, Reg, Blank, Outs, RegsBelow;
    var steps := JoinChain(total);
    var s := CheckPrefix(env, power, steps, i).value;
    CheckedSteps(env, power, steps, i);
    ChainOuts(total, i);
    NextReg(i);
    if i > 0 { NextReg(i - 1); }
    CheckComputesDepth(env, power, steps, i);
    OutDepthIsPlanDepth(s.joinDepth, steps, i);
    ChainDepth(total, i);
  }

  lemma {:induction false} CheckedCostGrows(env: Env, power: nat -> real, steps: seq<Step>, k: nat, n: nat)
    requires k <= n <= |steps| && IsCostPower(power) && CheckPrefix(env, power, steps, n).Ok?
    ensures CheckPrefix(env, power, steps, k).Ok?
    ensures CheckPrefix(env, power, steps, k).value.totalCost <= CheckPrefix(env, power, steps, n).value.totalCost
  {
    hide CheckStep, CheckOp, StepCost, OutDepth, IsCostPower;
    if k < n {
      StepChecked(env, power, steps, n - 1);
      StepCostNonNegative(env, power, steps[n - 1].op.value);
      CheckedCostGrows(env, power, steps, k, n - 1);
    }
  }

  /** Depth is paid for: two units of cost and one step for each join on the path. */
  lemma {:induction false} DepthCosts(env: Env, power: nat -> real, steps: seq<Step>, i: nat)
    requires i < |steps| && IsCostPower(power) && CheckPrefix(env, power, steps, i + 1).Ok?
    ensures CheckPrefix(env, power, steps, i + 1).value.totalCost >= 2.0 * PlanDepth(steps, i) as real
    ensures PlanDepth(steps, i) <= i + 1
    decreases i
  {
    hide CheckStep, CheckOp, OutDepth, IsCostPower, CheckPrefix;
    StepChecked(env, power, steps, i);
    CheckedCostGrows(env, power, steps, 0, i);
    assert CheckPrefix(env, power, steps, 0) == Ok(STATIC_START) by { CheckNothing(env, power, steps); }
    StepCostNonNegative(env, power, steps[i].op.value);
    forall r ensures 2.0 * OperandDepth(steps, i, r) as real <= CheckPrefix(env, power, steps, i).value.totalCost
                     && OperandDepth(steps, i, r) <= i
    {
      var d := Definer(steps, i, r);
      if d.Some? {
        CheckedCostGrows(env, power, steps, d.value + 1, i);
        DepthCosts(env, power, steps, d.value);
      }
    }
  }

  lemma CheckNothing(env: Env, power: nat -> real, steps: seq<Step>)
    ensures CheckPrefix(env, power, steps, 0) == Ok(STATIC_START)
  {
  }

  ghost predicate DepthCapped(env: Env, power: nat -> real, cap: nat) {
    forall plan: RmvmPlan, i: nat {:trigger PlanDepth(plan.steps, i), ValidateStatic(env, power, plan)} ::
      i < |plan.steps| && ValidateStatic(env, power, plan).Ok? ==> PlanDepth(plan.steps, i) <= cap
  }

  /**
    When a cap on the join depth holds of every accepted plan: exactly when the budget states it, or
    has no room for one join more than the cap, in operations or in cost. The plans that exceed it
    here are accepted and then stopped by the run, since their first join reads its own output.
   */
  lemma DepthCapExactly(env: Env, power: nat -> real, cap: nat)
    requires IsCostPower(power)
    ensures DepthCapped(env, power, cap)
            <==> env.budget.maxJoinDepth <= cap || env.budget.maxOps <= cap || env.budget.maxTotalCost < 2.0 * (cap + 1) as real
  {
    hide PlanDepth, CheckPrefix, IsCostPower, JoinChain;
    if env.budget.maxJoinDepth > cap && env.budget.maxOps > cap && env.budget.maxTotalCost >= 2.0 * (cap + 1) as real {
      var plan := RmvmPlan("", JoinChain(cap + 1), []);
      ChainChecked(env, power, cap + 1, cap + 1);
      ChainDepth(cap + 1, cap);
      assert ValidateStatic(env, power, plan).Ok? && PlanDepth(plan.steps, cap) > cap;
    } else {
      forall plan: RmvmPlan, i: nat {:trigger PlanDepth(plan.steps, i), ValidateStatic(env, power, plan)}
        | i < |plan.steps| && ValidateStatic(env, power, plan).Ok?
        ensures PlanDepth(plan.steps, i) <= cap
      {
        CheckedCostGrows(env, power, plan.steps, i + 1, |plan.steps|);
        DepthCosts(env, power, plan.steps, i);
        DepthBounded(env, power, plan.steps, i);
      }
    }
  }
}
