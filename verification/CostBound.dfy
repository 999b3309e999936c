/** What an OK run really costs never exceeds what the static cost guard charged. */
module CostBound {
  import opened Proto
  import opened Semantics
  import opened Runs
  import opened Grounding

  /** The two facts about x^1.2 on row counts the bound needs. */
  ghost predicate IsCostPower(power: nat -> real) {
    (forall a: nat :: power(a) >= 0.0) && (forall a: nat, b: nat :: a <= b ==> power(a) <= power(b))
  }

  /** How many rows a register holds. */
  function Rows(r: RegValue): nat {
    if r.data.HandleSet? then |r.data.handles| else 1
  }

  /** The cost of an executed step, a selector charged for the rows it really produced. */
  function ActualCost(env: Env, power: nat -> real, op: Op, r: RegValue): real {
    match op
    case ApplySelector(sel, _) =>
      if sel in env.selectors then SelectorWeight(env.selectors[sel]) * power(Max(Rows(r), 1)) else 0.0
    case _ => StepCost(env, power, op)
  }

  function TotalActualCost(env: Env, power: nat -> real, steps: seq<Step>, n: nat): real
    requires n <= |steps| && RunPrefix(env, steps, n).Ok?
  {
    if n == 0 then 0.0
    else
      RunPrefixMonotone(env, steps, n - 1, n);
      TotalActualCost(env, power, steps, n - 1) + ActualCost(env, power, steps[n - 1].op.value, Written(env, steps, n - 1))
  }

  /** A selector never returns more rows than the guard estimated. */
  lemma SelectorRowsWithinEstimate(env: Env, sel: string, params: map<string, Value>)
    requires ExecApplySelector(env, sel, params).Ok?
    ensures sel in env.selectors
    ensures Rows(ExecApplySelector(env, sel, params).value) <= EstimateSelectorRows(env.selectors[sel], |env.handles|, env.budget)
  {
  }

  lemma ScaleMonotone(w: real, a: real, b: real)
    requires w >= 0.0 && a <= b
    ensures w * a <= w * b
  {
  }

  lemma ScaledPower(power: nat -> real, w: real, a: nat, b: nat)
    requires IsCostPower(power) && w >= 0.0 && a <= b
    ensures w * power(Max(a, 1)) <= w * power(Max(b, 1))
  {
    assert power(Max(a, 1)) <= power(Max(b, 1));
    ScaleMonotone(w, power(Max(a, 1)), power(Max(b, 1)));
  }

  lemma SelectorCostBound(env: Env, power: nat -> real, op: Op)
    requires IsCostPower(power) && op.ApplySelector? && ExecApplySelector(env, op.selectorRef, op.params).Ok?
    ensures ActualCost(env, power, op, ExecApplySelector(env, op.selectorRef, op.params).value) <= StepCost(env, power, op)
  {
    SelectorRowsWithinEstimate(env, op.selectorRef, op.params);
    var sel := env.selectors[op.selectorRef];
    var r := ExecApplySelector(env, op.selectorRef, op.params).value;
    ScaledPower(power, SelectorWeight(sel), Rows(r), EstimateSelectorRows(sel, |env.handles|, env.budget));
  }

  lemma StepCostBound(env: Env, power: nat -> real, regs: Registers, op: Op)
    requires IsCostPower(power) && ExecOp(env, regs, op).Ok?
    ensures ActualCost(env, power, op, ExecOp(env, regs, op).value.reg) <= StepCost(env, power, op)
  {
    if op.ApplySelector? {
      SelectorCostBound(env, power, op);
    }
  }

  lemma {:induction false} ActualWithinStatic(env: Env, power: nat -> real, steps: seq<Step>, n: nat)
    requires n <= |steps| && IsCostPower(power)
    requires CheckPrefix(env, power, steps, n).Ok? && RunPrefix(env, steps, n).Ok?
    ensures TotalActualCost(env, power, steps, n) <= CheckPrefix(env, power, steps, n).value.totalCost
  {
    hide CheckStep, CheckOp, StepCost, OutDepth, ExecOp, RunStep, ActualCost, IsCostPower;
    if n > 0 {
      StepChecked(env, power, steps, n - 1);
      ActualWithinStatic(env, power, steps, n - 1);
      StepRan(env, steps, n - 1);
      StepCostBound(env, power, MachineAt(env, steps, n - 1).regs, steps[n - 1].op.value);
    }
  }

  lemma StepCostNonNegative(env: Env, power: nat -> real, op: Op)
    requires IsCostPower(power)
    ensures StepCost(env, power, op) >= 0.0
  {
    if op.ApplySelector? && op.selectorRef in env.selectors {
      var sel := env.selectors[op.selectorRef];
      ScaleMonotone(SelectorWeight(sel), 0.0, power(Max(EstimateSelectorRows(sel, |env.handles|, env.budget), 1)));
    }
  }

  /** How many handle pairs an operation compares: a JOIN tests every left against every right handle. */
  function PairTests(regs: Registers, op: Op): nat {
    if op.Join? && op.leftReg in regs && op.rightReg in regs then HandleCount(regs[op.leftReg]) * HandleCount(regs[op.rightReg]) else 0
  }

  function HandleCount(r: RegValue): nat {
    if r.data.HandleSet? then |r.data.handles| else if r.data.HandleData? then 1 else 0
  }

  function JoinTests(env: Env, steps: seq<Step>, i: nat): nat
    requires i < |steps| && RunPrefix(env, steps, i + 1).Ok?
  {
    StepRan(env, steps, i);
    PairTests(MachineAt(env, steps, i).regs, steps[i].op.value)
  }

  function TotalJoinTests(env: Env, steps: seq<Step>, n: nat): nat
    requires n <= |steps| && RunPrefix(env, steps, n).Ok?
  {
    if n == 0 then 0
    else
      RunPrefixMonotone(env, steps, n - 1, n);
      TotalJoinTests(env, steps, n - 1) + JoinTests(env, steps, n - 1)
  }

  lemma ProductMonotone(a: nat, b: nat, c: nat, d: nat)
    requires a <= c && b <= d
    ensures a * b <= c * d
  {
    assert a * b <= c * b;
    assert c * b <= c * d;
  }

  lemma PairTestsBounded(env: Env, steps: seq<Step>, n: nat, regs: Registers, op: Op)
    requires n <= |steps| && WellIndexed(env) && RegsOk(env, steps, n, regs)
    ensures PairTests(regs, op) <= env.budget.maxFanout * env.budget.maxFanout
  {
    if op.Join? && op.leftReg in regs && op.rightReg in regs {
      var l, r := regs[op.leftReg], regs[op.rightReg];
      hide Behind;
      ProductMonotone(HandleCount(l), HandleCount(r), env.budget.maxFanout, env.budget.maxFanout);
    } else {
      ProductMonotone(0, 0, env.budget.maxFanout, env.budget.maxFanout);
    }
  }

  lemma JoinTestsBounded(env: Env, steps: seq<Step>, i: nat)
    requires i < |steps| && WellIndexed(env) && RunPrefix(env, steps, i + 1).Ok?
    ensures JoinTests(env, steps, i) <= env.budget.maxFanout * env.budget.maxFanout
  {
    StepRan(env, steps, i);
    RunGrounded(env, steps, i);
    PairTestsBounded(env, steps, i, MachineAt(env, steps, i).regs, steps[i].op.value);
  }

  lemma OneMore(n: nat, pairs: nat, total: nat, last: nat)
    requires n > 0 && total <= (n - 1) * pairs && last <= pairs
    ensures total + last <= n * pairs
  {
  }

  lemma {:induction false} TotalJoinTestsBounded(env: Env, steps: seq<Step>, n: nat, pairs: nat)
    requires n <= |steps| && WellIndexed(env) && RunPrefix(env, steps, n).Ok?
    requires pairs == env.budget.maxFanout * env.budget.maxFanout
    ensures TotalJoinTests(env, steps, n) <= n * pairs
  {
    hide JoinTests, ExecOp, RunStep, WellIndexed;
    if n > 0 {
      RunPrefixMonotone(env, steps, n - 1, n);
      TotalJoinTestsBounded(env, steps, n - 1, pairs);
      JoinTestsBounded(env, steps, n - 1);
      OneMore(n, pairs, TotalJoinTests(env, steps, n - 1), JoinTests(env, steps, n - 1));
    }
  }

  /** The actual cost of an OK request is within the budget. */
  lemma OkRunWithinCost(p: Primitives, m: PublicManifest, plan: RmvmPlan, opts: ExecuteOptions)
    requires IsCostPower(p.power) && ExecutePlan(p, m, plan, opts).Ok?
    ensures var env := MakeEnv(m, opts);
            && RunPrefix(env, plan.steps, |plan.steps|).Ok?
            && TotalActualCost(env, p.power, plan.steps, |plan.steps|) <= env.budget.maxTotalCost
  {
    OkRun(p, m, plan, opts);
    ActualWithinStatic(MakeEnv(m, opts), p.power, plan.steps, |plan.steps|);
  }

  /** In an OK request every handle set any step writes is within the fanout. */
  lemma OkRunWithinFanout(p: Primitives, m: PublicManifest, plan: RmvmPlan, opts: ExecuteOptions, i: nat)
    requires ExecutePlan(p, m, plan, opts).Ok? && i < |plan.steps|
    ensures RunPrefix(MakeEnv(m, opts), plan.steps, i + 1).Ok?
    ensures SetsWithinFanout(MakeEnv(m, opts), Written(MakeEnv(m, opts), plan.steps, i))
  {
    hide ExecutePlan, SetsWithinFanout, MakeEnv, RunPrefix, Written, WellIndexed;
    OkRun(p, m, plan, opts);
    MakeEnvIndexes(m, opts);
    RunPrefixMonotone(MakeEnv(m, opts), plan.steps, i + 1, |plan.steps|);
    WrittenWithinFanout(MakeEnv(m, opts), plan.steps, i);
  }

  /** All joins of an OK request together compare at most max_ops * max_fanout^2 pairs. */
  lemma OkRunJoinTests(p: Primitives, m: PublicManifest, plan: RmvmPlan, opts: ExecuteOptions)
    requires ExecutePlan(p, m, plan, opts).Ok?
    ensures var env := MakeEnv(m, opts);
            && RunPrefix(env, plan.steps, |plan.steps|).Ok?
            && TotalJoinTests(env, plan.steps, |plan.steps|) <= env.budget.maxOps * (env.budget.maxFanout * env.budget.maxFanout)
  {
    OkRun(p, m, plan, opts);
    MakeEnvIndexes(m, opts);
    var env := MakeEnv(m, opts);
    var pairs := env.budget.maxFanout * env.budget.maxFanout;
    ProductMonotone(0, 0, env.budget.maxFanout, env.budget.maxFanout);
    TotalJoinTestsBounded(env, plan.steps, |plan.steps|, pairs);
    ProductMonotone(|plan.steps|, pairs, env.budget.maxOps, pairs);
  }

  predicate SetsWithinFanout(env: Env, r: RegValue) {
    r.data.HandleSet? ==> |r.data.handles| <= env.budget.maxFanout
  }

  lemma WrittenWithinFanout(env: Env, steps: seq<Step>, i: nat)
    requires i < |steps| && WellIndexed(env) && RunPrefix(env, steps, i + 1).Ok?
    ensures SetsWithinFanout(env, Written(env, steps, i))
  {
    hide Behind, Written, WellIndexed, RunPrefix;
    WrittenGrounded(env, steps, i);
  }
}
