/** The static check agrees with the run: definedness, join depth, and the one gap between them. */
module StaticDynamic {
  import opened Wrappers
  import opened Proto
  import opened Text
  import opened Semantics
  import opened Runs

  /** The number of joins behind step `i` on the deepest path of reads that no ASSERT cuts. */
  function PlanDepth(steps: seq<Step>, i: nat): nat
    requires i < |steps|
    decreases i, 1
  {
    if steps[i].op.None? then 0
    else match steps[i].op.value
      case Resolve(inReg, _) => OperandDepth(steps, i, inReg)
      case Filter(inReg, _, _) => OperandDepth(steps, i, inReg)
      case Project(inReg, _) => OperandDepth(steps, i, inReg)
      case Join(l, r, _) => Max(OperandDepth(steps, i, l), OperandDepth(steps, i, r)) + 1
      case _ => 0
  }

  function OperandDepth(steps: seq<Step>, n: nat, r: string): nat
    requires n <= |steps|
    decreases n, 0
  {
    var d := Definer(steps, n, r);
    if d.Some? then PlanDepth(steps, d.value) else 0
  }

  /** The depth map holds the plan depth of every register; absent means zero. */
  ghost predicate DepthsMatch(depths: map<string, nat>, steps: seq<Step>, n: nat)
    requires n <= |steps|
  {
    && (forall r :: r in depths ==> r in Outs(steps, n))
    && (forall r :: DepthIn(depths, r) == OperandDepth(steps, n, r))
  }

  lemma OutDepthIsPlanDepth(depths: map<string, nat>, steps: seq<Step>, i: nat)
    requires i < |steps| && steps[i].op.Some? && DepthsMatch(depths, steps, i)
    ensures OutDepth(steps[i].op.value, depths) == PlanDepth(steps, i)
  {
  }

  lemma DepthsExtend(depths: map<string, nat>, steps: seq<Step>, i: nat, next: map<string, nat>)
    requires i < |steps| && DepthsMatch(depths, steps, i) && steps[i].out !in Outs(steps, i)
    requires next == if PlanDepth(steps, i) > 0 then depths[steps[i].out := PlanDepth(steps, i)] else depths
    ensures DepthsMatch(next, steps, i + 1)
  {
    OutsExtend(steps, i + 1);
    forall r ensures DepthIn(next, r) == OperandDepth(steps, i + 1, r) {
      assert DepthIn(depths, r) == OperandDepth(steps, i, r);
    }
  }

  /** The check computes the plan depth of every register. */
  lemma {:induction false} CheckComputesDepth(env: Env, power: nat -> real, steps: seq<Step>, n: nat)
    requires n <= |steps| && CheckPrefix(env, power, steps, n).Ok?
    ensures DepthsMatch(CheckPrefix(env, power, steps, n).value.joinDepth, steps, n)
  {
    hide CheckOp, StepCost, OutDepth, PlanDepth, CheckStep;
    if n > 0 {
      StepChecked(env, power, steps, n - 1);
      CheckComputesDepth(env, power, steps, n - 1);
      CheckedSteps(env, power, steps, n - 1);
      var depths := CheckPrefix(env, power, steps, n - 1).value.joinDepth;
      OutDepthIsPlanDepth(depths, steps, n - 1);
      DepthsExtend(depths, steps, n - 1, CheckPrefix(env, power, steps, n).value.joinDepth);
    }
  }

  lemma JoinDepthChecked(env: Env, op: Op, declared: set<string>, depths: map<string, nat>)
    requires op.Join? && CheckOp(env, op, declared, depths).Ok?
    ensures OutDepth(op, depths) <= env.budget.maxJoinDepth
  {
  }

  lemma {:induction false} DepthBounded(env: Env, power: nat -> real, steps: seq<Step>, i: nat)
    requires i < |steps| && CheckPrefix(env, power, steps, i + 1).Ok?
    ensures PlanDepth(steps, i) <= env.budget.maxJoinDepth
    decreases i
  {
    hide CheckOp, StepCost, CheckStep, OutDepth;
    StepChecked(env, power, steps, i);
    CheckComputesDepth(env, power, steps, i);
    var op, s := steps[i].op.value, CheckPrefix(env, power, steps, i).value;
    OutDepthIsPlanDepth(s.joinDepth, steps, i);
    if op.Join? {
      JoinDepthChecked(env, op, s.declared + {steps[i].out}, s.joinDepth);
    } else if op.Resolve? || op.Filter? || op.Project? {
      var d := Definer(steps, i, op.inReg);
      if d.Some? {
        CheckPrefixMonotone(env, power, steps, d.value + 1, i);
        DepthBounded(env, power, steps, d.value);
      }
    }
  }

  lemma OpDepth(env: Env, regs: Registers, op: Op)
    requires ExecOp(env, regs, op).Ok?
    ensures Operands(op) <= regs.Keys
    ensures ExecOp(env, regs, op).value.reg.joinDepth ==
            match op
            case Resolve(inReg, _) => regs[inReg].joinDepth
            case Filter(inReg, _, _) => regs[inReg].joinDepth
            case Project(inReg, _) => regs[inReg].joinDepth
            case Join(l, r, _) => Max(regs[l].joinDepth, regs[r].joinDepth) + 1
            case _ => 0
  {
    OperandsPresent(env, regs, op);
  }

  lemma {:induction false} RunComputesDepth(env: Env, steps: seq<Step>, i: nat)
    requires i < |steps| && RunPrefix(env, steps, i + 1).Ok?
    ensures Written(env, steps, i).joinDepth == PlanDepth(steps, i)
    decreases i
  {
    StepRan(env, steps, i);
    var regs := MachineAt(env, steps, i).regs;
    OpDepth(env, regs, steps[i].op.value);
    forall r | r in regs ensures regs[r].joinDepth == OperandDepth(steps, i, r) {
      ReadsDefiner(env, steps, i, r);
      RunComputesDepth(env, steps, Definer(steps, i, r).value);
    }
  }

  /**
    In an OK request each step reads only registers written by strictly earlier steps, and the join
    depth its output carries at run time is the one the check computed, within the budget.
   */
  lemma RunMatchesCheck(p: Primitives, m: PublicManifest, plan: RmvmPlan, opts: ExecuteOptions, i: nat)
    requires ExecutePlan(p, m, plan, opts).Ok? && i < |plan.steps|
    ensures var env := MakeEnv(m, opts);
            && CheckPrefix(env, p.power, plan.steps, |plan.steps|).Ok?
            && RunPrefix(env, plan.steps, i + 1).Ok?
            && plan.steps[i].op.Some?
            && (forall r :: r in Operands(plan.steps[i].op.value) ==> r in Outs(plan.steps, i))
            && Written(env, plan.steps, i).joinDepth
               == DepthIn(CheckPrefix(env, p.power, plan.steps, |plan.steps|).value.joinDepth, plan.steps[i].out)
            && Written(env, plan.steps, i).joinDepth <= env.budget.maxJoinDepth
  {
    hide ExecutePlan, ExecOp, PlanDepth, MakeEnv, CheckStep, RunStep, CheckPrefix, RunPrefix, Written, Operands, WellIndexed;
    OkRun(p, m, plan, opts);
    var env, steps := MakeEnv(m, opts), plan.steps;
    RunPrefixMonotone(env, steps, i + 1, |steps|);
    StepRan(env, steps, i);
    OperandsPresent(env, MachineAt(env, steps, i).regs, steps[i].op.value);
    RegistersWritten(env, steps, i);
    RunComputesDepth(env, steps, i);
    CheckComputesDepth(env, p.power, steps, |steps|);
    DefinerOfOut(steps, |steps|, i);
    CheckPrefixMonotone(env, p.power, steps, i + 1, |steps|);
    DepthBounded(env, p.power, steps, i);
  }

  lemma CheckedOperands(env: Env, op: Op, declared: set<string>, depths: map<string, nat>)
    requires CheckOp(env, op, declared, depths).Ok?
    ensures Operands(op) <= declared
  {
  }

  /**
    The gap: in a statically accepted plan, a step the run reaches finds all its operands exactly
    when it does not read its own output.
   */
  lemma OperandsMissingExactly(env: Env, power: nat -> real, steps: seq<Step>, i: nat)
    requires i < |steps| && CheckPrefix(env, power, steps, |steps|).Ok? && RunPrefix(env, steps, i).Ok?
    ensures steps[i].op.Some?
    ensures Operands(steps[i].op.value) <= MachineAt(env, steps, i).regs.Keys <==> steps[i].out !in Operands(steps[i].op.value)
  {
    hide CheckPrefix, CheckStep, CheckOp, RunPrefix, ExecOp, StepCost, OutDepth, Operands;
    CheckPrefixMonotone(env, power, steps, i + 1, |steps|);
    StepChecked(env, power, steps, i);
    CheckedSteps(env, power, steps, i);
    RegistersWritten(env, steps, i);
    var s := CheckPrefix(env, power, steps, i).value;
    CheckedOperands(env, steps[i].op.value, s.declared + {steps[i].out}, s.joinDepth);
  }

  /** A missing operand stops the run, so a plan with a step that reads its own output never ends in OK. */
  lemma SelfReadNeverOk(p: Primitives, m: PublicManifest, plan: RmvmPlan, opts: ExecuteOptions, i: nat)
    requires i < |plan.steps| && plan.steps[i].op.Some? && plan.steps[i].out in Operands(plan.steps[i].op.value)
    ensures ExecutePlan(p, m, plan, opts).Stop?
  {
    if ExecutePlan(p, m, plan, opts).Ok? {
      OkRun(p, m, plan, opts);
      RunMatchesCheck(p, m, plan, opts, i);
      OutFresh(plan.steps, i);
    }
  }

  /** The check admits such a plan: one RESOLVE of its own output passes statically and is rejected at run time. */
  lemma SelfReadPassesCheck(p: Primitives, opts: ExecuteOptions)
    ensures var m := PublicManifest("", [], [], None);
            var plan := RmvmPlan("", [Step("r", Some(Resolve("r", "")))], []);
            && ValidateStatic(MakeEnv(m, opts), p.power, plan) == Ok(())
            && ExecutePlan(p, m, plan, opts) == Reject(SchemaViolation)
  {
    var m := PublicManifest("", [], [], None);
    var step := Step("r", Some(Resolve("r", "")));
    var steps := [step];
    var env := MakeEnv(m, opts);
    BlankIffWhitespace("r");
    assert CheckPrefix(env, p.power, steps, 0) == Ok(STATIC_START);
    assert CheckStep(env, p.power, STATIC_START, step).Ok?;
    assert CheckPrefix(env, p.power, steps, 1) == CheckStep(env, p.power, STATIC_START, step);
    assert RunPrefix(env, steps, 0) == Ok(MACHINE_START);
    assert RunPrefix(env, steps, 1) == RunStep(env, MACHINE_START, 0, step);
  }
}
