/** Removing a step whose output nobody reads changes nothing but the trace. */
module DeadStep {
  import opened Proto
  import opened Semantics
  import opened Runs
  import opened CostBound
  import opened Renaming

  function Without(steps: seq<Step>, d: nat): (r: seq<Step>)
    requires d < |steps|
    ensures |r| == |steps| - 1
    ensures forall i :: 0 <= i < d ==> r[i] == steps[i]
    ensures forall i :: d <= i < |r| ==> r[i] == steps[i + 1]
  {
    steps[..d] + steps[d + 1..]
  }

  /** Step `d` does not assert, and its output is read by no later step and not listed. */
  ghost predicate IsDead(plan: RmvmPlan, d: nat) {
    && d < |plan.steps|
    && !IsAssertStep(plan.steps[d])
    && plan.steps[d].out !in plan.outputs
    && forall i :: d < i < |plan.steps| && plan.steps[i].op.Some? ==> plan.steps[d].out !in Operands(plan.steps[i].op.value)
  }

  function Same(x: string): string {
    x
  }

  lemma SameRenaming(op: Op)
    ensures RenameOp(Same, op) == op
  {
    if op.AssertOp? {
      assert RenameBindings(Same, op.bindings) == op.bindings;
    }
  }

  // Static check.

  /** The check's state with register `x` left out. */
  ghost predicate StaticWithout(x: string, s: StaticState, s': StaticState) {
    && s'.declared == s.declared - {x}
    && (forall r :: r != x ==> DepthIn(s'.joinDepth, r) == DepthIn(s.joinDepth, r))
    && s'.totalCost <= s.totalCost
  }

  lemma CheckStepWithout(env: Env, power: nat -> real, x: string, s: StaticState, s': StaticState, step: Step)
    requires StaticWithout(x, s, s') && CheckStep(env, power, s, step).Ok?
    requires step.out != x && x in s.declared && x !in Operands(step.op.value)
    ensures CheckStep(env, power, s', step).Ok?
    ensures StaticWithout(x, CheckStep(env, power, s, step).value, CheckStep(env, power, s', step).value)
  {
    var op := step.op.value;
    CheckOpRenamed(env, Same, op, s.declared + {step.out}, s'.declared + {step.out}, s.joinDepth, s'.joinDepth);
    SameRenaming(op);
    var t, t' := CheckStep(env, power, s, step).value, CheckStep(env, power, s', step).value;
    forall r | r != x ensures DepthIn(t'.joinDepth, r) == DepthIn(t.joinDepth, r) {
      assert DepthIn(s'.joinDepth, r) == DepthIn(s.joinDepth, r);
    }
  }

  lemma {:induction false} CheckBefore(env: Env, power: nat -> real, steps: seq<Step>, d: nat, n: nat)
    requires n <= d < |steps|
    ensures CheckPrefix(env, power, Without(steps, d), n) == CheckPrefix(env, power, steps, n)
  {
    hide CheckStep;
    if n > 0 {
      CheckBefore(env, power, steps, d, n - 1);
    }
  }

  /** The dead step itself only adds its own register and its cost. */
  lemma CheckAtDead(env: Env, power: nat -> real, steps: seq<Step>, d: nat)
    requires d < |steps| && IsCostPower(power) && CheckPrefix(env, power, steps, d + 1).Ok?
    ensures CheckPrefix(env, power, steps, d).Ok?
    ensures StaticWithout(steps[d].out, CheckPrefix(env, power, steps, d + 1).value, CheckPrefix(env, power, steps, d).value)
  {
    hide CheckOp, StepCost, OutDepth, CheckPrefix, CheckStep;
    StepChecked(env, power, steps, d);
    StepCostNonNegative(env, power, steps[d].op.value);
  }

  lemma {:induction false} CheckAfter(env: Env, power: nat -> real, plan: RmvmPlan, d: nat, n: nat)
    requires IsDead(plan, d) && d < n <= |plan.steps| && IsCostPower(power)
    requires CheckPrefix(env, power, plan.steps, n).Ok?
    ensures CheckPrefix(env, power, Without(plan.steps, d), n - 1).Ok?
    ensures StaticWithout(plan.steps[d].out, CheckPrefix(env, power, plan.steps, n).value, CheckPrefix(env, power, Without(plan.steps, d), n - 1).value)
  {
    hide CheckOp, StepCost, OutDepth, CheckPrefix, CheckStep, StaticWithout, Operands;
    var steps, x := plan.steps, plan.steps[d].out;
    StepChecked(env, power, steps, n - 1);
    if n == d + 1 {
      CheckBefore(env, power, steps, d, d);
      CheckAtDead(env, power, steps, d);
    } else {
      CheckAfter(env, power, plan, d, n - 1);
      CheckedSteps(env, power, steps, n);
      CheckedSteps(env, power, steps, n - 1);
      assert x in Outs(steps, n - 1);
      CheckOneMore(env, power, steps, n);
      CheckOneMore(env, power, Without(steps, d), n - 1);
      CheckStepWithout(env, power, x, CheckPrefix(env, power, steps, n - 1).value, CheckPrefix(env, power, Without(steps, d), n - 2).value, steps[n - 1]);
    }
  }

  // Execution.

  ghost predicate MachineWithout(x: string, m: Machine, m': Machine) {
    m'.regs == m.regs - {x} && m'.assertions == m.assertions
  }

  lemma ExecOpWithout(env: Env, x: string, regs: Registers, op: Op)
    requires x !in Operands(op)
    ensures ExecOp(env, regs - {x}, op) == ExecOp(env, regs, op)
  {
    ExecOpRenamed(env, Same, regs, regs - {x}, op);
    SameRenaming(op);
  }

  lemma UpdateWithout(regs: Registers, x: string, out: string, r: RegValue)
    requires out != x
    ensures regs[out := r] - {x} == (regs - {x})[out := r]
  {
  }

  lemma RunStepWithout(env: Env, x: string, m: Machine, m': Machine, idx: nat, idx': nat, step: Step)
    requires MachineWithout(x, m, m') && RunStep(env, m, idx, step).Ok?
    requires step.out != x && x !in Operands(step.op.value)
    ensures RunStep(env, m', idx', step).Ok?
    ensures MachineWithout(x, RunStep(env, m, idx, step).value, RunStep(env, m', idx', step).value)
  {
    ExecOpWithout(env, x, m.regs, step.op.value);
    UpdateWithout(m.regs, x, step.out, ExecOp(env, m.regs, step.op.value).value.reg);
  }

  lemma {:induction false} RunBefore(env: Env, steps: seq<Step>, d: nat, n: nat)
    requires n <= d < |steps|
    ensures RunPrefix(env, Without(steps, d), n) == RunPrefix(env, steps, n)
  {
    hide RunStep;
    if n > 0 {
      RunBefore(env, steps, d, n - 1);
    }
  }

  lemma {:induction false} RunAfter(env: Env, plan: RmvmPlan, d: nat, n: nat)
    requires IsDead(plan, d) && d < n <= |plan.steps| && DistinctOuts(plan.steps)
    requires RunPrefix(env, plan.steps, n).Ok?
    ensures RunPrefix(env, Without(plan.steps, d), n - 1).Ok?
    ensures MachineWithout(plan.steps[d].out, MachineAt(env, plan.steps, n), MachineAt(env, Without(plan.steps, d), n - 1))
  {
    hide ExecOp, RunPrefix, RunStep, Operands;
    var steps, x := plan.steps, plan.steps[d].out;
    StepMachine(env, steps, n - 1);
    var regs := MachineAt(env, steps, n - 1).regs;
    if n == d + 1 {
      RunBefore(env, steps, d, d);
      RegistersWritten(env, steps, d);
      OutFresh(steps, d);
      OnlyAssertsIssue(env, regs, steps[d].op.value);
      assert regs[x := Written(env, steps, d)] - {x} == regs;
    } else {
      RunAfter(env, plan, d, n - 1);
      RunOneMore(env, steps, n);
      RunOneMore(env, Without(steps, d), n - 1);
      RunStepWithout(env, x, MachineAt(env, steps, n - 1), MachineAt(env, Without(steps, d), n - 2), n - 1, n - 2, steps[n - 1]);
    }
  }

  lemma {:induction false} OutputBlocksWithout(p: Primitives, outputs: seq<string>, n: nat, x: string, regs: Registers)
    requires n <= |outputs| && x !in outputs
    ensures OutputBlocks(p, outputs, n, regs - {x}) == OutputBlocks(p, outputs, n, regs)
  {
    if n > 0 {
      OutputBlocksWithout(p, outputs, n - 1, x, regs);
    }
  }

  function DropStep(plan: RmvmPlan, d: nat): RmvmPlan
    requires d < |plan.steps|
  {
    plan.(steps := Without(plan.steps, d))
  }

  lemma ValidateWithout(env: Env, power: nat -> real, plan: RmvmPlan, d: nat)
    requires IsCostPower(power) && IsDead(plan, d) && ValidateStatic(env, power, plan).Ok?
    ensures ValidateStatic(env, power, DropStep(plan, d)).Ok?
  {
    hide CheckStep;
    CheckAfter(env, power, plan, d, |plan.steps|);
    assert forall r :: r in plan.outputs ==> r != plan.steps[d].out;
  }

  lemma RenderWithout(p: Primitives, opts: ExecuteOptions, outputs: seq<string>, x: string, m: Machine, m': Machine)
    requires MachineWithout(x, m, m') && x !in outputs
    ensures RenderOutput(p, opts, outputs, m') == RenderOutput(p, opts, outputs, m)
  {
    OutputBlocksWithout(p, outputs, |outputs|, x, m.regs);
  }

  lemma DeadIs(plan: RmvmPlan, d: nat)
    requires IsDead(plan, d)
    ensures d < |plan.steps| && plan.steps[d].out !in plan.outputs
  {
  }

  lemma SameAssertions(x: string, m: Machine, m': Machine)
    requires MachineWithout(x, m, m')
    ensures m'.assertions == m.assertions
  {
  }

  lemma DeadStepFinishes(p: Primitives, m: PublicManifest, plan: RmvmPlan, opts: ExecuteOptions, d: nat, machine: Machine, rendered: RenderedOutput)
    returns (machine': Machine)
    requires IsCostPower(p.power) && IsDead(plan, d) && DistinctOuts(plan.steps)
    requires Finishes(p, m, plan, opts, machine, rendered)
    ensures Finishes(p, m, DropStep(plan, d), opts, machine', rendered) && machine'.assertions == machine.assertions
  {
    hide ValidateStatic, RunPrefix, RenderOutput, MachineWithout, IsDead, DistinctOuts;
    var env := MakeEnv(m, opts);
    assert d < |plan.steps| && plan.steps[d].out !in plan.outputs by { DeadIs(plan, d); }
    ValidateWithout(env, p.power, plan, d);
    RunAfter(env, plan, d, |plan.steps|);
    machine' := MachineAt(env, Without(plan.steps, d), |plan.steps| - 1);
    RenderWithout(p, opts, plan.outputs, plan.steps[d].out, machine, machine');
    assert machine'.assertions == machine.assertions by { SameAssertions(plan.steps[d].out, machine, machine'); }
  }

  /** Deleting a dead step of an OK request keeps it OK with the same assertions, proofs and rendering. */
  lemma DeadStepRemoval(p: Primitives, m: PublicManifest, plan: RmvmPlan, opts: ExecuteOptions, d: nat)
    requires IsCostPower(p.power) && ExecutePlan(p, m, plan, opts).Ok? && IsDead(plan, d)
    ensures var r, r' := ExecutePlan(p, m, plan, opts), ExecutePlan(p, m, DropStep(plan, d), opts);
            && r'.Ok?
            && r'.value.assertions == r.value.assertions
            && r'.value.proof.semanticRoot == r.value.proof.semanticRoot
            && r'.value.proof.inclusion == r.value.proof.inclusion
            && r'.value.rendered == r.value.rendered
  {
    var machine, rendered := OkFinishes(p, m, plan, opts);
    OkRun(p, m, plan, opts);
    var machine' := DeadStepFinishes(p, m, plan, opts, d, machine, rendered);
    FinishedRun(p, m, plan, opts, machine, rendered);
    FinishedRun(p, m, DropStep(plan, d), opts, machine', rendered);
  }
}
