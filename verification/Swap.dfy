/** Swapping two adjacent steps that do not read each other changes nothing but the trace. */
module Swap {
  import opened Wrappers
  import opened Proto
  import opened Semantics
  import opened Runs
  import opened StaticDynamic
  import opened Renaming
  import opened DeadStep

  function Swapped(steps: seq<Step>, d: nat): (r: seq<Step>)
    requires d + 1 < |steps|
    ensures |r| == |steps| && r[d] == steps[d + 1] && r[d + 1] == steps[d]
    ensures forall i :: 0 <= i < |steps| && i != d && i != d + 1 ==> r[i] == steps[i]
  {
    steps[d := steps[d + 1]][d + 1 := steps[d]]
  }

  /** The second step does not read what the first writes, and at most one of the two asserts. */
  ghost predicate Independent(steps: seq<Step>, d: nat) {
    && d + 1 < |steps|
    && (steps[d + 1].op.Some? ==> steps[d].out !in Operands(steps[d + 1].op.value))
    && !(IsAssertStep(steps[d]) && IsAssertStep(steps[d + 1]))
  }

  // Static check.

  /** What a step adds to the state does not depend on a register it does not read. */
  lemma CheckWithMore(env: Env, power: nat -> real, s: StaticState, t: StaticState, step: Step, x: string)
    requires CheckStep(env, power, s, step).Ok?
    requires x !in Operands(step.op.value) && x != step.out
    requires forall r :: r != x ==> (r in s.declared <==> r in t.declared) && DepthIn(s.joinDepth, r) == DepthIn(t.joinDepth, r)
    ensures CheckStep(env, power, t, step).Ok?
    ensures var op := step.op.value;
            CheckStep(env, power, t, step).value == Added(env, power, t, step.out, op, OutDepth(op, s.joinDepth))
  {
    hide CheckOp, StepCost, OutDepth, Operands;
    var op := step.op.value;
    CheckOpRenamed(env, Same, op, s.declared + {step.out}, t.declared + {step.out}, s.joinDepth, t.joinDepth);
    SameRenaming(op);
  }

  function Added(env: Env, power: nat -> real, t: StaticState, out: string, op: Op, depth: nat): StaticState {
    StaticState(t.declared + {out}, if depth > 0 then t.joinDepth[out := depth] else t.joinDepth, t.totalCost + StepCost(env, power, op))
  }

  lemma CheckAdds(env: Env, power: nat -> real, s: StaticState, step: Step)
    requires CheckStep(env, power, s, step).Ok?
    ensures step.op.Some? && step.out !in s.declared
    ensures CheckStep(env, power, s, step).value == Added(env, power, s, step.out, step.op.value, OutDepth(step.op.value, s.joinDepth))
  {
    hide CheckOp, StepCost, OutDepth;
  }

  /** The depth map holds declared registers only. */
  ghost predicate DepthsDeclared(s: StaticState) {
    forall r :: r in s.joinDepth ==> r in s.declared
  }

  /** Two checked steps, neither reading the other, lead to the same state in either order. */
  lemma TwoChecks(env: Env, power: nat -> real, s: StaticState, a: Step, b: Step)
    requires DepthsDeclared(s) && CheckStep(env, power, s, a).Ok? && CheckStep(env, power, CheckStep(env, power, s, a).value, b).Ok?
    requires a.out !in Operands(b.op.value) && b.out !in Operands(a.op.value)
    ensures CheckStep(env, power, s, b).Ok?
    ensures CheckStep(env, power, CheckStep(env, power, s, b).value, a)
            == CheckStep(env, power, CheckStep(env, power, s, a).value, b)
  {
    hide CheckStep, StepCost, OutDepth, Operands;
    var s1 := CheckStep(env, power, s, a).value;
    CheckAdds(env, power, s, a);
    CheckAdds(env, power, s1, b);
    var da, db := OutDepth(a.op.value, s.joinDepth), OutDepth(b.op.value, s1.joinDepth);
    CheckWithMore(env, power, s1, s, b, a.out);
    var t1 := CheckStep(env, power, s, b).value;
    assert t1 == Added(env, power, s, b.out, b.op.value, db);
    CheckWithMore(env, power, s, t1, a, b.out);
    AddedCommutes(env, power, s, a.out, a.op.value, da, b.out, b.op.value, db);
  }

  lemma AddedCommutes(env: Env, power: nat -> real, s: StaticState, a: string, opA: Op, da: nat, b: string, opB: Op, db: nat)
    requires a != b
    ensures Added(env, power, Added(env, power, s, a, opA, da), b, opB, db) == Added(env, power, Added(env, power, s, b, opB, db), a, opA, da)
  {
    hide StepCost;
    var x, y := Added(env, power, Added(env, power, s, a, opA, da), b, opB, db), Added(env, power, Added(env, power, s, b, opB, db), a, opA, da);
    assert x.declared == y.declared;
    assert x.joinDepth == y.joinDepth;
  }

  lemma {:induction false} CheckSame(env: Env, power: nat -> real, steps: seq<Step>, steps': seq<Step>, k: nat, n: nat)
    requires k <= n <= |steps| == |steps'| && CheckPrefix(env, power, steps', k) == CheckPrefix(env, power, steps, k)
    requires forall i :: k <= i < n ==> steps'[i] == steps[i]
    ensures CheckPrefix(env, power, steps', n) == CheckPrefix(env, power, steps, n)
  {
    hide CheckPrefix;
    if k < n {
      CheckSame(env, power, steps, steps', k, n - 1);
      CheckOneMore(env, power, steps, n);
      CheckOneMore(env, power, steps', n);
    }
  }

  lemma CheckStarts(env: Env, power: nat -> real, steps: seq<Step>)
    ensures CheckPrefix(env, power, steps, 0) == Ok(STATIC_START)
  {
  }

  lemma ChecksDeclared(env: Env, power: nat -> real, steps: seq<Step>, n: nat)
    requires n <= |steps| && CheckPrefix(env, power, steps, n).Ok?
    ensures DepthsDeclared(CheckPrefix(env, power, steps, n).value)
  {
    hide CheckPrefix;
    CheckedSteps(env, power, steps, n);
    CheckComputesDepth(env, power, steps, n);
  }

  /** The check reaches the same state after both steps, whatever it says of the plan. */
  lemma CheckSwapped(env: Env, power: nat -> real, steps: seq<Step>, d: nat)
    requires Independent(steps, d) && CheckPrefix(env, power, steps, |steps|).Ok?
    requires steps[d].op.Some? && steps[d + 1].out !in Operands(steps[d].op.value)
    ensures CheckPrefix(env, power, Swapped(steps, d), |steps|) == CheckPrefix(env, power, steps, |steps|)
  {
    hide CheckPrefix, CheckStep, Operands;
    var steps' := Swapped(steps, d);
    CheckStarts(env, power, steps);
    CheckStarts(env, power, steps');
    CheckSame(env, power, steps, steps', 0, d);
    CheckPrefixMonotone(env, power, steps, d, |steps|);
    CheckPrefixMonotone(env, power, steps, d + 1, |steps|);
    CheckPrefixMonotone(env, power, steps, d + 2, |steps|);
    ChecksDeclared(env, power, steps, d);
    CheckOneMore(env, power, steps, d + 1);
    CheckOneMore(env, power, steps, d + 2);
    CheckOneMore(env, power, steps', d + 1);
    CheckOneMore(env, power, steps', d + 2);
    StepChecked(env, power, steps, d + 1);
    TwoChecks(env, power, CheckPrefix(env, power, steps, d).value, steps[d], steps[d + 1]);
    CheckSame(env, power, steps, steps', d + 2, |steps|);
  }

  // Execution.

  /** The same registers and assertions; only the trace may differ. */
  ghost predicate SameButTrace(r: Outcome<Machine>, r': Outcome<Machine>) {
    r.Ok? && r'.Ok? && r'.value.regs == r.value.regs && r'.value.assertions == r.value.assertions
  }

  lemma StepSameButTrace(env: Env, m: Machine, m': Machine, idx: nat, step: Step)
    requires m'.regs == m.regs && m'.assertions == m.assertions && RunStep(env, m, idx, step).Ok?
    ensures SameButTrace(RunStep(env, m, idx, step), RunStep(env, m', idx, step))
  {
    hide ExecOp, TraceToken;
  }

  lemma {:induction false} RunSame(env: Env, steps: seq<Step>, steps': seq<Step>, k: nat, n: nat)
    requires k <= n <= |steps| == |steps'| && RunPrefix(env, steps, n).Ok?
    requires SameButTrace(RunPrefix(env, steps, k), RunPrefix(env, steps', k))
    requires forall i :: k <= i < n ==> steps'[i] == steps[i]
    ensures SameButTrace(RunPrefix(env, steps, n), RunPrefix(env, steps', n))
  {
    hide RunPrefix, RunStep;
    if k < n {
      RunPrefixMonotone(env, steps, n - 1, n);
      RunSame(env, steps, steps', k, n - 1);
      RunOneMore(env, steps, n);
      RunOneMore(env, steps', n);
      StepSameButTrace(env, RunPrefix(env, steps, n - 1).value, RunPrefix(env, steps', n - 1).value, n - 1, steps[n - 1]);
    }
  }

  /** An operation does not see a register it does not read. */
  lemma ExecOpWith(env: Env, regs: Registers, x: string, v: RegValue, op: Op)
    requires x !in Operands(op)
    ensures ExecOp(env, regs[x := v], op) == ExecOp(env, regs, op)
  {
    hide ExecOp, Operands;
    ExecOpRenamed(env, Same, regs, regs[x := v], op);
    SameRenaming(op);
  }

  /** Two steps that run, neither reading the other, run in either order. */
  lemma TwoSteps(env: Env, m: Machine, a: Step, b: Step, i: nat)
    requires RunStep(env, m, i, a).Ok? && RunStep(env, RunStep(env, m, i, a).value, i + 1, b).Ok?
    requires a.out !in Operands(b.op.value) && b.out !in Operands(a.op.value) && a.out != b.out
    requires !(IsAssertStep(a) && IsAssertStep(b))
    ensures RunStep(env, m, i, b).Ok?
    ensures SameButTrace(RunStep(env, RunStep(env, m, i, a).value, i + 1, b), RunStep(env, RunStep(env, m, i, b).value, i + 1, a))
  {
    hide ExecOp, TraceToken, Operands;
    var opA, opB := a.op.value, b.op.value;
    var ra := ExecOp(env, m.regs, opA).value;
    ExecOpWith(env, m.regs, a.out, ra.reg, opB);
    var rb := ExecOp(env, m.regs, opB).value;
    ExecOpWith(env, m.regs, b.out, rb.reg, opA);
    OnlyAssertsIssue(env, m.regs, opA);
    OnlyAssertsIssue(env, m.regs, opB);
    assert m.regs[a.out := ra.reg][b.out := rb.reg] == m.regs[b.out := rb.reg][a.out := ra.reg];
  }

  lemma RunSwapped(env: Env, steps: seq<Step>, d: nat)
    requires Independent(steps, d) && RunPrefix(env, steps, |steps|).Ok? && steps[d].out != steps[d + 1].out
    requires steps[d].op.Some? && steps[d + 1].out !in Operands(steps[d].op.value)
    ensures SameButTrace(RunPrefix(env, steps, |steps|), RunPrefix(env, Swapped(steps, d), |steps|))
  {
    hide RunPrefix, RunStep, Operands;
    var steps' := Swapped(steps, d);
    RunPrefixMonotone(env, steps, d, |steps|);
    RunPrefixMonotone(env, steps, d + 1, |steps|);
    RunPrefixMonotone(env, steps, d + 2, |steps|);
    NothingRan(env, steps);
    NothingRan(env, steps');
    SamePrefix(env, steps, steps', d);
    RunOneMore(env, steps, d + 1);
    RunOneMore(env, steps, d + 2);
    RunOneMore(env, steps', d + 1);
    RunOneMore(env, steps', d + 2);
    StepRan(env, steps, d + 1);
    TwoSteps(env, RunPrefix(env, steps, d).value, steps[d], steps[d + 1], d);
    RunSame(env, steps, steps', d + 2, |steps|);
  }

  lemma {:induction false} SamePrefix(env: Env, steps: seq<Step>, steps': seq<Step>, n: nat)
    requires n <= |steps| == |steps'| && forall i :: 0 <= i < n ==> steps'[i] == steps[i]
    ensures RunPrefix(env, steps', n) == RunPrefix(env, steps, n)
  {
    hide RunPrefix, RunStep;
    if n == 0 {
      NothingRan(env, steps);
      NothingRan(env, steps');
    } else {
      SamePrefix(env, steps, steps', n - 1);
      RunOneMore(env, steps, n);
      RunOneMore(env, steps', n);
    }
  }

  /** In an OK request no step reads what the next one writes. */
  lemma NextUnread(p: Primitives, m: PublicManifest, plan: RmvmPlan, opts: ExecuteOptions, d: nat)
    requires ExecutePlan(p, m, plan, opts).Ok? && d + 1 < |plan.steps|
    ensures plan.steps[d].op.Some? && plan.steps[d + 1].out !in Operands(plan.steps[d].op.value)
    ensures plan.steps[d].out != plan.steps[d + 1].out
  {
    hide ExecutePlan, Operands, MakeEnv, CheckPrefix, RunPrefix, Written;
    OkRun(p, m, plan, opts);
    RunMatchesCheck(p, m, plan, opts, d);
    OutFresh(plan.steps, d + 1);
    assert Outs(plan.steps, d) <= Outs(plan.steps, d + 1);
  }

  function SwapSteps(plan: RmvmPlan, d: nat): RmvmPlan
    requires d + 1 < |plan.steps|
  {
    plan.(steps := Swapped(plan.steps, d))
  }

  lemma RenderSameButTrace(p: Primitives, opts: ExecuteOptions, outputs: seq<string>, m: Machine, m': Machine)
    requires m'.regs == m.regs && m'.assertions == m.assertions
    ensures RenderOutput(p, opts, outputs, m') == RenderOutput(p, opts, outputs, m)
  {
  }

  lemma SwapFinishes(p: Primitives, m: PublicManifest, plan: RmvmPlan, opts: ExecuteOptions, d: nat, machine: Machine, rendered: RenderedOutput)
    returns (machine': Machine)
    requires Independent(plan.steps, d) && Finishes(p, m, plan, opts, machine, rendered)
    requires plan.steps[d].op.Some? && plan.steps[d + 1].out !in Operands(plan.steps[d].op.value) && plan.steps[d].out != plan.steps[d + 1].out
    ensures Finishes(p, m, SwapSteps(plan, d), opts, machine', rendered) && machine'.assertions == machine.assertions
  {
    hide CheckPrefix, RunPrefix, RenderOutput, MakeEnv, Operands;
    var env := MakeEnv(m, opts);
    CheckSwapped(env, p.power, plan.steps, d);
    RunSwapped(env, plan.steps, d);
    machine' := RunPrefix(env, Swapped(plan.steps, d), |plan.steps|).value;
    RenderSameButTrace(p, opts, plan.outputs, machine, machine');
  }

  /**
    Swapping two adjacent steps of an OK request, the second of which does not read the first and of
    which at most one asserts, keeps it OK with the same assertions, proofs and rendering.
   */
  lemma SwapPreservesMeaning(p: Primitives, m: PublicManifest, plan: RmvmPlan, opts: ExecuteOptions, d: nat)
    requires ExecutePlan(p, m, plan, opts).Ok? && Independent(plan.steps, d)
    ensures var r, r' := ExecutePlan(p, m, plan, opts), ExecutePlan(p, m, SwapSteps(plan, d), opts);
            && r'.Ok?
            && r'.value.assertions == r.value.assertions
            && r'.value.proof.semanticRoot == r.value.proof.semanticRoot
            && r'.value.proof.inclusion == r.value.proof.inclusion
            && r'.value.rendered == r.value.rendered
  {
    NextUnread(p, m, plan, opts, d);
    var machine, rendered := OkFinishes(p, m, plan, opts);
    var machine' := SwapFinishes(p, m, plan, opts, d, machine, rendered);
    FinishedRun(p, m, plan, opts, machine, rendered);
    FinishedRun(p, m, SwapSteps(plan, d), opts, machine', rendered);
    hide ExecutePlan, Finishes;
  }

  /** A step that the next one reads cannot be swapped with it: the swapped plan is never OK. */
  lemma DependentSwapStops(p: Primitives, m: PublicManifest, plan: RmvmPlan, opts: ExecuteOptions, d: nat)
    requires ExecutePlan(p, m, plan, opts).Ok? && d + 1 < |plan.steps|
    requires plan.steps[d + 1].op.Some? && plan.steps[d].out in Operands(plan.steps[d + 1].op.value)
    ensures ExecutePlan(p, m, SwapSteps(plan, d), opts).Stop?
  {
    hide ExecutePlan, Operands, MakeEnv, CheckPrefix, RunPrefix, Written;
    var plan' := SwapSteps(plan, d);
    if ExecutePlan(p, m, plan', opts).Ok? {
      OkRun(p, m, plan', opts);
      RunMatchesCheck(p, m, plan', opts, d);
    }
  }
}
