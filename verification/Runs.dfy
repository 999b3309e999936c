/**
  Facts about plan runs that the theorems share: runs and checks by prefix, which step defined a
  register, what a successful opcode says about its operands.
 */
module Runs {
  import opened Wrappers
  import opened Proto
  import opened Text
  import opened Handles
  import opened Semantics

  lemma {:induction false} CheckPrefixMonotone(env: Env, power: nat -> real, steps: seq<Step>, k: nat, n: nat)
    requires k <= n <= |steps| && CheckPrefix(env, power, steps, n).Ok?
    ensures CheckPrefix(env, power, steps, k).Ok?
  {
    hide CheckStep;
    if k < n {
      CheckPrefixMonotone(env, power, steps, k, n - 1);
    }
  }

  lemma {:induction false} RunPrefixMonotone(env: Env, steps: seq<Step>, k: nat, n: nat)
    requires k <= n <= |steps| && RunPrefix(env, steps, n).Ok?
    ensures RunPrefix(env, steps, k).Ok?
  {
    hide RunStep;
    if k < n {
      RunPrefixMonotone(env, steps, k, n - 1);
    }
  }

  lemma {:induction false} RunPrefixStops(env: Env, steps: seq<Step>, k: nat, n: nat)
    requires k <= n <= |steps| && RunPrefix(env, steps, k).Stop?
    ensures RunPrefix(env, steps, n) == RunPrefix(env, steps, k)
  {
    hide RunStep;
    if k < n {
      RunPrefixStops(env, steps, k, n - 1);
    }
  }

  lemma {:induction false} CheckPrefixStops(env: Env, power: nat -> real, steps: seq<Step>, k: nat, n: nat)
    requires k <= n <= |steps| && CheckPrefix(env, power, steps, k).Stop?
    ensures CheckPrefix(env, power, steps, n) == CheckPrefix(env, power, steps, k)
  {
    hide CheckStep;
    if k < n {
      CheckPrefixStops(env, power, steps, k, n - 1);
    }
  }

  /** Every step carries an operation. */
  predicate HasOps(steps: seq<Step>) {
    forall i :: 0 <= i < |steps| ==> steps[i].op.Some?
  }

  function Outs(steps: seq<Step>, n: nat): set<string>
    requires n <= |steps|
  {
    set i | 0 <= i < n :: steps[i].out
  }

  /** Each register is written once. */
  ghost predicate DistinctOuts(steps: seq<Step>) {
    forall i, j :: 0 <= i < j < |steps| ==> steps[i].out != steps[j].out
  }

  lemma OutsExtend(steps: seq<Step>, n: nat)
    requires 0 < n <= |steps|
    ensures Outs(steps, n) == Outs(steps, n - 1) + {steps[n - 1].out}
  {
  }

  lemma OutFresh(steps: seq<Step>, i: nat)
    requires i < |steps| && DistinctOuts(steps)
    ensures steps[i].out !in Outs(steps, i)
  {
  }

  /** The effect of one accepted step on the check's state. */
  lemma StepChecked(env: Env, power: nat -> real, steps: seq<Step>, i: nat)
    requires i < |steps| && CheckPrefix(env, power, steps, i + 1).Ok?
    ensures CheckPrefix(env, power, steps, i).Ok? && steps[i].op.Some?
    ensures var s, t := CheckPrefix(env, power, steps, i).value, CheckPrefix(env, power, steps, i + 1).value;
            var depth := OutDepth(steps[i].op.value, s.joinDepth);
            && steps[i].out !in s.declared
            && CheckOp(env, steps[i].op.value, s.declared + {steps[i].out}, s.joinDepth).Ok?
            && t.declared == s.declared + {steps[i].out}
            && t.joinDepth == (if depth > 0 then s.joinDepth[steps[i].out := depth] else s.joinDepth)
            && t.totalCost == s.totalCost + StepCost(env, power, steps[i].op.value)
  {
  }

  /** One more step after the outcome so far. */
  function CheckNext(env: Env, power: nat -> real, r: Outcome<StaticState>, step: Step): Outcome<StaticState> {
    var s :- r;
    CheckStep(env, power, s, step)
  }

  lemma CheckOneMore(env: Env, power: nat -> real, steps: seq<Step>, n: nat)
    requires 0 < n <= |steps|
    ensures CheckPrefix(env, power, steps, n) == CheckNext(env, power, CheckPrefix(env, power, steps, n - 1), steps[n - 1])
  {
    hide CheckStep;
  }

  lemma {:induction false} CheckedSteps(env: Env, power: nat -> real, steps: seq<Step>, n: nat)
    requires n <= |steps| && CheckPrefix(env, power, steps, n).Ok?
    ensures CheckPrefix(env, power, steps, n).value.declared == Outs(steps, n)
    ensures forall i :: 0 <= i < n ==> steps[i].op.Some? && !Blank(steps[i].out)
    ensures forall i, j :: 0 <= i < j < n ==> steps[i].out != steps[j].out
  {
    hide CheckOp, StepCost, OutDepth;
    if n > 0 {
      CheckedSteps(env, power, steps, n - 1);
      OutsExtend(steps, n);
      forall i | 0 <= i < n - 1 ensures steps[i].out != steps[n - 1].out {
        assert steps[i].out in Outs(steps, n - 1);
      }
    }
  }

  /** A run that reached step `n` and the machine it left. */
  function MachineAt(env: Env, steps: seq<Step>, n: nat): Machine
    requires n <= |steps| && RunPrefix(env, steps, n).Ok?
  {
    RunPrefix(env, steps, n).value
  }

  /** The register value that step `i` wrote. */
  function Written(env: Env, steps: seq<Step>, i: nat): RegValue
    requires i < |steps| && RunPrefix(env, steps, i + 1).Ok?
  {
    RunPrefix(env, steps, i + 1).value.regs[steps[i].out]
  }

  lemma StepRan(env: Env, steps: seq<Step>, i: nat)
    requires i < |steps| && RunPrefix(env, steps, i + 1).Ok?
    ensures RunPrefix(env, steps, i).Ok? && steps[i].op.Some?
    ensures ExecOp(env, MachineAt(env, steps, i).regs, steps[i].op.value).Ok?
    ensures Written(env, steps, i) == ExecOp(env, MachineAt(env, steps, i).regs, steps[i].op.value).value.reg
  {
  }

  /** The machine one step later. */
  lemma StepMachine(env: Env, steps: seq<Step>, i: nat)
    requires i < |steps| && RunPrefix(env, steps, i + 1).Ok?
    ensures RunPrefix(env, steps, i).Ok? && steps[i].op.Some?
    ensures ExecOp(env, MachineAt(env, steps, i).regs, steps[i].op.value).Ok?
    ensures var m, m' := MachineAt(env, steps, i), MachineAt(env, steps, i + 1);
            var r := ExecOp(env, m.regs, steps[i].op.value).value;
            && Written(env, steps, i) == r.reg
            && m'.regs == m.regs[steps[i].out := r.reg]
            && m'.assertions == (if r.assertion.Some? then m.assertions + [r.assertion.value] else m.assertions)
            && m'.trace == m.trace + [TraceToken(i, steps[i].out, steps[i].op.value)]
  {
    hide ExecOp, TraceToken;
  }

  /** One more step after the outcome so far. */
  function RunNext(env: Env, r: Outcome<Machine>, idx: nat, step: Step): Outcome<Machine> {
    var m :- r;
    RunStep(env, m, idx, step)
  }

  lemma RunOneMore(env: Env, steps: seq<Step>, n: nat)
    requires 0 < n <= |steps|
    ensures RunPrefix(env, steps, n) == RunNext(env, RunPrefix(env, steps, n - 1), n - 1, steps[n - 1])
  {
    hide RunStep;
  }

  lemma NothingRan(env: Env, steps: seq<Step>)
    ensures RunPrefix(env, steps, 0) == Ok(MACHINE_START)
  {
  }

  /** The last step before `n` that writes `r`. */
  function Definer(steps: seq<Step>, n: nat, r: string): (d: Option<nat>)
    requires n <= |steps|
    ensures d.Some? ==> d.value < n && steps[d.value].out == r
    ensures d.None? <==> r !in Outs(steps, n)
  {
    if n == 0 then None
    else if steps[n - 1].out == r then Some(n - 1)
    else Definer(steps, n - 1, r)
  }

  lemma {:induction false} RegistersWritten(env: Env, steps: seq<Step>, n: nat)
    requires n <= |steps| && RunPrefix(env, steps, n).Ok?
    ensures MachineAt(env, steps, n).regs.Keys == Outs(steps, n)
  {
    hide ExecOp, RunPrefix, TraceToken;
    if n == 0 {
      NothingRan(env, steps);
    } else {
      StepMachine(env, steps, n - 1);
      RegistersWritten(env, steps, n - 1);
      OutsExtend(steps, n);
    }
  }

  /** Reading a register yields what its definer wrote. */
  lemma {:induction false} ReadsDefiner(env: Env, steps: seq<Step>, n: nat, r: string)
    requires n <= |steps| && RunPrefix(env, steps, n).Ok? && r in MachineAt(env, steps, n).regs
    ensures Definer(steps, n, r).Some?
    ensures RunPrefix(env, steps, Definer(steps, n, r).value + 1).Ok?
    ensures MachineAt(env, steps, n).regs[r] == Written(env, steps, Definer(steps, n, r).value)
  {
    hide ExecOp, RunPrefix, TraceToken;
    RegistersWritten(env, steps, n);
    StepMachine(env, steps, n - 1);
    if steps[n - 1].out != r {
      ReadsDefiner(env, steps, n - 1, r);
    }
  }

  lemma {:induction false} DefinerOfOut(steps: seq<Step>, n: nat, i: nat)
    requires i < n <= |steps| && DistinctOuts(steps)
    ensures Definer(steps, n, steps[i].out) == Some(i)
  {
    if i < n - 1 {
      DefinerOfOut(steps, n - 1, i);
    }
  }

  // What a successful ASSERT has gathered.

  ghost predicate FieldsFrom(fields: map<string, Value>, regs: Registers, bindings: map<string, ValueRef>, names: set<string>)
    requires names <= bindings.Keys
  {
    && fields.Keys == names
    && (forall k :: k in names ==>
        && bindings[k].reg in regs
        && regs[bindings[k].reg].source in {FromFetch, FromProject}
        && ExtractBinding(regs[bindings[k].reg], bindings[k].fieldPath) == Ok(fields[k]))
  }

  ghost predicate ProvenanceFrom(provenance: set<string>, regs: Registers, bindings: map<string, ValueRef>, names: set<string>)
    requires names <= bindings.Keys && forall k :: k in names ==> bindings[k].reg in regs
  {
    forall x :: x in provenance <==> exists k :: k in names && x in regs[bindings[k].reg].provenance
  }

  ghost predicate TaintFrom(taint: set<int>, regs: Registers, bindings: map<string, ValueRef>, names: set<string>)
    requires names <= bindings.Keys && forall k :: k in names ==> bindings[k].reg in regs
  {
    forall t :: t in taint <==> exists k :: k in names && t in regs[bindings[k].reg].taint
  }

  ghost predicate TrustFrom(trust: TrustTier, regs: Registers, bindings: map<string, ValueRef>, names: set<string>)
    requires names <= bindings.Keys && forall k :: k in names ==> bindings[k].reg in regs
  {
    && (forall k :: k in names ==> TrustRank(trust) <= TrustRank(regs[bindings[k].reg].minTrust))
    && (names == {} ==> trust == Tier4PolicySigned)
    && (names != {} ==> exists k :: k in names && trust == regs[bindings[k].reg].minTrust)
  }

  /** What binding `names` gathers: their values, and the merged metadata of the registers they read. */
  ghost predicate GatheredFrom(g: Gathered, regs: Registers, bindings: map<string, ValueRef>, names: set<string>)
    requires names <= bindings.Keys
  {
    && FieldsFrom(g.fields, regs, bindings, names)
    && ProvenanceFrom(g.provenance, regs, bindings, names)
    && TaintFrom(g.taint, regs, bindings, names)
    && TrustFrom(g.minTrust, regs, bindings, names)
  }

  function FirstKeys(keys: seq<string>, n: nat): set<string>
    requires n <= |keys|
  {
    set i | 0 <= i < n :: keys[i]
  }

  /** What one successful binding adds. */
  lemma BindStepAdds(regs: Registers, name: string, b: ValueRef, g: Gathered)
    requires BindStep(regs, name, b, g).Ok?
    ensures b.reg in regs && regs[b.reg].source in {FromFetch, FromProject} && ExtractBinding(regs[b.reg], b.fieldPath).Ok?
    ensures BindStep(regs, name, b, g).value == Gathered(
              g.fields[name := ExtractBinding(regs[b.reg], b.fieldPath).value],
              g.provenance + regs[b.reg].provenance,
              g.taint + regs[b.reg].taint,
              MinTier(g.minTrust, regs[b.reg].minTrust))
  {
    hide ExtractBinding;
  }

  lemma ProvenanceStep(provenance: set<string>, regs: Registers, bindings: map<string, ValueRef>, names: set<string>, name: string)
    requires names + {name} <= bindings.Keys && forall k :: k in names + {name} ==> bindings[k].reg in regs
    requires ProvenanceFrom(provenance, regs, bindings, names)
    ensures ProvenanceFrom(provenance + regs[bindings[name].reg].provenance, regs, bindings, names + {name})
  {
    forall x | x in provenance + regs[bindings[name].reg].provenance
      ensures exists k :: k in names + {name} && x in regs[bindings[k].reg].provenance
    {
      if x in provenance {
        var k :| k in names && x in regs[bindings[k].reg].provenance;
        assert k in names + {name};
      } else {
        assert name in names + {name};
      }
    }
  }

  lemma TaintStep(taint: set<int>, regs: Registers, bindings: map<string, ValueRef>, names: set<string>, name: string)
    requires names + {name} <= bindings.Keys && forall k :: k in names + {name} ==> bindings[k].reg in regs
    requires TaintFrom(taint, regs, bindings, names)
    ensures TaintFrom(taint + regs[bindings[name].reg].taint, regs, bindings, names + {name})
  {
    forall t | t in taint + regs[bindings[name].reg].taint
      ensures exists k :: k in names + {name} && t in regs[bindings[k].reg].taint
    {
      if t in taint {
        var k :| k in names && t in regs[bindings[k].reg].taint;
        assert k in names + {name};
      } else {
        assert name in names + {name};
      }
    }
  }

  lemma TrustStep(trust: TrustTier, regs: Registers, bindings: map<string, ValueRef>, names: set<string>, name: string)
    requires names + {name} <= bindings.Keys && forall k :: k in names + {name} ==> bindings[k].reg in regs
    requires TrustFrom(trust, regs, bindings, names)
    ensures TrustFrom(MinTier(trust, regs[bindings[name].reg].minTrust), regs, bindings, names + {name})
  {
    TierBounds(regs[bindings[name].reg].minTrust);
    assert name in names + {name};
    if names != {} {
      var k :| k in names && trust == regs[bindings[k].reg].minTrust;
      assert k in names + {name};
    }
  }

  lemma GatherStep(regs: Registers, bindings: map<string, ValueRef>, names: set<string>, name: string, g: Gathered)
    requires names <= bindings.Keys && name in bindings && GatheredFrom(g, regs, bindings, names) && name !in names
    requires BindStep(regs, name, bindings[name], g).Ok?
    ensures GatheredFrom(BindStep(regs, name, bindings[name], g).value, regs, bindings, names + {name})
  {
    hide BindStep, ExtractBinding, MinTier, ProvenanceFrom, TaintFrom, TrustFrom;
    BindStepAdds(regs, name, bindings[name], g);
    assert forall k :: k in names + {name} ==> bindings[k].reg in regs;
    ProvenanceStep(g.provenance, regs, bindings, names, name);
    TaintStep(g.taint, regs, bindings, names, name);
    TrustStep(g.minTrust, regs, bindings, names, name);
  }

  lemma FirstKeysNext(keys: seq<string>, n: nat)
    requires 0 < n <= |keys| && Ascending(keys)
    ensures FirstKeys(keys, n) == FirstKeys(keys, n - 1) + {keys[n - 1]} && keys[n - 1] !in FirstKeys(keys, n - 1)
  {
    forall i | 0 <= i < n - 1 ensures keys[i] != keys[n - 1] {
      LessAsymmetric(keys[i], keys[n - 1]);
    }
  }

  lemma NothingGatheredYet(regs: Registers, bindings: map<string, ValueRef>, keys: seq<string>)
    ensures FirstKeys(keys, 0) == {} && GatheredFrom(NOTHING_GATHERED, regs, bindings, {})
  {
  }

  lemma {:induction false} GatherPrefix(regs: Registers, bindings: map<string, ValueRef>, keys: seq<string>, n: nat)
    requires n <= |keys| && Ascending(keys) && forall k :: k in keys ==> k in bindings
    requires BindPrefix(regs, bindings, keys, n).Ok?
    ensures FirstKeys(keys, n) <= bindings.Keys
    ensures GatheredFrom(BindPrefix(regs, bindings, keys, n).value, regs, bindings, FirstKeys(keys, n))
  {
    hide BindStep, GatheredFrom, Ascending, FirstKeys;
    if n == 0 {
      NothingGatheredYet(regs, bindings, keys);
    } else {
      GatherPrefix(regs, bindings, keys, n - 1);
      FirstKeysNext(keys, n);
      GatherStep(regs, bindings, FirstKeys(keys, n - 1), keys[n - 1], BindPrefix(regs, bindings, keys, n - 1).value);
    }
  }

  lemma GatherFacts(regs: Registers, bindings: map<string, ValueRef>)
    requires Gather(regs, bindings).Ok?
    ensures GatheredFrom(Gather(regs, bindings).value, regs, bindings, bindings.Keys)
  {
    var keys := SortedKeys(bindings.Keys);
    SortedKeysAscend(bindings.Keys);
    GatherPrefix(regs, bindings, keys, |keys|);
    assert FirstKeys(keys, |keys|) == bindings.Keys by {
      forall k ensures k in FirstKeys(keys, |keys|) <==> k in bindings.Keys {
        assert k in keys <==> k in bindings.Keys;
      }
    }
  }

  /** What ASSERT writes once its gates pass. */
  function AssertRegister(g: Gathered): RegValue {
    RegValue(Struct(g.fields), g.provenance, g.taint, AssertTrust(g), 0, FromAssert)
  }

  lemma AssertWrites(env: Env, regs: Registers, op: Op)
    requires op.AssertOp? && ExecOp(env, regs, op).Ok?
    ensures Gather(regs, op.bindings).Ok?
    ensures ExecOp(env, regs, op).value.reg == AssertRegister(Gather(regs, op.bindings).value)
  {
  }

  /** A successful opcode found all its operands. */
  lemma OperandsPresent(env: Env, regs: Registers, op: Op)
    requires ExecOp(env, regs, op).Ok?
    ensures Operands(op) <= regs.Keys
  {
    if op.AssertOp? {
      GatherFacts(regs, op.bindings);
    }
  }

  // Requests that end in OK.

  /** Everything an OK request went through. */
  lemma OkRun(p: Primitives, m: PublicManifest, plan: RmvmPlan, opts: ExecuteOptions)
    requires ExecutePlan(p, m, plan, opts).Ok?
    ensures var env := MakeEnv(m, opts);
            && |plan.steps| <= env.budget.maxOps
            && CheckPrefix(env, p.power, plan.steps, |plan.steps|).Ok?
            && CheckPrefix(env, p.power, plan.steps, |plan.steps|).value.totalCost <= env.budget.maxTotalCost
            && (forall r :: r in plan.outputs ==> r in Outs(plan.steps, |plan.steps|))
            && RunPrefix(env, plan.steps, |plan.steps|).Ok?
            && DistinctOuts(plan.steps)
            && ExecutePlan(p, m, plan, opts).value.assertions == MachineAt(env, plan.steps, |plan.steps|).assertions
  {
    var env := MakeEnv(m, opts);
    CheckedSteps(env, p.power, plan.steps, |plan.steps|);
  }

  /** When a request is OK, and what it then returns. */
  ghost predicate Finishes(p: Primitives, m: PublicManifest, plan: RmvmPlan, opts: ExecuteOptions, machine: Machine, rendered: RenderedOutput) {
    && !RequestIdsClash(m, plan)
    && ValidateStatic(MakeEnv(m, opts), p.power, plan).Ok?
    && RunPrefix(MakeEnv(m, opts), plan.steps, |plan.steps|) == Ok(machine)
    && RenderOutput(p, opts, plan.outputs, machine) == Ok(rendered)
  }

  lemma FinishedRun(p: Primitives, m: PublicManifest, plan: RmvmPlan, opts: ExecuteOptions, machine: Machine, rendered: RenderedOutput)
    requires Finishes(p, m, plan, opts, machine, rendered)
    ensures ExecutePlan(p, m, plan, opts) == Ok(Success(machine.assertions, BuildProof(p, machine.assertions, machine.trace), rendered))
  {
  }

  lemma OkFinishes(p: Primitives, m: PublicManifest, plan: RmvmPlan, opts: ExecuteOptions) returns (machine: Machine, rendered: RenderedOutput)
    requires ExecutePlan(p, m, plan, opts).Ok?
    ensures Finishes(p, m, plan, opts, machine, rendered)
  {
    machine := RunPrefix(MakeEnv(m, opts), plan.steps, |plan.steps|).value;
    rendered := RenderOutput(p, opts, plan.outputs, machine).value;
  }

  // Which step made which assertion.

  predicate IsAssertStep(s: Step) {
    s.op.Some? && s.op.value.AssertOp?
  }

  /** The ASSERT steps among the first `n`, in order. */
  function AssertSteps(steps: seq<Step>, n: nat): (r: seq<nat>)
    requires n <= |steps|
    ensures forall k :: 0 <= k < |r| ==> r[k] < n && IsAssertStep(steps[r[k]])
  {
    if n == 0 then []
    else if IsAssertStep(steps[n - 1]) then AssertSteps(steps, n - 1) + [n - 1]
    else AssertSteps(steps, n - 1)
  }

  /** The assertion step `i` issues. */
  function Issued(env: Env, steps: seq<Step>, i: nat): Option<VerifiedAssertion>
    requires i < |steps| && RunPrefix(env, steps, i + 1).Ok?
  {
    StepRan(env, steps, i);
    ExecOp(env, MachineAt(env, steps, i).regs, steps[i].op.value).value.assertion
  }

  lemma OnlyAssertsIssue(env: Env, regs: Registers, op: Op)
    requires ExecOp(env, regs, op).Ok?
    ensures ExecOp(env, regs, op).value.assertion.Some? <==> op.AssertOp?
  {
  }

  /** Assertion `k` of a run is the one issued by its `k`-th ASSERT step. */
  lemma {:induction false} AssertionsInOrder(env: Env, steps: seq<Step>, n: nat, k: nat)
    requires n <= |steps| && RunPrefix(env, steps, n).Ok? && k < |AssertSteps(steps, n)|
    ensures |MachineAt(env, steps, n).assertions| == |AssertSteps(steps, n)|
    ensures RunPrefix(env, steps, AssertSteps(steps, n)[k] + 1).Ok?
    ensures Issued(env, steps, AssertSteps(steps, n)[k]) == Some(MachineAt(env, steps, n).assertions[k])
  {
    hide ExecOp, RunPrefix, TraceToken;
    StepMachine(env, steps, n - 1);
    OnlyAssertsIssue(env, MachineAt(env, steps, n - 1).regs, steps[n - 1].op.value);
    AssertionCount(env, steps, n - 1);
    AssertionCount(env, steps, n);
    if k < |AssertSteps(steps, n - 1)| {
      AssertionsInOrder(env, steps, n - 1, k);
      assert AssertSteps(steps, n)[k] == AssertSteps(steps, n - 1)[k];
    } else {
      assert AssertSteps(steps, n)[k] == n - 1;
    }
  }

  lemma {:induction false} AssertionCount(env: Env, steps: seq<Step>, n: nat)
    requires n <= |steps| && RunPrefix(env, steps, n).Ok?
    ensures |MachineAt(env, steps, n).assertions| == |AssertSteps(steps, n)|
  {
    hide ExecOp, RunPrefix, TraceToken;
    if n == 0 {
      NothingRan(env, steps);
    } else {
      StepMachine(env, steps, n - 1);
      OnlyAssertsIssue(env, MachineAt(env, steps, n - 1).regs, steps[n - 1].op.value);
      AssertionCount(env, steps, n - 1);
    }
  }

  /** Handles found by ref are handles of the manifest. */
  ghost predicate WellIndexed(env: Env) {
    && env.budget.maxFanout > 0
    && (forall r :: r in env.handlesByRef ==> env.handlesByRef[r] in env.handles && env.handlesByRef[r].ref == r)
  }

  lemma MakeEnvIndexes(m: PublicManifest, opts: ExecuteOptions)
    ensures WellIndexed(MakeEnv(m, opts))
  {
    HandlesIndexSound(m.handles);
  }
}
