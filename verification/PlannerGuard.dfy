/**
  The plan validators that run before the kernel (the Rust planner guard and the two SDKs), what they
  accept, and how that compares with the kernel's own static check and with OK runs.
 */
module PlannerGuard {
  import opened Wrappers
  import opened Proto
  import opened Text
  import opened Handles
  import opened Semantics
  import opened Runs
  import opened StaticDynamic

  function HandleNames(m: PublicManifest): set<string> {
    set h | h in m.handles :: h.ref
  }

  function SelectorNames(m: PublicManifest): set<string> {
    set s | s in m.selectors :: s.sel
  }

  /** The handle or selector an operation names is in the manifest. */
  predicate RefsKnown(handles: set<string>, selectors: set<string>, op: Op) {
    (op.Fetch? ==> op.handleRef in handles) && (op.ApplySelector? ==> op.selectorRef in selectors)
  }

  /** Step `i` passes the planner guard: its own output already counts as defined. */
  predicate GuardAdmits(handles: set<string>, selectors: set<string>, steps: seq<Step>, i: nat)
    requires i < |steps|
  {
    && !Blank(steps[i].out)
    && steps[i].out !in Outs(steps, i)
    && steps[i].op.Some?
    && RefsKnown(handles, selectors, steps[i].op.value)
    && Operands(steps[i].op.value) <= Outs(steps, i + 1)
  }

  predicate GuardAccepts(plan: RmvmPlan, m: PublicManifest) {
    forall i :: 0 <= i < |plan.steps| ==> GuardAdmits(HandleNames(m), SelectorNames(m), plan.steps, i)
  }

  /** `validate_plan_against_manifest` of the planner guard. */
  method ValidatePlanAgainstManifest(plan: RmvmPlan, m: PublicManifest) returns (ok: bool)
    ensures ok <==> GuardAccepts(plan, m)
  {
    var handleRefs, selectorRefs := HandleNames(m), SelectorNames(m);
    var regs: set<string> := {};
    for i := 0 to |plan.steps|
      invariant regs == Outs(plan.steps, i)
      invariant forall j :: 0 <= j < i ==> GuardAdmits(handleRefs, selectorRefs, plan.steps, j)
    {
      var step := plan.steps[i];
      OutsExtend(plan.steps, i + 1);
      if Blank(step.out) || step.out in regs || step.op.None? {
        assert !GuardAdmits(handleRefs, selectorRefs, plan.steps, i);
        return false;
      }
      regs := regs + {step.out};
      if !RefsKnown(handleRefs, selectorRefs, step.op.value) || !(Operands(step.op.value) <= regs) {
        assert !GuardAdmits(handleRefs, selectorRefs, plan.steps, i);
        return false;
      }
    }
    ok := true;
  }

  // The SDK plan types always carry an operation.

  datatype SdkStep = SdkStep(out: string, op: Op)

  datatype SdkPlan = SdkPlan(requestId: string, steps: seq<SdkStep>, outputs: seq<string>)

  function SdkOuts(steps: seq<SdkStep>, n: nat): set<string>
    requires n <= |steps|
  {
    set i | 0 <= i < n :: steps[i].out
  }

  /** Step `i` passes an SDK validator: only earlier outputs count as defined. */
  predicate SdkAdmits(handles: set<string>, selectors: set<string>, steps: seq<SdkStep>, i: nat)
    requires i < |steps|
  {
    && steps[i].out != ""
    && steps[i].out !in SdkOuts(steps, i)
    && RefsKnown(handles, selectors, steps[i].op)
    && Operands(steps[i].op) <= SdkOuts(steps, i)
  }

  predicate SdkAccepts(plan: SdkPlan, m: PublicManifest) {
    forall i :: 0 <= i < |plan.steps| ==> SdkAdmits(HandleNames(m), SelectorNames(m), plan.steps, i)
  }

  /** The Python and TypeScript validators: the output is added only after the operands were checked. */
  method SdkValidate(plan: SdkPlan, m: PublicManifest) returns (ok: bool)
    ensures ok <==> SdkAccepts(plan, m)
  {
    var handleRefs, selectorRefs := HandleNames(m), SelectorNames(m);
    var regs: set<string> := {};
    for i := 0 to |plan.steps|
      invariant regs == SdkOuts(plan.steps, i)
      invariant forall j :: 0 <= j < i ==> SdkAdmits(handleRefs, selectorRefs, plan.steps, j)
    {
      var step := plan.steps[i];
      if step.out == "" || step.out in regs || !RefsKnown(handleRefs, selectorRefs, step.op) || !(Operands(step.op) <= regs) {
        assert !SdkAdmits(handleRefs, selectorRefs, plan.steps, i);
        return false;
      }
      regs := regs + {step.out};
    }
    ok := true;
  }

  function ToSdk(plan: RmvmPlan): (r: SdkPlan)
    requires HasOps(plan.steps)
    ensures |r.steps| == |plan.steps|
    ensures forall i :: 0 <= i < |plan.steps| ==> r.steps[i] == SdkStep(plan.steps[i].out, plan.steps[i].op.value)
  {
    SdkPlan(plan.requestId, seq(|plan.steps|, i requires 0 <= i < |plan.steps| => SdkStep(plan.steps[i].out, plan.steps[i].op.value)), plan.outputs)
  }

  // The guard against the kernel's check.

  lemma SelectorKnown(m: PublicManifest, opts: ExecuteOptions, sel: string)
    ensures sel in MakeEnv(m, opts).selectors <==> sel in SelectorNames(m)
  {
    SelectorsIndexSound(m.selectors);
    if sel in MakeEnv(m, opts).selectors {
      assert SelectorsIndex(m.selectors)[sel] in m.selectors;
    }
  }

  lemma HandleKnown(m: PublicManifest, ref: string)
    ensures (exists h :: h in m.handles && h.ref == ref) <==> ref in HandleNames(m)
  {
  }

  /** What the kernel's check demands of an operation beyond the guard. */
  predicate Budgeted(env: Env, steps: seq<Step>, i: nat)
    requires i < |steps| && steps[i].op.Some?
  {
    var op := steps[i].op.value;
    && (op.Join? ==> PlanDepth(steps, i) <= env.budget.maxJoinDepth)
    && (op.ApplySelector? && op.selectorRef in env.selectors ==> ParamsTyped(env.selectors[op.selectorRef].params, op.params))
  }

  lemma CheckOpExactly(m: PublicManifest, opts: ExecuteOptions, op: Op, declared: set<string>, depths: map<string, nat>)
    ensures var env := MakeEnv(m, opts);
            CheckOp(env, op, declared, depths).Ok?
            <==> && RefsKnown(HandleNames(m), SelectorNames(m), op)
                 && Operands(op) <= declared
                 && (op.Join? ==> OutDepth(op, depths) <= env.budget.maxJoinDepth)
                 && (op.ApplySelector? && op.selectorRef in env.selectors ==> ParamsTyped(env.selectors[op.selectorRef].params, op.params))
  {
    if op.ApplySelector? {
      SelectorKnown(m, opts, op.selectorRef);
      if op.selectorRef in MakeEnv(m, opts).selectors {
        CheckParamsOk(MakeEnv(m, opts).selectors[op.selectorRef].params, op.params);
      }
    } else if op.Fetch? {
      HandleKnown(m, op.handleRef);
    }
  }

  lemma StepExactly(m: PublicManifest, opts: ExecuteOptions, power: nat -> real, steps: seq<Step>, i: nat)
    requires i < |steps| && CheckPrefix(MakeEnv(m, opts), power, steps, i).Ok?
    ensures CheckPrefix(MakeEnv(m, opts), power, steps, i + 1).Ok?
            <==> GuardAdmits(HandleNames(m), SelectorNames(m), steps, i) && Budgeted(MakeEnv(m, opts), steps, i)
  {
    hide CheckStep, StepCost, CheckOp, Blank, RefsKnown;
    var env := MakeEnv(m, opts);
    var s := CheckPrefix(env, power, steps, i).value;
    CheckedSteps(env, power, steps, i);
    CheckComputesDepth(env, power, steps, i);
    OutsExtend(steps, i + 1);
    if steps[i].op.Some? {
      OutDepthIsPlanDepth(s.joinDepth, steps, i);
      CheckOpExactly(m, opts, steps[i].op.value, s.declared + {steps[i].out}, s.joinDepth);
    }
    CheckOneStep(env, power, steps, i, s);
  }

  lemma CheckOneStep(env: Env, power: nat -> real, steps: seq<Step>, i: nat, s: StaticState)
    requires i < |steps| && CheckPrefix(env, power, steps, i) == Ok(s)
    ensures CheckPrefix(env, power, steps, i + 1).Ok?
            <==> !Blank(steps[i].out) && steps[i].out !in s.declared && steps[i].op.Some?
                 && CheckOp(env, steps[i].op.value, s.declared + {steps[i].out}, s.joinDepth).Ok?
  {
  }

  lemma {:induction false} PrefixExactly(m: PublicManifest, opts: ExecuteOptions, power: nat -> real, steps: seq<Step>, n: nat)
    requires n <= |steps|
    ensures CheckPrefix(MakeEnv(m, opts), power, steps, n).Ok?
            <==> forall i :: 0 <= i < n ==> GuardAdmits(HandleNames(m), SelectorNames(m), steps, i) && Budgeted(MakeEnv(m, opts), steps, i)
  {
    hide GuardAdmits, Budgeted, CheckStep;
    if n > 0 {
      PrefixExactly(m, opts, power, steps, n - 1);
      if CheckPrefix(MakeEnv(m, opts), power, steps, n - 1).Ok? {
        StepExactly(m, opts, power, steps, n - 1);
      } else {
        CheckPrefixStops(MakeEnv(m, opts), power, steps, n - 1, n);
      }
    }
  }

  function TotalCost(env: Env, power: nat -> real, steps: seq<Step>, n: nat): real
    requires n <= |steps|
  {
    if n == 0 then 0.0
    else TotalCost(env, power, steps, n - 1) + if steps[n - 1].op.Some? then StepCost(env, power, steps[n - 1].op.value) else 0.0
  }

  lemma {:induction false} CheckSumsCost(env: Env, power: nat -> real, steps: seq<Step>, n: nat)
    requires n <= |steps| && CheckPrefix(env, power, steps, n).Ok?
    ensures CheckPrefix(env, power, steps, n).value.totalCost == TotalCost(env, power, steps, n)
  {
    hide StepCost, CheckOp, OutDepth, CheckStep;
    if n > 0 {
      StepChecked(env, power, steps, n - 1);
      CheckSumsCost(env, power, steps, n - 1);
    }
  }

  lemma SplitConditions(m: PublicManifest, opts: ExecuteOptions, plan: RmvmPlan)
    ensures (forall i :: 0 <= i < |plan.steps| ==>
               GuardAdmits(HandleNames(m), SelectorNames(m), plan.steps, i) && Budgeted(MakeEnv(m, opts), plan.steps, i))
            <==> GuardAccepts(plan, m)
                 && forall i :: 0 <= i < |plan.steps| && plan.steps[i].op.Some? ==> Budgeted(MakeEnv(m, opts), plan.steps, i)
  {
    hide Budgeted, MakeEnv, Blank, RefsKnown, Operands, Outs, HandleNames, SelectorNames;
    if GuardAccepts(plan, m) {
      forall i | 0 <= i < |plan.steps| ensures plan.steps[i].op.Some? {
        assert GuardAdmits(HandleNames(m), SelectorNames(m), plan.steps, i);
      }
    }
  }

  /**
    The kernel's static check accepts exactly the plans the guard accepts that also keep the op count,
    the join depth, the parameter types, the total cost and the listed outputs in order.
   */
  lemma StaticCheckExactly(m: PublicManifest, opts: ExecuteOptions, power: nat -> real, plan: RmvmPlan)
    ensures var env := MakeEnv(m, opts);
            ValidateStatic(env, power, plan).Ok?
            <==> && GuardAccepts(plan, m)
                 && |plan.steps| <= env.budget.maxOps
                 && (forall i :: 0 <= i < |plan.steps| && plan.steps[i].op.Some? ==> Budgeted(env, plan.steps, i))
                 && TotalCost(env, power, plan.steps, |plan.steps|) <= env.budget.maxTotalCost
                 && (forall r :: r in plan.outputs ==> r in Outs(plan.steps, |plan.steps|))
  {
    hide CheckPrefix, CheckStep, GuardAccepts, GuardAdmits, Budgeted, MakeEnv, TotalCost;
    var env := MakeEnv(m, opts);
    PrefixExactly(m, opts, power, plan.steps, |plan.steps|);
    SplitConditions(m, opts, plan);
    if CheckPrefix(env, power, plan.steps, |plan.steps|).Ok? {
      CheckSumsCost(env, power, plan.steps, |plan.steps|);
      CheckedSteps(env, power, plan.steps, |plan.steps|);
    }
  }

  /** No false rejections: a plan the kernel runs to OK passes the planner guard and both SDK validators. */
  lemma OkPlansPassValidators(p: Primitives, m: PublicManifest, plan: RmvmPlan, opts: ExecuteOptions)
    requires ExecutePlan(p, m, plan, opts).Ok?
    ensures GuardAccepts(plan, m)
    ensures HasOps(plan.steps) && SdkAccepts(ToSdk(plan), m)
  {
    hide ExecutePlan, RunPrefix, CheckPrefix, Written, Operands, RefsKnown, Blank, NormalizeBudget;
    OkRun(p, m, plan, opts);
    var _, _ := OkFinishes(p, m, plan, opts);
    StaticCheckExactly(m, opts, p.power, plan);
    forall i | 0 <= i < |plan.steps| ensures plan.steps[i].op.Some? {
      assert GuardAdmits(HandleNames(m), SelectorNames(m), plan.steps, i);
    }
    var sdk := ToSdk(plan).steps;
    forall i | 0 <= i < |sdk| ensures SdkAdmits(HandleNames(m), SelectorNames(m), sdk, i) {
      assert GuardAdmits(HandleNames(m), SelectorNames(m), plan.steps, i);
      RunMatchesCheck(p, m, plan, opts, i);
      assert SdkOuts(sdk, i) == Outs(plan.steps, i);
      BlankIffWhitespace(plan.steps[i].out);
    }
  }

  /** The SDKs are stricter than the guard by exactly the self-reads and laxer by exactly the blank, non-empty names. */
  lemma SdkAgainstGuard(m: PublicManifest, plan: RmvmPlan)
    requires HasOps(plan.steps)
    ensures GuardAccepts(plan, m) && (forall i :: 0 <= i < |plan.steps| ==> plan.steps[i].out !in Operands(plan.steps[i].op.value))
            <==> SdkAccepts(ToSdk(plan), m) && (forall i :: 0 <= i < |plan.steps| ==> !Blank(plan.steps[i].out))
  {
    var sdk := ToSdk(plan).steps;
    forall i | 0 <= i < |sdk|
      ensures GuardAdmits(HandleNames(m), SelectorNames(m), plan.steps, i) && plan.steps[i].out !in Operands(plan.steps[i].op.value)
              <==> SdkAdmits(HandleNames(m), SelectorNames(m), sdk, i) && !Blank(plan.steps[i].out)
    {
      assert SdkOuts(sdk, i) == Outs(plan.steps, i);
      OutsExtend(plan.steps, i + 1);
      BlankIffWhitespace(plan.steps[i].out);
    }
  }
}
