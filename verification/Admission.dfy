/** Exactly when ASSERT issues, and exactly when a request stalls. */
module Admission {
  import opened Wrappers
  import opened Proto
  import opened Text
  import opened Handles
  import opened Semantics
  import opened Runs
  import opened Citations
  import opened Grounding
  import Narrative

  // ASSERT.

  /** A binding ASSERT can use: its register was written by FETCH or PROJECT and has a value at the path. */
  predicate Bindable(regs: Registers, b: ValueRef) {
    && b.reg in regs
    && regs[b.reg].source in {FromFetch, FromProject}
    && ExtractBinding(regs[b.reg], b.fieldPath).Ok?
  }

  lemma BindStepOk(regs: Registers, name: string, b: ValueRef, g: Gathered)
    ensures BindStep(regs, name, b, g).Ok? <==> Bindable(regs, b)
  {
    hide ExtractBinding;
  }

  lemma {:induction false} BindPrefixOk(regs: Registers, bindings: map<string, ValueRef>, keys: seq<string>, n: nat)
    requires n <= |keys| && forall k :: k in keys ==> k in bindings
    ensures BindPrefix(regs, bindings, keys, n).Ok? <==> forall i :: 0 <= i < n ==> Bindable(regs, bindings[keys[i]])
  {
    hide BindStep, Bindable;
    if n > 0 {
      BindPrefixOk(regs, bindings, keys, n - 1);
      var r := BindPrefix(regs, bindings, keys, n - 1);
      if r.Ok? { BindStepOk(regs, keys[n - 1], bindings[keys[n - 1]], r.value); }
    }
  }

  lemma GatherOk(regs: Registers, bindings: map<string, ValueRef>)
    ensures Gather(regs, bindings).Ok? <==> forall k :: k in bindings ==> Bindable(regs, bindings[k])
  {
    var keys := SortedKeys(bindings.Keys);
    BindPrefixOk(regs, bindings, keys, |keys|);
    forall k | k in bindings && Gather(regs, bindings).Ok? ensures Bindable(regs, bindings[k]) {
      assert k in keys;
    }
    forall i | 0 <= i < |keys| ensures keys[i] in bindings {
      assert keys[i] in bindings.Keys;
    }
  }

  /** Register `r` lets a preference, decision or procedure rest on it. */
  predicate PassesPolicy(r: RegValue) {
    TrustRank(r.minTrust) >= TrustRank(Tier2Verified) && !HasUntrustedTaint(r.taint)
  }

  predicate Unbroken(opts: ExecuteOptions, r: RegValue) {
    forall ref | ref in r.provenance :: !IsBroken(opts, ref)
  }

  /** The gates, stated on the registers the bindings name. */
  ghost predicate Admissible(env: Env, regs: Registers, op: Op)
    requires op.AssertOp?
  {
    var t := AssertionTypeFromI32(op.assertionType);
    && t != AssertUnspecified
    && (forall k :: k in op.bindings ==> Bindable(regs, op.bindings[k]) && Unbroken(env.opts, regs[op.bindings[k].reg]))
    && (RequiresTier2(t) ==> op.bindings != map[] && forall k :: k in op.bindings ==> PassesPolicy(regs[op.bindings[k].reg]))
    && (forall c :: c in op.citations ==> Citable(env.opts, c))
  }

  lemma CitationsOk(opts: ExecuteOptions, cites: seq<CitationRef>, provenance: set<string>)
    requires forall ref :: ref in provenance ==> !IsBroken(opts, ref)
    ensures CanonicalizeCitations(opts, cites, provenance).Ok? <==> forall c :: c in cites ==> Citable(opts, c)
  {
    CitePrefixMeans(opts, cites, |cites|);
    forall c | c in cites && CitePrefix(opts, cites, |cites|).Ok? ensures Citable(opts, c) {
      var i :| 0 <= i < |cites| && cites[i] == c;
    }
  }

  /** The trust and taint gates on the union hold exactly when they hold for every bound register. */
  lemma PolicyPointwise(regs: Registers, bindings: map<string, ValueRef>, g: Gathered)
    requires GatheredFrom(g, regs, bindings, bindings.Keys)
    ensures TrustRank(AssertTrust(g)) >= TrustRank(Tier2Verified) && !HasUntrustedTaint(g.taint)
            <==> bindings != map[] && forall k :: k in bindings ==> PassesPolicy(regs[bindings[k].reg])
  {
    assert g.fields.Keys == bindings.Keys;
    assert g.fields == map[] <==> bindings == map[];
  }

  lemma UnbrokenPointwise(opts: ExecuteOptions, regs: Registers, bindings: map<string, ValueRef>, g: Gathered)
    requires GatheredFrom(g, regs, bindings, bindings.Keys)
    ensures (forall ref :: ref in g.provenance ==> !IsBroken(opts, ref))
            <==> forall k :: k in bindings ==> Unbroken(opts, regs[bindings[k].reg])
  {
  }

  /** What ASSERT checks once its bindings are gathered. */
  ghost predicate GatesPass(env: Env, op: Op, g: Gathered)
    requires op.AssertOp?
  {
    var t := AssertionTypeFromI32(op.assertionType);
    && t != AssertUnspecified
    && (RequiresTier2(t) ==> TrustRank(AssertTrust(g)) >= TrustRank(Tier2Verified) && !HasUntrustedTaint(g.taint))
    && (forall ref :: ref in g.provenance ==> !IsBroken(env.opts, ref))
    && CanonicalizeCitations(env.opts, op.citations, g.provenance).Ok?
  }

  lemma GatesPointwise(env: Env, regs: Registers, op: Op, g: Gathered)
    requires op.AssertOp? && Gather(regs, op.bindings) == Ok(g)
    ensures GatesPass(env, op, g) <==> Admissible(env, regs, op)
  {
    hide CanonicalizeCitations, Citable, IsBroken, PassesPolicy, HasUntrustedTaint, AssertTrust, Gather, Unbroken, TrustRank, AssertionTypeFromI32,
      GatheredFrom, Bindable;
    GatherOk(regs, op.bindings);
    GatherFacts(regs, op.bindings);
    PolicyPointwise(regs, op.bindings, g);
    UnbrokenPointwise(env.opts, regs, op.bindings, g);
    if forall ref :: ref in g.provenance ==> !IsBroken(env.opts, ref) {
      CitationsOk(env.opts, op.citations, g.provenance);
    }
  }

  /**
    ASSERT issues exactly when its type is known, every binding can be used, no bound register has
    broken lineage, every citation can be made and, for a preference, decision or procedure, there is
    a binding and every bound register alone passes the trust and taint gates.
   */
  lemma AssertIssuesExactly(env: Env, regs: Registers, op: Op)
    requires op.AssertOp?
    ensures ExecOp(env, regs, op).Ok? <==> Admissible(env, regs, op)
  {
    hide Gather, CanonicalizeCitations, GatheredFrom, Citable, IsBroken, Bindable, Unbroken, PassesPolicy, HasUntrustedTaint, AssertTrust;
    GatherOk(regs, op.bindings);
    if Gather(regs, op.bindings).Ok? {
      GatesPointwise(env, regs, op, Gather(regs, op.bindings).value);
    }
  }

  // Stalls.

  predicate Stalled<T>(r: Outcome<T>) {
    r.Stop? && r.reason.Stall?
  }

  /** If at all, stopped by a rejection that is not for an unknown name and not from the cost guard. */
  predicate Late<T>(r: Outcome<T>) {
    r.Stop? ==> r.reason.Failure? && r.reason.code !in {UnknownHandleRef, UnknownSelectorRef, CostGuardRejected}
  }

  lemma {:induction false} ParamsLate(specs: map<string, ParamSpec>, params: map<string, Value>, keys: seq<string>, n: nat)
    requires n <= |keys| && forall k :: k in keys ==> k in params
    ensures Late(CheckParamPrefix(specs, params, keys, n))
  {
    if n > 0 {
      ParamsLate(specs, params, keys, n - 1);
    }
  }

  lemma CheckParamsLate(specs: seq<ParamSpec>, params: map<string, Value>)
    ensures Late(CheckParams(specs, params))
  {
    var keys := SortedKeys(params.Keys);
    ParamsLate(SpecsByName(specs), params, keys, |keys|);
  }

  lemma {:induction false} CheckNeverStalls(env: Env, power: nat -> real, steps: seq<Step>, n: nat)
    requires n <= |steps|
    ensures !Stalled(CheckPrefix(env, power, steps, n))
  {
    hide CheckParams, StepCost, OutDepth, Operands, Blank;
    if n > 0 {
      CheckNeverStalls(env, power, steps, n - 1);
      var op := steps[n - 1].op;
      if op.Some? && op.value.ApplySelector? && op.value.selectorRef in env.selectors {
        CheckParamsLate(env.selectors[op.value.selectorRef].params, op.value.params);
      }
    }
  }

  lemma {:induction false} FilterLate(hs: seq<HandleRef>, n: nat, filterRef: string, params: map<string, Value>)
    requires n <= |hs|
    ensures Late(FilterPrefix(hs, n, filterRef, params))
  {
    if n > 0 {
      FilterLate(hs, n - 1, filterRef, params);
    }
  }

  lemma {:induction false} BindLate(regs: Registers, bindings: map<string, ValueRef>, keys: seq<string>, n: nat)
    requires n <= |keys| && forall k :: k in keys ==> k in bindings
    ensures Late(BindPrefix(regs, bindings, keys, n))
  {
    if n > 0 {
      BindLate(regs, bindings, keys, n - 1);
    }
  }

  lemma {:induction false} CiteLate(opts: ExecuteOptions, cites: seq<CitationRef>, n: nat)
    requires n <= |cites|
    ensures Late(CitePrefix(opts, cites, n))
  {
    if n > 0 {
      CiteLate(opts, cites, n - 1);
    }
  }

  lemma {:induction false} TemplateLate(showFloat: real -> string, gs: seq<Narrative.Segment>, n: nat, assertions: seq<VerifiedAssertion>)
    requires n <= |gs|
    ensures Late(Narrative.RenderPrefix(showFloat, gs, n, assertions))
  {
    if n > 0 {
      TemplateLate(showFloat, gs, n - 1, assertions);
    }
  }

  lemma {:induction false} RenderingLate(p: Primitives, templates: seq<string>, n: nat, assertions: seq<VerifiedAssertion>)
    requires n <= |templates|
    ensures Late(NarrativePrefix(p, templates, n, assertions))
  {
    if n > 0 {
      RenderingLate(p, templates, n - 1, assertions);
      var gs := Narrative.Scan(p.foreignDigit, templates[n - 1]);
      TemplateLate(p.showFloat, gs, |gs|, assertions);
    }
  }

  lemma AssertLate(env: Env, regs: Registers, op: Op)
    requires op.AssertOp?
    ensures Late(ExecOp(env, regs, op))
  {
    var keys := SortedKeys(op.bindings.Keys);
    BindLate(regs, op.bindings, keys, |keys|);
    CiteLate(env.opts, op.citations, |op.citations|);
  }

  lemma FilterOpLate(env: Env, regs: Registers, op: Op)
    requires op.Filter?
    ensures Late(ExecOp(env, regs, op))
  {
    var reg := Register(regs, op.inReg);
    if reg.Ok? && AsHandles(reg.value).Ok? {
      var hs := AsHandles(reg.value).value;
      FilterLate(hs, |hs|, op.filterRef, op.params);
    }
  }

  lemma SelectorNeverStalls(env: Env, regs: Registers, op: Op)
    requires op.ApplySelector?
    ensures !Stalled(ExecOp(env, regs, op))
  {
    hide CheckParams, Selected, Refs, Taints, SelectedTrust;
    if op.selectorRef in env.selectors {
      CheckParamsLate(env.selectors[op.selectorRef].params, op.params);
    }
  }

  /** `op` fetches a handle that is not ready and may not be fetched in part. */
  predicate FetchesUnready(env: Env, op: Op) {
    && op.Fetch? && op.handleRef in env.handlesByRef
    && AvailabilityFromI32(env.handlesByRef[op.handleRef].availability) != Ready
    && !env.opts.allowPartialOnStall
  }

  function StallOn(h: HandleRef): StallInfo {
    StallInfo(h.ref, h.availability, "ticket:" + h.ref)
  }

  lemma OpStallsExactly(env: Env, regs: Registers, op: Op)
    ensures Stalled(ExecOp(env, regs, op)) <==> FetchesUnready(env, op)
    ensures FetchesUnready(env, op) ==> ExecOp(env, regs, op).reason.info == StallOn(env.handlesByRef[op.handleRef])
  {
    match op
    case Fetch(_) =>
    case ApplySelector(_, _) => SelectorNeverStalls(env, regs, op);
    case Filter(_, _, _) => FilterOpLate(env, regs, op);
    case AssertOp(_, _, _) => AssertLate(env, regs, op);
    case _ =>
  }

  /** `op` stalls, and names the handle it fetches. */
  predicate StallsOn(env: Env, op: Op, info: StallInfo) {
    FetchesUnready(env, op) && info == StallOn(env.handlesByRef[op.handleRef])
  }

  /** The run reaches step `i`, which stalls. */
  ghost predicate StallsAt(env: Env, steps: seq<Step>, i: nat, info: StallInfo)
    requires i < |steps|
  {
    RunPrefix(env, steps, i).Ok? && steps[i].op.Some? && StallsOn(env, steps[i].op.value, info)
  }

  lemma StepStallsExactly(env: Env, steps: seq<Step>, i: nat, info: StallInfo)
    requires i < |steps|
    ensures RunPrefix(env, steps, i + 1) == Stop(Stall(info))
            <==> RunPrefix(env, steps, i) == Stop(Stall(info)) || StallsAt(env, steps, i, info)
  {
    hide ExecOp;
    if RunPrefix(env, steps, i).Ok? && steps[i].op.Some? {
      OpStallsExactly(env, MachineAt(env, steps, i).regs, steps[i].op.value);
    }
  }

  /** One of the first `n` steps stalls. */
  ghost predicate StallsBefore(env: Env, steps: seq<Step>, n: nat, info: StallInfo)
    requires n <= |steps|
  {
    exists i :: 0 <= i < n && StallsAt(env, steps, i, info)
  }

  lemma StallsBeforeNext(env: Env, steps: seq<Step>, n: nat, info: StallInfo)
    requires 0 < n <= |steps|
    ensures StallsBefore(env, steps, n, info) <==> StallsBefore(env, steps, n - 1, info) || StallsAt(env, steps, n - 1, info)
  {
    hide StallsAt;
  }

  lemma NothingStalls(env: Env, steps: seq<Step>, info: StallInfo)
    ensures RunPrefix(env, steps, 0).Ok? && !StallsBefore(env, steps, 0, info)
  {
    hide StallsAt;
  }

  lemma {:induction false} RunStallsExactly(env: Env, steps: seq<Step>, n: nat, info: StallInfo)
    requires n <= |steps|
    ensures RunPrefix(env, steps, n) == Stop(Stall(info)) <==> StallsBefore(env, steps, n, info)
  {
    hide RunPrefix, StallsAt, StallsBefore;
    if n == 0 {
      NothingStalls(env, steps, info);
    } else {
      RunStallsExactly(env, steps, n - 1, info);
      StepStallsExactly(env, steps, n - 1, info);
      StallsBeforeNext(env, steps, n, info);
    }
  }

  /**
    A request stalls exactly when it passes the checks before the run and the run reaches a FETCH of a
    handle that is not ready, without partial results allowed; the response then names that handle.
   */
  lemma StallsExactly(p: Primitives, m: PublicManifest, plan: RmvmPlan, opts: ExecuteOptions, info: StallInfo)
    ensures var env := MakeEnv(m, opts);
            ExecutePlan(p, m, plan, opts) == Stop(Stall(info))
            <==> && !RequestIdsClash(m, plan) && ValidateStatic(env, p.power, plan).Ok?
                 && StallsBefore(env, plan.steps, |plan.steps|, info)
  {
    var env, n := MakeEnv(m, opts), |plan.steps|;
    CheckNeverStalls(env, p.power, plan.steps, n);
    RunStallsExactly(env, plan.steps, n, info);
    var run := RunPrefix(env, plan.steps, n);
    if run.Ok? {
      RenderingLate(p, opts.narrativeTemplates, |opts.narrativeTemplates|, run.value.assertions);
    }
  }

  // What the run can still meet after the check.

  lemma OpLate(env: Env, regs: Registers, op: Op, declared: set<string>, depths: map<string, nat>)
    requires WellIndexed(env) && ListedIndexed(env) && CheckOp(env, op, declared, depths).Ok?
    ensures Late(ExecOp(env, regs, op)) || FetchesUnready(env, op)
  {
    match op
    case Fetch(_) =>
    case ApplySelector(sel, params) => SelectorStopsExactly(env, sel, params);
    case Filter(_, _, _) => FilterOpLate(env, regs, op);
    case AssertOp(_, _, _) => AssertLate(env, regs, op);
    case _ =>
  }

  /** Every listed handle is found by its ref. */
  ghost predicate ListedIndexed(env: Env) {
    forall h :: h in env.handles ==> h.ref in env.handlesByRef
  }

  /** A selector call the check accepted stops on too many matches, on no match for a single handle, and on an unspecified return type, and on nothing else. */
  lemma SelectorStopsExactly(env: Env, sel: string, params: map<string, Value>)
    requires sel in env.selectors && CheckParams(env.selectors[sel].params, params).Ok?
    ensures var r, kind := ExecApplySelector(env, sel, params), SelectorReturnFromI32(env.selectors[sel].returnType);
            if |Selected(env, params)| > env.budget.maxFanout then r == Reject(GraphTraversalLimit)
            else if kind == ReturnHandle && Selected(env, params) == [] then r == Reject(TypeMismatch)
            else if kind == ReturnUnspecified then r == Reject(SchemaViolation)
            else r.Ok?
  {
    hide CheckParams, Selected, Refs, Taints, SelectedTrust;
  }

  lemma {:induction false} RunLate(env: Env, power: nat -> real, steps: seq<Step>, n: nat)
    requires n <= |steps| && WellIndexed(env) && ListedIndexed(env) && CheckPrefix(env, power, steps, n).Ok?
    ensures Late(RunPrefix(env, steps, n)) || Stalled(RunPrefix(env, steps, n))
  {
    hide ExecOp, CheckOp, CheckStep, StepCost, OutDepth, WellIndexed, ListedIndexed, FetchesUnready;
    if n > 0 {
      StepChecked(env, power, steps, n - 1);
      RunLate(env, power, steps, n - 1);
      if RunPrefix(env, steps, n - 1).Ok? {
        var op, regs := steps[n - 1].op.value, MachineAt(env, steps, n - 1).regs;
        var s := CheckPrefix(env, power, steps, n - 1).value;
        OpLate(env, regs, op, s.declared + {steps[n - 1].out}, s.joinDepth);
        OpStallsExactly(env, regs, op);
      }
    }
  }

  /** A request that passed the static check is never rejected for an unknown handle, an unknown selector or its cost. */
  lemma AcceptedRejections(p: Primitives, m: PublicManifest, plan: RmvmPlan, opts: ExecuteOptions)
    requires ValidateStatic(MakeEnv(m, opts), p.power, plan).Ok?
    ensures Late(ExecutePlan(p, m, plan, opts)) || Stalled(ExecutePlan(p, m, plan, opts))
  {
    hide CheckPrefix, RunPrefix, NormalizeBudget, HandlesIndex, SelectorsIndex;
    var env := MakeEnv(m, opts);
    MakeEnvIndexes(m, opts);
    HandlesIndexSound(m.handles);
    RunLate(env, p.power, plan.steps, |plan.steps|);
    var run := RunPrefix(env, plan.steps, |plan.steps|);
    if run.Ok? {
      RenderingLate(p, opts.narrativeTemplates, |opts.narrativeTemplates|, run.value.assertions);
    }
  }

  /** The fanout limit of FILTER is never met: it keeps no more than its input, which is within the limit. */
  lemma FilterFanoutUnreachable(env: Env, steps: seq<Step>, i: nat)
    requires i < |steps| && WellIndexed(env) && RunPrefix(env, steps, i).Ok? && steps[i].op.Some? && steps[i].op.value.Filter?
    ensures ExecOp(env, MachineAt(env, steps, i).regs, steps[i].op.value) != Reject(GraphTraversalLimit)
  {
    hide RunPrefix, WellIndexed, Behind;
    RunGrounded(env, steps, i);
    FilterWithinInput(env, steps, i, MachineAt(env, steps, i).regs, steps[i].op.value);
  }

  lemma FilterWithinInput(env: Env, steps: seq<Step>, n: nat, regs: Registers, op: Op)
    requires n <= |steps| && WellIndexed(env) && RegsOk(env, steps, n, regs) && op.Filter?
    ensures ExecOp(env, regs, op) != Reject(GraphTraversalLimit)
  {
    hide Behind, SortByRef;
    if op.inReg in regs && AsHandles(regs[op.inReg]).Ok? {
      var hs := AsHandles(regs[op.inReg]).value;
      AsHandlesOk(env, steps, Behind(steps, Definer(steps, n, op.inReg).value), regs[op.inReg]);
      FilterCodes(hs, |hs|, op.filterRef, op.params);
    }
  }

  lemma {:induction false} FilterCodes(hs: seq<HandleRef>, n: nat, filterRef: string, params: map<string, Value>)
    requires n <= |hs|
    ensures FilterPrefix(hs, n, filterRef, params).Stop? ==> FilterPrefix(hs, n, filterRef, params) == Reject(SchemaViolation)
  {
    if n > 0 {
      FilterCodes(hs, n - 1, filterRef, params);
    }
  }
}
