/** The deterministic fallback plan always runs: from any service history to one verified assertion. */
module Fallback {
  import opened Wrappers
  import opened Proto
  import opened Handles
  import opened Semantics
  import opened ThreeSteps
  import opened Service
  import opened Gates

  /** `deterministic_plan_from_manifest` */
  function FallbackPlan(requestId: string, subject: string, m: PublicManifest): Option<RmvmPlan> {
    if m.handles != [] then
      Some(RmvmPlan(requestId, Steps(Fetch(m.handles[0].ref), "meta.subject"), ["r2"]))
    else if m.selectors != [] then
      Some(RmvmPlan(requestId, Steps(ApplySelector(m.selectors[0].sel, map["subject" := S(subject)]), "set_count"), ["r2"]))
    else None
  }

  // The two cases.

  lemma SubjectField(h: HandleRef)
    requires h.meta.Some?
    ensures HandleField(h, "meta.subject") == Some(S(h.meta.value.subject))
  {
    var p := "meta.subject";
    assert p[4] == '.';
    assert |p| == 12;
    assert "signature_summary"[0] == 's' && "conflict_group_id"[0] == 'c' && "availability"[0] == 'a' && "type_id"[0] == 't' && "ref"[0] == 'r';
  }

  lemma EmptyCase(env: Env, subject: string)
    requires env.handles == [] && env.budget.maxFanout > 0
    requires "S0" in env.selectors && env.selectors["S0"] == SUBJECT_SELECTOR
    ensures CheckOp(env, ApplySelector("S0", map["subject" := S(subject)]), {"r0"}, map[]).Ok?
    ensures exists r0, r1 ::
              && Delivers(env, ApplySelector("S0", map["subject" := S(subject)]), "set_count", r0, r1)
              && r1.source == FromProject && r1.data == Struct(map["set_count" := I64(0)])
  {
    var params := map["subject" := S(subject)];
    var spec := SUBJECT_SELECTOR.params[0];
    LoneSpec(spec);
    assert ParamsTyped(SUBJECT_SELECTOR.params, params);
    CheckParamsOk(SUBJECT_SELECTOR.params, params);
    assert Selected(env, params) == [];
    var r0 := RegValue(HandleSet([]), Refs([]), Taints([]), TrustUnspecified, 0, FromApplySelector);
    assert ExecApplySelector(env, "S0", params) == Ok(r0);
    assert ProjectedPaths(r0.data, ["set_count"]) == {};
    var r1 := r0.(data := Struct(map["set_count" := I64(0)]), source := FromProject);
    assert ExecProject(map["r0" := r0], "r0", ["set_count"]).value.data.fields == r1.data.fields;
    assert Delivers(env, ApplySelector("S0", params), "set_count", r0, r1);
  }

  /**
    After any history of appends and forgets, the fallback plan for the service's manifest runs to OK
    with exactly one assertion: the subject of the first handle, or a count of zero when none is left.
    One row costs one unit, as 1^1.2 = 1.
   */
  lemma FallbackAlwaysOk(p: Primitives, history: seq<Request>, requestId: string, subject: string)
    requires p.power(1) == 1.0
    ensures var m := Manifest(After(history, |history|), requestId);
            var plan := FallbackPlan(requestId, subject, m);
            plan.Some? &&
            var resp := Execute(p, ExecuteRequest(Some(m), plan), DEFAULT_OPTIONS);
            && resp.status == StatusOk && |resp.assertions| == 1
            && resp.assertions[0].assertionType == AssertionNumber(AssertWorldFact)
            && (m.handles != [] ==> m.handles[0].meta.Some? && resp.assertions[0].fields == map["subject" := S(m.handles[0].meta.value.subject)])
            && (m.handles == [] ==> resp.assertions[0].fields == map["subject" := I64(0)])
  {
    var s := After(history, |history|);
    AlwaysValid(history, |history|);
    if Manifest(s, requestId).handles != [] {
      WithHandles(p, s, requestId);
    } else {
      WithoutHandles(p, s, requestId, subject);
    }
  }

  lemma WithHandles(p: Primitives, s: ServiceState, requestId: string)
    requires Valid(s) && Manifest(s, requestId).handles != []
    ensures var m := Manifest(s, requestId);
            m.handles[0].meta.Some? &&
            var plan := RmvmPlan(m.requestId, Steps(Fetch(m.handles[0].ref), "meta.subject"), ["r2"]);
            var resp := Execute(p, ExecuteRequest(Some(m), Some(plan)), DEFAULT_OPTIONS);
            && resp.status == StatusOk && |resp.assertions| == 1
            && resp.assertions[0].assertionType == AssertionNumber(AssertWorldFact)
            && resp.assertions[0].fields == map["subject" := S(m.handles[0].meta.value.subject)]
  {
    hide Manifest, Execute;
    var m := Manifest(s, requestId);
    var h := m.handles[0];
    assert h in m.handles;
    ManifestMembers(s, requestId, h);
    HandlesIndexSound(m.handles);
    ManifestMembers(s, requestId, HandlesIndex(m.handles)[h.ref]);
    SubjectField(h);
    ManifestBudget(s, requestId);
    ReadingPlanOk(p, m, h, "meta.subject");
  }

  lemma ManifestBudget(s: ServiceState, requestId: string)
    ensures NormalizeBudget(Manifest(s, requestId).budget) == Budget(128, 3, 64, 256.0)
  {
  }

  lemma EmptyCost(env: Env, power: nat -> real, source: Op)
    requires env.handles == [] && source.ApplySelector? && source.selectorRef in env.selectors
    requires env.selectors[source.selectorRef] == SUBJECT_SELECTOR
    ensures StepCost(env, power, source) == 1.25 * power(1)
  {
  }

  lemma WithoutHandles(p: Primitives, s: ServiceState, requestId: string, subject: string)
    requires Manifest(s, requestId).handles == [] && p.power(1) == 1.0
    ensures var m := Manifest(s, requestId);
            var plan := RmvmPlan(m.requestId, Steps(ApplySelector("S0", map["subject" := S(subject)]), "set_count"), ["r2"]);
            var resp := Execute(p, ExecuteRequest(Some(m), Some(plan)), DEFAULT_OPTIONS);
            && resp.status == StatusOk && |resp.assertions| == 1
            && resp.assertions[0].assertionType == AssertionNumber(AssertWorldFact)
            && resp.assertions[0].fields == map["subject" := I64(0)]
  {
    var m := Manifest(s, requestId);
    var env := MakeEnv(m, DEFAULT_OPTIONS);
    var source := ApplySelector("S0", map["subject" := S(subject)]);
    LoneSelector(SUBJECT_SELECTOR);
    EmptyCase(env, subject);
    var r0, r1 :| Delivers(env, source, "set_count", r0, r1)
               && r1.source == FromProject && r1.data == Struct(map["set_count" := I64(0)]);
    StepsRun(env, source, "set_count", r0, r1, I64(0));
    EmptyCost(env, p.power, source);
    ShapeOk(p, m, source, "set_count", I64(0));
  }

  lemma UserTaintOnly(h: HandleRef)
    requires h.meta.Some? && h.meta.value.taint == [TAINT_USER] && h.meta.value.trustTier == TrustRank(Tier3Confirmed)
    ensures Trusted(h)
  {
    assert forall t :: t in HandleTaint(h) ==> t == TAINT_USER;
  }

  /** Every handle the service ever lists is ready and passes the kernel's trust and taint gates. */
  lemma ServiceHandlesTrusted(history: seq<Request>, requestId: string, h: HandleRef)
    requires h in Manifest(After(history, |history|), requestId).handles
    ensures Trusted(h) && AvailabilityFromI32(h.availability) == Ready
  {
    hide After, Manifest, HandleTaint, Trusted;
    AlwaysValid(history, |history|);
    ManifestMembers(After(history, |history|), requestId, h);
    UserTaintOnly(h);
  }
}
