/** Plans of three steps: a source, a projection of one path, and an assertion of what it read. */
module ThreeSteps {
  import opened Wrappers
  import opened Proto
  import opened Text
  import opened Handles
  import opened Semantics

  function Steps(source: Op, path: string): seq<Step> {
    [ Step("r0", Some(source)),
      Step("r1", Some(Project("r0", [path]))),
      Step("r2", Some(AssertOp(AssertionNumber(AssertWorldFact), map["subject" := ValueRef("r1", path)], []))) ]
  }

  lemma NamesUsable()
    ensures !Blank("r0") && !Blank("r1") && !Blank("r2") && "r0" != "r1" && "r0" != "r2" && "r1" != "r2"
  {
    BlankIffWhitespace("r0");
    BlankIffWhitespace("r1");
    BlankIffWhitespace("r2");
    assert "r0"[1] != "r1"[1] && "r0"[1] != "r2"[1] && "r1"[1] != "r2"[1];
  }

  lemma AssertOperand(path: string)
    ensures Operands(AssertOp(AssertionNumber(AssertWorldFact), map["subject" := ValueRef("r1", path)], [])) == {"r1"}
  {
    var b := map["subject" := ValueRef("r1", path)];
    assert "subject" in b && b["subject"].reg == "r1";
  }

  lemma StepsChecked(env: Env, power: nat -> real, source: Op, path: string)
    requires source.Fetch? || source.ApplySelector?
    requires CheckOp(env, source, {"r0"}, map[]).Ok?
    ensures CheckPrefix(env, power, Steps(source, path), 3)
            == Ok(StaticState({"r0", "r1", "r2"}, map[], StepCost(env, power, source) + 2.0))
  {
    hide Blank;
    var steps := Steps(source, path);
    NamesUsable();
    AssertOperand(path);
    var s1 := StaticState({"r0"}, map[], StepCost(env, power, source));
    var s2 := StaticState({"r0", "r1"}, map[], StepCost(env, power, source) + 1.0);
    assert CheckPrefix(env, power, steps, 0) == Ok(STATIC_START);
    assert STATIC_START.declared + {"r0"} == s1.declared;
    assert CheckStep(env, power, STATIC_START, steps[0]) == Ok(s1);
    assert CheckPrefix(env, power, steps, 1) == Ok(s1);
    assert s1.declared + {"r1"} == s2.declared;
    assert CheckStep(env, power, s1, steps[1]) == Ok(s2);
    assert CheckPrefix(env, power, steps, 2) == Ok(s2);
    assert s2.declared + {"r2"} == {"r0", "r1", "r2"};
  }

  /** The source delivers `r0`, and projecting it at `path` gives `r1`. */
  ghost predicate Delivers(env: Env, source: Op, path: string, r0: RegValue, r1: RegValue) {
    && ExecOp(env, map[], source) == Ok(StepResult(r0, None))
    && ExecProject(map["r0" := r0], "r0", [path]) == Ok(r1)
  }

  lemma TwoStepsRun(env: Env, source: Op, path: string, r0: RegValue, r1: RegValue) returns (m2: Machine)
    requires Delivers(env, source, path, r0, r1)
    ensures RunPrefix(env, Steps(source, path), 2) == Ok(m2)
    ensures m2.assertions == [] && "r1" in m2.regs && m2.regs["r1"] == r1
  {
    hide ExecProject, ExecFetch, ExecApplySelector, ExecAssert, TraceToken;
    var steps := Steps(source, path);
    NamesUsable();
    var m1 := Machine(map["r0" := r0], [], [TraceToken(0, "r0", source)]);
    assert RunPrefix(env, steps, 0) == Ok(MACHINE_START);
    assert MACHINE_START.regs["r0" := r0] == m1.regs && MACHINE_START.trace + m1.trace == m1.trace;
    assert RunStep(env, MACHINE_START, 0, steps[0]) == Ok(m1);
    assert RunPrefix(env, steps, 1) == Ok(m1);
    m2 := Machine(map["r0" := r0]["r1" := r1], [], m1.trace + [TraceToken(1, "r1", Project("r0", [path]))]);
    assert RunStep(env, m1, 1, steps[1]) == Ok(m2);
  }

  /** The three steps run when the source delivers, its path projects, and no gate objects. */
  lemma StepsRun(env: Env, source: Op, path: string, r0: RegValue, r1: RegValue, v: Value)
    requires env.opts == DEFAULT_OPTIONS && Delivers(env, source, path, r0, r1)
    requires r1.source == FromProject && r1.data.Struct? && path in r1.data.fields && r1.data.fields[path] == v
    ensures RunPrefix(env, Steps(source, path), 3).Ok?
    ensures var m := RunPrefix(env, Steps(source, path), 3).value;
            |m.assertions| == 1 && m.assertions[0].assertionType == 2 && m.assertions[0].fields == map["subject" := v]
  {
    hide ExecAssert, ExecProject, TraceToken;
    var steps := Steps(source, path);
    var m2 := TwoStepsRun(env, source, path, r0, r1);
    AssertRuns(env, m2.regs, path, r1, v);
    assert RunPrefix(env, steps, 3) == RunStep(env, m2, 2, steps[2]);
  }

  lemma AssertRuns(env: Env, regs: Registers, path: string, r1: RegValue, v: Value)
    requires env.opts == DEFAULT_OPTIONS && "r1" in regs && regs["r1"] == r1
    requires r1.source == FromProject && r1.data.Struct? && path in r1.data.fields && r1.data.fields[path] == v
    ensures var r := ExecAssert(env, regs, AssertionNumber(AssertWorldFact), map["subject" := ValueRef("r1", path)], []);
            r.Ok? && r.value.assertion.assertionType == 2 && r.value.assertion.fields == map["subject" := v]
  {
    var b := map["subject" := ValueRef("r1", path)];
    var keys := SortedKeys(b.Keys);
    assert b.Keys == {"subject"};
    SortedKeysUnique(["subject"], b.Keys);
    assert BindPrefix(regs, b, keys, 0) == Ok(NOTHING_GATHERED);
    assert BindPrefix(regs, b, keys, 1) == BindStep(regs, "subject", b["subject"], NOTHING_GATHERED);
    assert Gather(regs, b).Ok?;
    assert Gather(regs, b).value.fields == map["subject" := v];
    assert CanonicalizeCitations(env.opts, [], Gather(regs, b).value.provenance).Ok?;
  }

  lemma ProjectOne(r: RegValue, path: string)
    requires r.data.HandleData? && HandleField(r.data.handle, path).Some?
    ensures ExecProject(map["r0" := r], "r0", [path])
            == Ok(r.(data := Struct(map[path := HandleField(r.data.handle, path).value]), source := FromProject))
  {
    hide HandleField;
    var wanted := ProjectedPaths(r.data, [path]);
    assert wanted == {path};
    var result := ExecProject(map["r0" := r], "r0", [path]).value;
    assert result.data.fields == map[path := HandleField(r.data.handle, path).value];
  }

  lemma FetchDelivers(env: Env, h: HandleRef, path: string)
    requires h.ref in env.handlesByRef && env.handlesByRef[h.ref] == h && h in env.handles
    requires AvailabilityFromI32(h.availability) == Ready && HandleField(h, path).Some?
    ensures CheckOp(env, Fetch(h.ref), {"r0"}, map[]).Ok?
    ensures exists r0, r1 ::
              && Delivers(env, Fetch(h.ref), path, r0, r1)
              && r1.source == FromProject && r1.data == Struct(map[path := HandleField(h, path).value])
  {
    hide HandleField;
    var r0 := RegValue(HandleData(h), {h.ref}, HandleTaint(h), HandleTrust(h), 0, FromFetch);
    ProjectOne(r0, path);
    var r1 := r0.(data := Struct(map[path := HandleField(h, path).value]), source := FromProject);
    assert Delivers(env, Fetch(h.ref), path, r0, r1);
  }

  /** A plan of this shape whose three steps check and run ends in OK with that one assertion. */
  lemma ShapeOk(p: Primitives, m: PublicManifest, source: Op, path: string, v: Value)
    requires var env := MakeEnv(m, DEFAULT_OPTIONS);
             && (source.Fetch? || source.ApplySelector?)
             && CheckOp(env, source, {"r0"}, map[]).Ok?
             && env.budget.maxOps >= 3 && StepCost(env, p.power, source) + 2.0 <= env.budget.maxTotalCost
             && RunPrefix(env, Steps(source, path), 3).Ok?
             && var mach := RunPrefix(env, Steps(source, path), 3).value;
                |mach.assertions| == 1 && mach.assertions[0].assertionType == 2 && mach.assertions[0].fields == map["subject" := v]
    ensures var plan := RmvmPlan(m.requestId, Steps(source, path), ["r2"]);
            var resp := Execute(p, ExecuteRequest(Some(m), Some(plan)), DEFAULT_OPTIONS);
            && resp.status == StatusOk && |resp.assertions| == 1
            && resp.assertions[0].assertionType == AssertionNumber(AssertWorldFact)
            && resp.assertions[0].fields == map["subject" := v]
  {
    hide StepCost, CheckOp, RunPrefix, CheckPrefix, BuildProof, HandlesIndex, SelectorsIndex, NormalizeBudget, AssertionBlocks;
    var env := MakeEnv(m, DEFAULT_OPTIONS);
    StepsChecked(env, p.power, source, path);
    var plan := RmvmPlan(m.requestId, Steps(source, path), ["r2"]);
    assert ValidateStatic(env, p.power, plan) == Ok(());
    assert NarrativePrefix(p, [], 0, RunPrefix(env, plan.steps, 3).value.assertions) == Ok([]);
  }

  /** Reading a field of a ready handle and asserting it ends in OK with that value, for the handle its ref is indexed to. */
  lemma ReadingPlanOk(p: Primitives, m: PublicManifest, h: HandleRef, path: string)
    requires h in m.handles && h.ref in HandlesIndex(m.handles) && HandlesIndex(m.handles)[h.ref] == h
    requires AvailabilityFromI32(h.availability) == Ready && HandleField(h, path).Some?
    requires NormalizeBudget(m.budget).maxOps >= 3 && NormalizeBudget(m.budget).maxTotalCost >= 3.0
    ensures var plan := RmvmPlan(m.requestId, Steps(Fetch(h.ref), path), ["r2"]);
            var resp := Execute(p, ExecuteRequest(Some(m), Some(plan)), DEFAULT_OPTIONS);
            && resp.status == StatusOk && |resp.assertions| == 1
            && resp.assertions[0].assertionType == AssertionNumber(AssertWorldFact)
            && resp.assertions[0].fields == map["subject" := HandleField(h, path).value]
  {
    hide HandleField, Execute, RunPrefix, ExecOp, ExecProject, HandlesIndex, SelectorsIndex, NormalizeBudget, CheckOp;
    var env, v := MakeEnv(m, DEFAULT_OPTIONS), HandleField(h, path).value;
    FetchDelivers(env, h, path);
    var r0, r1 :| Delivers(env, Fetch(h.ref), path, r0, r1) && r1.source == FromProject && r1.data == Struct(map[path := v]);
    StepsRun(env, Fetch(h.ref), path, r0, r1, v);
    ShapeOk(p, m, Fetch(h.ref), path, v);
  }
}
