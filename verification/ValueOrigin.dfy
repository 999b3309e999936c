/**
  Which value an assertion states: the one its path reads from the register at the root of the chain
  of projections behind the binding. PROJECT never renames, so a path keeps its meaning along it.
 */
module ValueOrigin {
  import opened Wrappers
  import opened Proto
  import opened Handles
  import opened Semantics
  import opened Runs
  import opened InformationFlow

  /** What a path reads from register data: a field of the handle, the size or a field of the first handle of a set, or a struct field. */
  function ReadAt(data: RegData, path: string): Option<Value> {
    if path in SetCount(data) then Some(SetCount(data)[path]) else ProjectField(data, path)
  }

  /** The step that first wrote what step `i` holds, through any number of projections. */
  function ReadRoot(steps: seq<Step>, i: nat): (k: nat)
    requires i < |steps|
    ensures k <= i
    decreases i
  {
    if steps[i].op.Some? && steps[i].op.value.Project? && Definer(steps, i, steps[i].op.value.inReg).Some?
    then ReadRoot(steps, Definer(steps, i, steps[i].op.value.inReg).value)
    else i
  }

  /** The root is behind the step. */
  lemma {:induction false} RootReached(steps: seq<Step>, i: nat)
    requires i < |steps|
    ensures Reaches(steps, i, ReadRoot(steps, i))
    decreases i
  {
    if ReadRoot(steps, i) != i {
      var r := steps[i].op.value.inReg;
      assert r in Operands(steps[i].op.value);
      assert Reads(steps, i, Definer(steps, i, r).value);
      RootReached(steps, Definer(steps, i, r).value);
    }
  }

  lemma ProjectReads(regs: Registers, inReg: string, paths: seq<string>, q: string)
    requires ExecProject(regs, inReg, paths).Ok? && q in ExecProject(regs, inReg, paths).value.data.fields
    ensures inReg in regs && ReadAt(regs[inReg].data, q) == Some(ExecProject(regs, inReg, paths).value.data.fields[q])
  {
    hide HandleField;
  }

  /** A field of a projection reads, at the same path, from the root of the chain. */
  lemma {:induction false} ReadsAtRoot(env: Env, steps: seq<Step>, i: nat, q: string)
    requires i < |steps| && RunPrefix(env, steps, i + 1).Ok? && ReadAt(Written(env, steps, i).data, q).Some?
    ensures RunPrefix(env, steps, ReadRoot(steps, i) + 1).Ok?
    ensures ReadAt(Written(env, steps, ReadRoot(steps, i)).data, q) == ReadAt(Written(env, steps, i).data, q)
    decreases i
  {
    hide RunPrefix, ExecProject, HandleField;
    StepRan(env, steps, i);
    var op, regs := steps[i].op.value, MachineAt(env, steps, i).regs;
    if op.Project? {
      OperandsPresent(env, regs, op);
      ReadsDefiner(env, steps, i, op.inReg);
      ProjectWritesStruct(regs, op.inReg, op.fieldPaths);
      ProjectReads(regs, op.inReg, op.fieldPaths, q);
      ReadsAtRoot(env, steps, Definer(steps, i, op.inReg).value, q);
    }
  }

  lemma ProjectWritesStruct(regs: Registers, inReg: string, paths: seq<string>)
    requires ExecProject(regs, inReg, paths).Ok?
    ensures ExecProject(regs, inReg, paths).value.data.Struct?
  {
  }

  lemma BindingReads(r: RegValue, path: string)
    requires ExtractBinding(r, path).Ok?
    ensures ReadAt(r.data, path) == Some(ExtractBinding(r, path).value)
  {
    hide HandleField;
  }

  /** The register an ASSERT binding reads, at the root of its projections. */
  function BoundRoot(steps: seq<Step>, i: nat, b: ValueRef): Option<nat>
    requires i < |steps|
  {
    var d := Definer(steps, i, b.reg);
    if d.Some? then Some(ReadRoot(steps, d.value)) else None
  }

  /** What an ASSERT binds: the value its path reads at the root. */
  lemma BoundValueExactly(env: Env, steps: seq<Step>, i: nat, name: string)
    requires i < |steps| && RunPrefix(env, steps, i + 1).Ok? && IsAssertStep(steps[i]) && name in steps[i].op.value.bindings
    ensures Issued(env, steps, i).Some? && name in Issued(env, steps, i).value.fields
    ensures var b := steps[i].op.value.bindings[name];
            var k := BoundRoot(steps, i, b);
            && k.Some? && k.value < i && Reaches(steps, i, k.value) && RunPrefix(env, steps, k.value + 1).Ok?
            && ReadAt(Written(env, steps, k.value).data, b.fieldPath) == Some(Issued(env, steps, i).value.fields[name])
  {
    hide RunPrefix, ExecOp, ExtractBinding, ReadAt, Gather;
    StepRan(env, steps, i);
    var op, regs := steps[i].op.value, MachineAt(env, steps, i).regs;
    var b := op.bindings[name];
    AssertIssues(env, regs, op);
    GatherFacts(regs, op.bindings);
    assert b.reg in regs && ExtractBinding(regs[b.reg], b.fieldPath) == Ok(Issued(env, steps, i).value.fields[name]);
    ReadsDefiner(env, steps, i, b.reg);
    var d := Definer(steps, i, b.reg).value;
    BindingReads(regs[b.reg], b.fieldPath);
    ReadsAtRoot(env, steps, d, b.fieldPath);
    assert b.reg in Operands(op);
    RootReached(steps, d);
    assert Reads(steps, i, d);
  }

  lemma AssertIssues(env: Env, regs: Registers, op: Op)
    requires op.AssertOp? && ExecOp(env, regs, op).Ok?
    ensures Gather(regs, op.bindings).Ok? && ExecOp(env, regs, op).value.assertion.Some?
    ensures ExecOp(env, regs, op).value.assertion.value.fields == Gather(regs, op.bindings).value.fields
  {
    hide Gather, CanonicalizeCitations;
  }

  /**
    In an OK request each assertion has exactly the fields its ASSERT binds, and each states the value
    that its own path reads from the register at the root of the bound chain of projections, written
    by a step behind the assertion.
   */
  lemma AssertedValuesExactly(p: Primitives, m: PublicManifest, plan: RmvmPlan, opts: ExecuteOptions, k: nat, field: string)
    requires ExecutePlan(p, m, plan, opts).Ok? && k < |ExecutePlan(p, m, plan, opts).value.assertions|
    ensures k < |AssertSteps(plan.steps, |plan.steps|)|
    ensures var env, i := MakeEnv(m, opts), AssertSteps(plan.steps, |plan.steps|)[k];
            var a, bindings := ExecutePlan(p, m, plan, opts).value.assertions[k], plan.steps[i].op.value.bindings;
            && a.fields.Keys == bindings.Keys
            && (field in bindings ==>
                var root := BoundRoot(plan.steps, i, bindings[field]);
                && root.Some? && root.value < i && Reaches(plan.steps, i, root.value) && RunPrefix(env, plan.steps, root.value + 1).Ok?
                && ReadAt(Written(env, plan.steps, root.value).data, bindings[field].fieldPath) == Some(a.fields[field]))
  {
    hide ExecutePlan, ExecOp, RunPrefix, RunStep, MakeEnv, ReadAt, Reaches, BoundRoot, Issued, Written;
    OkRun(p, m, plan, opts);
    var env, steps := MakeEnv(m, opts), plan.steps;
    AssertionCount(env, steps, |steps|);
    AssertionsInOrder(env, steps, |steps|, k);
    var i := AssertSteps(steps, |steps|)[k];
    IssuedKeys(env, steps, i);
    if field in steps[i].op.value.bindings {
      BoundValueExactly(env, steps, i, field);
    }
  }

  lemma IssuedKeys(env: Env, steps: seq<Step>, i: nat)
    requires i < |steps| && RunPrefix(env, steps, i + 1).Ok? && IsAssertStep(steps[i])
    ensures Issued(env, steps, i).Some? && Issued(env, steps, i).value.fields.Keys == steps[i].op.value.bindings.Keys
  {
    hide RunPrefix, ExecOp, Gather;
    StepRan(env, steps, i);
    var regs, op := MachineAt(env, steps, i).regs, steps[i].op.value;
    AssertIssues(env, regs, op);
    GatherFacts(regs, op.bindings);
  }

  /** The handle a projection of `data` reads its fields from. */
  function FirstHandle(data: RegData): Option<HandleRef> {
    match data
    case HandleData(h) => Some(h)
    case HandleSet(hs) => if hs == [] then None else Some(hs[0])
    case Struct(_) => None
  }

  /** So every field of a projection of handles, but for the count, comes from one handle, each at its own path. */
  lemma ProjectedFieldsShareHandle(env: Env, steps: seq<Step>, i: nat, q: string)
    requires i < |steps| && RunPrefix(env, steps, i + 1).Ok? && RunPrefix(env, steps, ReadRoot(steps, i) + 1).Ok?
    requires Written(env, steps, i).data.Struct? && q in Written(env, steps, i).data.fields
    requires !Written(env, steps, ReadRoot(steps, i)).data.Struct?
    ensures var data, v := Written(env, steps, ReadRoot(steps, i)).data, Written(env, steps, i).data.fields[q];
            if q in SetCount(data) then v == SetCount(data)[q]
            else FirstHandle(data).Some? && HandleField(FirstHandle(data).value, q) == Some(v)
  {
    hide RunPrefix, HandleField, Written;
    assert q !in SetCount(Written(env, steps, i).data);
    ReadsAtRoot(env, steps, i, q);
  }
}
