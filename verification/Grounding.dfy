/**
  Nothing is invented: what registers hold, and what assertions state, comes from manifest handles in
  the provenance, from set sizes, or from typed selector parameters. Along the way: every handle set
  is sorted by ref and within the fanout budget.
 */
module Grounding {
  import opened Wrappers
  import opened Proto
  import opened Text
  import opened Sorting
  import opened Handles
  import opened Semantics
  import opened Runs
  import opened InformationFlow

  /** A field of a manifest handle that is in the provenance. */
  ghost predicate FromHandle(env: Env, provenance: set<string>, v: Value) {
    exists h, path :: h in env.handles && h.ref in provenance && HandleField(h, path) == Some(v)
  }

  /** Step `i` and every step behind it. */
  function Behind(steps: seq<Step>, i: nat): set<nat>
    requires i < |steps|
  {
    set k: nat | 0 <= k <= i && Reaches(steps, i, k)
  }

  /** One of the steps `js` wrote a handle set of this size, within the fanout. */
  ghost predicate FromSetCount(env: Env, steps: seq<Step>, js: set<nat>, v: Value) {
    exists k :: k in js && k < |steps| && WroteSet(env, steps, k, v)
  }

  ghost predicate WroteSet(env: Env, steps: seq<Step>, k: nat, v: Value)
    requires k < |steps|
  {
    && RunPrefix(env, steps, k + 1).Ok? && Written(env, steps, k).data.HandleSet?
    && v == I64(|Written(env, steps, k).data.handles|)
    && |Written(env, steps, k).data.handles| <= env.budget.maxFanout
  }

  /** `op` calls a selector that returns a struct. */
  predicate CallsStructSelector(env: Env, op: Op) {
    op.ApplySelector? && op.selectorRef in env.selectors
    && SelectorReturnFromI32(env.selectors[op.selectorRef].returnType) == ReturnStruct
  }

  /** One of the steps `js` called a struct selector that gives `v`: the manifest size, or a parameter that passed its type check. */
  ghost predicate FromStructSelector(env: Env, steps: seq<Step>, js: set<nat>, v: Value) {
    exists j :: j in js && j < |steps| && steps[j].op.Some? && CallsStructSelector(env, steps[j].op.value)
                && SelectorGives(env, steps[j].op.value, v)
  }

  ghost predicate SelectorGives(env: Env, op: Op, v: Value)
    requires CallsStructSelector(env, op)
  {
    v == I64(|env.handles|)
    || exists name :: name in op.params && op.params[name] == v
                      && name in SpecsByName(env.selectors[op.selectorRef].params)
                      && ValueMatchesType(v, SpecsByName(env.selectors[op.selectorRef].params)[name])
  }

  ghost predicate GroundedValue(env: Env, steps: seq<Step>, js: set<nat>, provenance: set<string>, v: Value) {
    FromHandle(env, provenance, v) || FromSetCount(env, steps, js, v) || FromStructSelector(env, steps, js, v)
  }

  ghost predicate HandlesOk(env: Env, provenance: set<string>, hs: seq<HandleRef>) {
    forall h :: h in hs ==> h in env.handles && h.ref in provenance
  }

  /** What a register with the steps `js` behind it may hold. */
  ghost predicate RegOk(env: Env, steps: seq<Step>, js: set<nat>, r: RegValue) {
    match r.data
    case HandleData(h) => HandlesOk(env, r.provenance, [h])
    case HandleSet(hs) => HandlesOk(env, r.provenance, hs) && |hs| <= env.budget.maxFanout && SortedBy(RefLe, hs)
    case Struct(fields) => forall k :: k in fields ==> GroundedValue(env, steps, js, r.provenance, fields[k])
  }

  /** Every register holds what the steps behind its writer allow. */
  ghost predicate RegsOk(env: Env, steps: seq<Step>, n: nat, regs: Registers)
    requires n <= |steps|
  {
    forall r :: r in regs ==>
      Definer(steps, n, r).Some? && RegOk(env, steps, Behind(steps, Definer(steps, n, r).value), regs[r])
  }

  ghost predicate OperandsOk(env: Env, steps: seq<Step>, js: set<nat>, regs: Registers, op: Op) {
    forall r :: r in Operands(op) ==> r in regs && RegOk(env, steps, js, regs[r])
  }

  lemma MoreSources(env: Env, steps: seq<Step>, js: set<nat>, ks: set<nat>, r: RegValue)
    requires RegOk(env, steps, js, r) && js <= ks
    ensures RegOk(env, steps, ks, r)
  {
    hide FromHandle, WroteSet, SelectorGives, CallsStructSelector;
    if r.data.Struct? {
      var fields := r.data.fields;
      forall k | k in fields ensures GroundedValue(env, steps, ks, r.provenance, fields[k]) {
        assert GroundedValue(env, steps, js, r.provenance, fields[k]);
      }
    }
  }

  lemma FetchGrounded(env: Env, steps: seq<Step>, js: set<nat>, ref: string)
    requires WellIndexed(env) && ExecFetch(env, ref).Ok?
    ensures RegOk(env, steps, js, ExecFetch(env, ref).value)
  {
  }

  lemma SelectedOk(env: Env, params: map<string, Value>)
    ensures HandlesOk(env, Refs(Selected(env, params)), Selected(env, params))
    ensures SortedBy(RefLe, Selected(env, params))
  {
    SortByRefMembers(Matching(env.handles, params));
    RefLeIsPreorder();
    SortSorts(RefLe, Matching(env.handles, params));
  }

  lemma StructSelectorGrounded(env: Env, steps: seq<Step>, js: set<nat>, n: nat, provenance: set<string>, k: string)
    requires n in js && n < |steps| && steps[n].op.Some? && CallsStructSelector(env, steps[n].op.value)
    requires CheckParams(env.selectors[steps[n].op.value.selectorRef].params, steps[n].op.value.params).Ok?
    requires k in map["matched_count" := I64(|env.handles|)] + steps[n].op.value.params
    ensures SelectorGives(env, steps[n].op.value, (map["matched_count" := I64(|env.handles|)] + steps[n].op.value.params)[k])
    ensures GroundedValue(env, steps, js, provenance, (map["matched_count" := I64(|env.handles|)] + steps[n].op.value.params)[k])
  {
    var op := steps[n].op.value;
    CheckParamsOk(env.selectors[op.selectorRef].params, op.params);
    var v := (map["matched_count" := I64(|env.handles|)] + op.params)[k];
    assert SelectorGives(env, op, v) by {
      if k in op.params {
        assert v == op.params[k];
      }
    }
    assert FromStructSelector(env, steps, js, v);
  }

  lemma SelectorGrounded(env: Env, steps: seq<Step>, js: set<nat>, n: nat)
    requires n in js && n < |steps| && steps[n].op.Some? && steps[n].op.value.ApplySelector? && WellIndexed(env)
    requires ExecApplySelector(env, steps[n].op.value.selectorRef, steps[n].op.value.params).Ok?
    ensures RegOk(env, steps, js, ExecApplySelector(env, steps[n].op.value.selectorRef, steps[n].op.value.params).value)
  {
    hide Selected, CheckParams, GroundedValue, Refs, Taints, SelectedTrust;
    var op := steps[n].op.value;
    var matched := Selected(env, op.params);
    SelectedOk(env, op.params);
    if CallsStructSelector(env, op) {
      forall k | k in map["matched_count" := I64(|env.handles|)] + op.params
        ensures GroundedValue(env, steps, js, Refs(matched), (map["matched_count" := I64(|env.handles|)] + op.params)[k])
      {
        StructSelectorGrounded(env, steps, js, n, Refs(matched), k);
      }
    }
  }

  lemma AsHandlesOk(env: Env, steps: seq<Step>, js: set<nat>, r: RegValue)
    requires WellIndexed(env) && RegOk(env, steps, js, r) && AsHandles(r).Ok?
    ensures HandlesOk(env, r.provenance, AsHandles(r).value)
    ensures |AsHandles(r).value| <= env.budget.maxFanout
  {
  }

  lemma ResolveGrounded(env: Env, steps: seq<Step>, js: set<nat>, regs: Registers, inReg: string)
    requires WellIndexed(env) && inReg in regs && RegOk(env, steps, js, regs[inReg]) && ExecResolve(regs, inReg).Ok?
    ensures RegOk(env, steps, js, ExecResolve(regs, inReg).value)
  {
    AsHandlesOk(env, steps, js, regs[inReg]);
    var hs := AsHandles(regs[inReg]).value;
    SortMembers(RankLe, hs);
    assert Sort(RankLe, hs)[0] in Sort(RankLe, hs);
  }

  lemma {:induction false} FilterKeepsSubset(hs: seq<HandleRef>, n: nat, filterRef: string, params: map<string, Value>)
    requires n <= |hs| && FilterPrefix(hs, n, filterRef, params).Ok?
    ensures forall h :: h in FilterPrefix(hs, n, filterRef, params).value ==> h in hs
  {
    if n > 0 {
      FilterKeepsSubset(hs, n - 1, filterRef, params);
    }
  }

  lemma FilterGrounded(env: Env, steps: seq<Step>, js: set<nat>, regs: Registers, inReg: string, filterRef: string, params: map<string, Value>)
    requires WellIndexed(env) && inReg in regs && RegOk(env, steps, js, regs[inReg]) && ExecFilter(env, regs, inReg, filterRef, params).Ok?
    ensures RegOk(env, steps, js, ExecFilter(env, regs, inReg, filterRef, params).value)
  {
    AsHandlesOk(env, steps, js, regs[inReg]);
    var hs := AsHandles(regs[inReg]).value;
    var kept := FilterPrefix(hs, |hs|, filterRef, params).value;
    FilterKeepsSubset(hs, |hs|, filterRef, params);
    SortByRefMembers(kept);
    RefLeIsPreorder();
    SortSorts(RefLe, kept);
  }

  /** Every handle in the map comes from one of the two sides and sits under its own ref. */
  ghost predicate JoinedFrom(m: map<string, HandleRef>, ls: seq<HandleRef>, rs: seq<HandleRef>) {
    forall r :: r in m ==> m[r].ref == r && (m[r] in ls || m[r] in rs)
  }

  lemma {:induction false} JoinRowFrom(edge: EdgeType, l: HandleRef, rs: seq<HandleRef>, n: nat, acc: map<string, HandleRef>, ls: seq<HandleRef>)
    requires n <= |rs| && l in ls && JoinedFrom(acc, ls, rs)
    ensures JoinedFrom(JoinRow(edge, l, rs, n, acc), ls, rs)
  {
    if n > 0 {
      JoinRowFrom(edge, l, rs, n - 1, acc, ls);
    }
  }

  lemma {:induction false} JoinPairsFrom(edge: EdgeType, ls: seq<HandleRef>, n: nat, rs: seq<HandleRef>)
    requires n <= |ls|
    ensures JoinedFrom(JoinPairs(edge, ls, n, rs), ls, rs)
  {
    if n > 0 {
      JoinPairsFrom(edge, ls, n - 1, rs);
      JoinRowFrom(edge, ls[n - 1], rs, |rs|, JoinPairs(edge, ls, n - 1, rs), ls);
    }
  }

  lemma ValuesInOrderFacts(m: map<string, HandleRef>)
    requires forall r :: r in m ==> m[r].ref == r
    ensures forall h :: h in ValuesInOrder(m) ==> h.ref in m && m[h.ref] == h
    ensures SortedBy(RefLe, ValuesInOrder(m))
    ensures |ValuesInOrder(m)| == |m|
  {
    SortedKeysCount(m.Keys);
    SortedKeysAscend(m.Keys);
    assert |m.Keys| == |m|;
  }

  lemma JoinGrounded(env: Env, steps: seq<Step>, js: set<nat>, regs: Registers, l: string, r: string, edge: int)
    requires WellIndexed(env) && l in regs && r in regs && RegOk(env, steps, js, regs[l]) && RegOk(env, steps, js, regs[r])
    requires ExecJoin(env, regs, l, r, edge).Ok?
    ensures RegOk(env, steps, js, ExecJoin(env, regs, l, r, edge).value)
  {
    AsHandlesOk(env, steps, js, regs[l]);
    AsHandlesOk(env, steps, js, regs[r]);
    var ls, rs := AsHandles(regs[l]).value, AsHandles(regs[r]).value;
    var m := JoinPairs(EdgeTypeFromI32(edge), ls, |ls|, rs);
    JoinPairsFrom(EdgeTypeFromI32(edge), ls, |ls|, rs);
    ValuesInOrderFacts(m);
  }

  lemma ProjectFieldGrounded(env: Env, steps: seq<Step>, js: set<nat>, r: RegValue, path: string)
    requires RegOk(env, steps, js, r) && ProjectField(r.data, path).Some?
    ensures GroundedValue(env, steps, js, r.provenance, ProjectField(r.data, path).value)
  {
    match r.data
    case HandleData(h) => assert h in [h] && h in env.handles && h.ref in r.provenance && HandleField(h, path).Some?;
    case HandleSet(hs) => assert hs[0] in hs && hs[0] in env.handles && HandleField(hs[0], path).Some?;
    case Struct(fields) =>
  }

  lemma ProjectGrounded(env: Env, steps: seq<Step>, js: set<nat>, regs: Registers, inReg: string, paths: seq<string>, k: nat)
    requires inReg in regs && RegOk(env, steps, js, regs[inReg]) && ExecProject(regs, inReg, paths).Ok?
    requires k in js && k < |steps| && RunPrefix(env, steps, k + 1).Ok? && regs[inReg] == Written(env, steps, k)
    ensures RegOk(env, steps, js, ExecProject(regs, inReg, paths).value)
  {
    hide RunPrefix, Written;
    var input := regs[inReg];
    var fields := ExecProject(regs, inReg, paths).value.data.fields;
    forall q | q in fields ensures GroundedValue(env, steps, js, input.provenance, fields[q]) {
      if q in SetCount(input.data) {
        assert WroteSet(env, steps, k, fields[q]);
      } else {
        ProjectFieldGrounded(env, steps, js, input, q);
      }
    }
  }

  lemma BindingGrounded(env: Env, steps: seq<Step>, js: set<nat>, r: RegValue, path: string, provenance: set<string>)
    requires RegOk(env, steps, js, r) && r.provenance <= provenance && ExtractBinding(r, path).Ok?
    ensures GroundedValue(env, steps, js, provenance, ExtractBinding(r, path).value)
  {
    var v := ExtractBinding(r, path).value;
    assert ProjectField(r.data, path) == Some(v);
    ProjectFieldGrounded(env, steps, js, r, path);
    if FromHandle(env, r.provenance, v) {
      var h, q :| h in env.handles && h.ref in r.provenance && HandleField(h, q) == Some(v);
      assert FromHandle(env, provenance, v);
    }
  }

  lemma AssertGrounded(env: Env, steps: seq<Step>, js: set<nat>, regs: Registers, op: Op)
    requires op.AssertOp? && OperandsOk(env, steps, js, regs, op) && ExecOp(env, regs, op).Ok?
    ensures RegOk(env, steps, js, ExecOp(env, regs, op).value.reg)
  {
    AssertWrites(env, regs, op);
    GatherFacts(regs, op.bindings);
    var g := Gather(regs, op.bindings).value;
    forall k | k in g.fields ensures GroundedValue(env, steps, js, g.provenance, g.fields[k]) {
      var reg := regs[op.bindings[k].reg];
      assert op.bindings[k].reg in Operands(op);
      assert reg.provenance <= g.provenance;
      BindingGrounded(env, steps, js, reg, op.bindings[k].fieldPath, g.provenance);
    }
  }

  lemma StepGrounded(env: Env, steps: seq<Step>, i: nat)
    requires i < |steps| && WellIndexed(env) && RunPrefix(env, steps, i + 1).Ok?
    requires RunPrefix(env, steps, i).Ok? && steps[i].op.Some?
    requires OperandsOk(env, steps, Behind(steps, i), MachineAt(env, steps, i).regs, steps[i].op.value)
    ensures RegOk(env, steps, Behind(steps, i), Written(env, steps, i))
  {
    hide RegOk, Behind, RunPrefix, ExecFetch, ExecApplySelector, ExecResolve, ExecFilter, ExecJoin, ExecProject, ExecAssert;
    StepRan(env, steps, i);
    var js, regs := Behind(steps, i), MachineAt(env, steps, i).regs;
    assert i in js by { BehindItself(steps, i); }
    match steps[i].op.value
    case Fetch(ref) => FetchGrounded(env, steps, js, ref);
    case ApplySelector(_, _) => SelectorGrounded(env, steps, js, i);
    case Resolve(inReg, _) => ResolveGrounded(env, steps, js, regs, inReg);
    case Filter(inReg, f, params) => FilterGrounded(env, steps, js, regs, inReg, f, params);
    case Join(l, r, edge) => JoinGrounded(env, steps, js, regs, l, r, edge);
    case Project(inReg, paths) =>
      ReadsDefiner(env, steps, i, inReg);
      OperandBehind(steps, i, inReg);
      ProjectGrounded(env, steps, js, regs, inReg, paths, Definer(steps, i, inReg).value);
    case AssertOp(_, _, _) => AssertGrounded(env, steps, js, regs, steps[i].op.value);
  }

  lemma BehindItself(steps: seq<Step>, i: nat)
    requires i < |steps|
    ensures i in Behind(steps, i)
  {
  }

  /** The writer of an operand, and all behind it, are behind the step that reads it. */
  lemma OperandBehind(steps: seq<Step>, i: nat, r: string)
    requires i < |steps| && steps[i].op.Some? && r in Operands(steps[i].op.value) && Definer(steps, i, r).Some?
    ensures Definer(steps, i, r).value in Behind(steps, i)
    ensures Behind(steps, Definer(steps, i, r).value) <= Behind(steps, i)
  {
    hide Operands;
    var d := Definer(steps, i, r).value;
    assert Reads(steps, i, d);
    BehindItself(steps, d);
    forall k | k in Behind(steps, d) ensures k in Behind(steps, i) {
      assert Reaches(steps, i, k);
    }
  }

  /** What a step writes comes from the steps behind it. */
  lemma {:induction false} WrittenGrounded(env: Env, steps: seq<Step>, i: nat)
    requires i < |steps| && WellIndexed(env) && RunPrefix(env, steps, i + 1).Ok?
    ensures RegOk(env, steps, Behind(steps, i), Written(env, steps, i))
    decreases i
  {
    hide RegOk, Behind, ExecOp, RunStep, RunPrefix, WellIndexed, Operands;
    StepRan(env, steps, i);
    var regs, op := MachineAt(env, steps, i).regs, steps[i].op.value;
    OperandsPresent(env, regs, op);
    forall r | r in Operands(op) ensures r in regs && RegOk(env, steps, Behind(steps, i), regs[r]) {
      ReadsDefiner(env, steps, i, r);
      var d := Definer(steps, i, r).value;
      WrittenGrounded(env, steps, d);
      OperandBehind(steps, i, r);
      MoreSources(env, steps, Behind(steps, d), Behind(steps, i), regs[r]);
    }
    StepGrounded(env, steps, i);
  }

  /** Every reachable register file is grounded, sorted and within the fanout budget. */
  lemma RunGrounded(env: Env, steps: seq<Step>, n: nat)
    requires n <= |steps| && WellIndexed(env) && RunPrefix(env, steps, n).Ok?
    ensures RegsOk(env, steps, n, MachineAt(env, steps, n).regs)
  {
    hide RegOk, Behind, RunPrefix, WellIndexed;
    var regs := MachineAt(env, steps, n).regs;
    forall r | r in regs
      ensures Definer(steps, n, r).Some? && RegOk(env, steps, Behind(steps, Definer(steps, n, r).value), regs[r])
    {
      ReadsDefiner(env, steps, n, r);
      WrittenGrounded(env, steps, Definer(steps, n, r).value);
    }
  }

  ghost predicate HasStructSelector(m: PublicManifest) {
    exists s :: s in m.selectors && SelectorReturnFromI32(s.returnType) == ReturnStruct
  }

  /** Value `v`, asserted by step `i`, has one of the admitted origins. */
  ghost predicate IsGrounded(m: PublicManifest, opts: ExecuteOptions, steps: seq<Step>, i: nat, v: Value)
    requires i < |steps|
  {
    var env := MakeEnv(m, opts);
    RunPrefix(env, steps, i + 1).Ok? &&
    (FromHandle(env, Written(env, steps, i).provenance, v) || FromSetCount(env, steps, Behind(steps, i), v)
     || (HasStructSelector(m) && FromStructSelector(env, steps, Behind(steps, i), v)))
  }

  /**
    Grounding: in an OK request every field value of every assertion is a field of a manifest handle
    in the provenance of that assertion, or the size of a handle set some step behind
    the assertion wrote; a manifest with
    struct selectors adds only its size and type-checked parameters of such a call
    behind the assertion.
   */
  lemma AssertionsGrounded(p: Primitives, m: PublicManifest, plan: RmvmPlan, opts: ExecuteOptions, k: nat, field: string)
    requires ExecutePlan(p, m, plan, opts).Ok? && k < |ExecutePlan(p, m, plan, opts).value.assertions|
    requires field in ExecutePlan(p, m, plan, opts).value.assertions[k].fields
    ensures k < |AssertSteps(plan.steps, |plan.steps|)|
    ensures IsGrounded(m, opts, plan.steps, AssertSteps(plan.steps, |plan.steps|)[k],
                       ExecutePlan(p, m, plan, opts).value.assertions[k].fields[field])
  {
    hide ExecutePlan, ExecOp, RunStep, NormalizeBudget, FromSetCount, FromHandle, Behind;
    OkRun(p, m, plan, opts);
    MakeEnvIndexes(m, opts);
    var env, steps := MakeEnv(m, opts), plan.steps;
    AssertionCount(env, steps, |steps|);
    AssertionsInOrder(env, steps, |steps|, k);
    var i := AssertSteps(steps, |steps|)[k];
    StepRan(env, steps, i);
    WrittenGrounded(env, steps, i);
    IssuedFields(env, MachineAt(env, steps, i).regs, steps[i].op.value);
    var v := Issued(env, steps, i).value.fields[field];
    assert GroundedValue(env, steps, Behind(steps, i), Written(env, steps, i).provenance, v);
    if FromStructSelector(env, steps, Behind(steps, i), v) {
      SelectorsIndexSound(m.selectors);
    }
  }

  lemma IssuedFields(env: Env, regs: Registers, op: Op)
    requires op.AssertOp? && ExecOp(env, regs, op).Ok?
    ensures ExecOp(env, regs, op).value.assertion.Some?
    ensures ExecOp(env, regs, op).value.reg.data == Struct(ExecOp(env, regs, op).value.assertion.value.fields)
  {
  }
}
