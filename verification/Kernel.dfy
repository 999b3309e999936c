/**
  The kernel as it runs: its loops over steps, handles, bindings, citations and templates, each
  proved to compute the function of module `Semantics` that the theorems are about.
 */
module Kernel {
  import opened Wrappers
  import opened Proto
  import opened Text
  import opened Handles
  import opened Semantics
  import opened Runs
  import Merkle
  import Narrative

  // Static check.

  lemma {:induction false} CheckParamStops(specs: map<string, ParamSpec>, params: map<string, Value>, keys: seq<string>, n: nat, m: nat)
    requires n <= m <= |keys| && forall k :: k in keys ==> k in params
    requires CheckParamPrefix(specs, params, keys, n).Stop?
    ensures CheckParamPrefix(specs, params, keys, m) == CheckParamPrefix(specs, params, keys, n)
  {
    if n < m {
      CheckParamStops(specs, params, keys, n, m - 1);
    }
  }

  method ValidateParamSpecs(specs: seq<ParamSpec>, params: map<string, Value>) returns (r: Outcome<()>)
    ensures r == CheckParams(specs, params)
  {
    var specByName := SpecsByName(specs);
    var keys := SortedKeys(params.Keys);
    for i := 0 to |keys|
      invariant CheckParamPrefix(specByName, params, keys, i) == Ok(())
    {
      var name := keys[i];
      if name !in specByName {
        CheckParamStops(specByName, params, keys, i + 1, |keys|);
        return Reject(SchemaViolation);
      }
      if !ValueMatchesType(params[name], specByName[name]) {
        CheckParamStops(specByName, params, keys, i + 1, |keys|);
        return Reject(TypeMismatch);
      }
    }
    r := Ok(());
  }

  /** The loop of `validate_static` over the steps. */
  method CheckSteps(env: Env, power: nat -> real, steps: seq<Step>) returns (r: Outcome<StaticState>)
    ensures r == CheckPrefix(env, power, steps, |steps|)
  {
    hide CheckOp, StepCost, OutDepth, Blank;
    var declared: set<string> := {};
    var joinDepth: map<string, nat> := map[];
    var totalCost := 0.0;
    for i := 0 to |steps|
      invariant CheckPrefix(env, power, steps, i) == Ok(StaticState(declared, joinDepth, totalCost))
    {
      var step := steps[i];
      if Blank(step.out) || step.out in declared || step.op.None? {
        CheckPrefixStops(env, power, steps, i + 1, |steps|);
        return Reject(SchemaViolation);
      }
      declared := declared + {step.out};
      var checked := CheckOp(env, step.op.value, declared, joinDepth);
      if checked.Stop? {
        CheckPrefixStops(env, power, steps, i + 1, |steps|);
        return Stop(checked.reason);
      }
      totalCost := totalCost + StepCost(env, power, step.op.value);
      var depth := OutDepth(step.op.value, joinDepth);
      if depth > 0 {
        joinDepth := joinDepth[step.out := depth];
      }
    }
    r := Ok(StaticState(declared, joinDepth, totalCost));
  }

  /** `validate_static` */
  method RunStaticCheck(env: Env, power: nat -> real, plan: RmvmPlan) returns (r: Outcome<()>)
    ensures r == ValidateStatic(env, power, plan)
  {
    hide CheckPrefix;
    if |plan.steps| > env.budget.maxOps {
      return Reject(GraphTraversalLimit);
    }
    var s := CheckSteps(env, power, plan.steps);
    if s.Stop? {
      return Stop(s.reason);
    }
    if s.value.totalCost > env.budget.maxTotalCost {
      return Reject(CostGuardRejected);
    }
    for i := 0 to |plan.outputs|
      invariant forall j :: 0 <= j < i ==> plan.outputs[j] in s.value.declared
    {
      if plan.outputs[i] !in s.value.declared {
        return Reject(SchemaViolation);
      }
    }
    r := Ok(());
  }

  // Opcodes.

  method MatchesSelector(h: HandleRef, params: map<string, Value>) returns (r: bool)
    ensures r == SelectorMatch(h, params)
  {
    var keys := SortedKeys(params.Keys);
    for i := 0 to |keys|
      invariant forall j :: 0 <= j < i ==> keys[j] in params && ParamMatches(h, keys[j], params[keys[j]])
    {
      assert keys[i] in params;
      if !ParamMatches(h, keys[i], params[keys[i]]) {
        return false;
      }
    }
    forall name | name in params ensures ParamMatches(h, name, params[name]) {
      assert name in keys;
    }
    r := true;
  }

  lemma {:induction false} MatchingAppend(hs: seq<HandleRef>, h: HandleRef, params: map<string, Value>)
    ensures Matching(hs + [h], params) == Matching(hs, params) + (if SelectorMatch(h, params) then [h] else [])
  {
    if hs != [] {
      assert (hs + [h])[1..] == hs[1..] + [h];
      MatchingAppend(hs[1..], h, params);
    } else {
      assert [] + [h] == [h];
    }
  }

  /** The filter over the manifest's handles. */
  method CollectMatching(handles: seq<HandleRef>, params: map<string, Value>) returns (matched: seq<HandleRef>)
    ensures matched == Matching(handles, params)
  {
    matched := [];
    for i := 0 to |handles|
      invariant matched == Matching(handles[..i], params)
    {
      assert handles[..i + 1] == handles[..i] + [handles[i]];
      MatchingAppend(handles[..i], handles[i], params);
      var hit := MatchesSelector(handles[i], params);
      if hit {
        matched := matched + [handles[i]];
      }
    }
    assert handles[..|handles|] == handles;
  }

  lemma TaintsAppend(hs: seq<HandleRef>, h: HandleRef)
    ensures Taints(hs + [h]) == Taints(hs) + HandleTaint(h)
  {
    forall t ensures t in Taints(hs + [h]) <==> t in Taints(hs) + HandleTaint(h) {
      assert h in hs + [h];
      if g :| g in hs && t in HandleTaint(g) {
        assert g in hs + [h];
      }
    }
  }

  /** The metadata loop of APPLY_SELECTOR. */
  method SummarizeMatched(matched: seq<HandleRef>) returns (provenance: set<string>, taint: set<int>, minTrust: TrustTier)
    ensures provenance == Refs(matched) && taint == Taints(matched) && minTrust == SelectedTrust(matched)
  {
    provenance, taint, minTrust := {}, {}, Tier4PolicySigned;
    for i := 0 to |matched|
      invariant provenance == Refs(matched[..i]) && taint == Taints(matched[..i]) && minTrust == WeakestTrust(matched[..i])
    {
      var h := matched[i];
      assert matched[..i + 1] == matched[..i] + [h];
      TaintsAppend(matched[..i], h);
      provenance := provenance + {h.ref};
      taint := taint + HandleTaint(h);
      minTrust := MinTier(minTrust, HandleTrust(h));
    }
    assert matched[..|matched|] == matched;
    if matched == [] {
      minTrust := TrustUnspecified;
    }
  }

  method RunApplySelector(env: Env, ref: string, params: map<string, Value>) returns (r: Outcome<RegValue>)
    ensures r == ExecApplySelector(env, ref, params)
  {
    if ref !in env.selectors {
      return Reject(UnknownSelectorRef);
    }
    var sel := env.selectors[ref];
    var checked := ValidateParamSpecs(sel.params, params);
    if checked.Stop? {
      return Stop(checked.reason);
    }
    var matched := CollectMatching(env.handles, params);
    matched := SortByRef(matched);
    if |matched| > env.budget.maxFanout {
      return Reject(GraphTraversalLimit);
    }
    var provenance, taint, minTrust := SummarizeMatched(matched);
    var data := SelectorData(env, sel, params, matched);
    if data.Stop? {
      return Stop(data.reason);
    }
    r := Ok(RegValue(data.value, provenance, taint, minTrust, 0, FromApplySelector));
  }

  lemma {:induction false} FilterStops(hs: seq<HandleRef>, n: nat, m: nat, filterRef: string, params: map<string, Value>)
    requires n <= m <= |hs| && FilterPrefix(hs, n, filterRef, params).Stop?
    ensures FilterPrefix(hs, m, filterRef, params) == FilterPrefix(hs, n, filterRef, params)
  {
    if n < m {
      FilterStops(hs, n, m - 1, filterRef, params);
    }
  }

  method FilterHandles(handles: seq<HandleRef>, filterRef: string, params: map<string, Value>) returns (r: Outcome<seq<HandleRef>>)
    ensures r == FilterPrefix(handles, |handles|, filterRef, params)
  {
    var out: seq<HandleRef> := [];
    for i := 0 to |handles|
      invariant FilterPrefix(handles, i, filterRef, params) == Ok(out)
    {
      var keep := MatchesFilter(handles[i], filterRef, params);
      if keep.Stop? {
        FilterStops(handles, i + 1, |handles|, filterRef, params);
        return Stop(keep.reason);
      }
      if keep.value {
        out := out + [handles[i]];
      }
    }
    r := Ok(out);
  }

  method RunFilter(env: Env, regs: Registers, inReg: string, filterRef: string, params: map<string, Value>) returns (r: Outcome<RegValue>)
    ensures r == ExecFilter(env, regs, inReg, filterRef, params)
  {
    if inReg !in regs {
      return Reject(SchemaViolation);
    }
    var input := regs[inReg];
    var handles := AsHandles(input);
    if handles.Stop? {
      return Stop(handles.reason);
    }
    var kept := FilterHandles(handles.value, filterRef, params);
    if kept.Stop? {
      return Stop(kept.reason);
    }
    var out := SortByRef(kept.value);
    if |out| > env.budget.maxFanout {
      return Reject(GraphTraversalLimit);
    }
    r := Ok(input.(data := HandleSet(out), source := FromFilter));
  }

  /** The nested loops of JOIN; `tests` counts the pairs compared. */
  method PairLoops(edge: EdgeType, left: seq<HandleRef>, right: seq<HandleRef>) returns (joined: map<string, HandleRef>, tests: nat)
    ensures joined == JoinPairs(edge, left, |left|, right)
    ensures tests == |left| * |right|
  {
    joined, tests := map[], 0;
    for i := 0 to |left|
      invariant joined == JoinPairs(edge, left, i, right) && tests == i * |right|
    {
      ghost var before := joined;
      for j := 0 to |right|
        invariant joined == JoinRow(edge, left[i], right, j, before) && tests == i * |right| + j
      {
        if Linked(edge, left[i], right[j]) {
          joined := joined[left[i].ref := left[i]];
          joined := joined[right[j].ref := right[j]];
        }
        tests := tests + 1;
      }
      assert (i + 1) * |right| == i * |right| + |right|;
    }
  }

  method RunJoin(env: Env, regs: Registers, leftReg: string, rightReg: string, edgeType: int) returns (r: Outcome<RegValue>)
    ensures r == ExecJoin(env, regs, leftReg, rightReg, edgeType)
  {
    if leftReg !in regs || rightReg !in regs {
      return Reject(SchemaViolation);
    }
    var left, right := regs[leftReg], regs[rightReg];
    var edge := EdgeTypeFromI32(edgeType);
    if edge == EdgeUnspecified {
      return Reject(SchemaViolation);
    }
    var leftSet, rightSet := AsHandles(left), AsHandles(right);
    if leftSet.Stop? {
      return Stop(leftSet.reason);
    }
    if rightSet.Stop? {
      return Stop(rightSet.reason);
    }
    var joined, _ := PairLoops(edge, leftSet.value, rightSet.value);
    if |joined| > env.budget.maxFanout {
      return Reject(GraphTraversalLimit);
    }
    r := Ok(RegValue(
      HandleSet(ValuesInOrder(joined)),
      left.provenance + right.provenance,
      left.taint + right.taint,
      MinTier(left.minTrust, right.minTrust),
      Max(left.joinDepth, right.joinDepth) + 1,
      FromJoin));
  }

  /** The lookup loop of PROJECT: it stops at the first wanted path that is missing. */
  method LookUpPaths(data: RegData, paths: seq<string>) returns (r: Outcome<map<string, Value>>)
    ensures r.Ok? ==> r.value.Keys == ProjectedPaths(data, paths)
                      && forall p :: p in r.value ==> ProjectField(data, p) == Some(r.value[p])
    ensures r.Stop? ==> r == Reject(FieldRedacted) && exists p :: p in ProjectedPaths(data, paths) && ProjectField(data, p).None?
  {
    var out: map<string, Value> := map[];
    if data.HandleSet? && data.handles == [] {
      return Ok(out);
    }
    for i := 0 to |paths|
      invariant out.Keys == ProjectedPaths(data, paths[..i])
      invariant forall p :: p in out ==> ProjectField(data, p) == Some(out[p])
    {
      assert paths[..i + 1] == paths[..i] + [paths[i]];
      if data.HandleSet? && paths[i] == "set_count" {
        continue;
      }
      var v := ProjectField(data, paths[i]);
      if v.None? {
        assert paths[i] in ProjectedPaths(data, paths);
        return Reject(FieldRedacted);
      }
      out := out[paths[i] := v.value];
    }
    assert paths[..|paths|] == paths;
    r := Ok(out);
  }

  method RunProject(regs: Registers, inReg: string, paths: seq<string>) returns (r: Outcome<RegValue>)
    ensures r == ExecProject(regs, inReg, paths)
  {
    if inReg !in regs {
      return Reject(SchemaViolation);
    }
    var input := regs[inReg];
    var out := LookUpPaths(input.data, paths);
    if out.Stop? {
      return Reject(FieldRedacted);
    }
    var wanted := ProjectedPaths(input.data, paths);
    assert out.value == map p | p in wanted :: ProjectField(input.data, p).value;
    var fields := out.value;
    if input.data.HandleSet? {
      fields := fields["set_count" := I64(|input.data.handles|)];
    }
    assert fields == out.value + SetCount(input.data);
    r := Ok(input.(data := Struct(fields), source := FromProject));
  }

  lemma {:induction false} BindStops(regs: Registers, bindings: map<string, ValueRef>, keys: seq<string>, n: nat, m: nat)
    requires n <= m <= |keys| && forall k :: k in keys ==> k in bindings
    requires BindPrefix(regs, bindings, keys, n).Stop?
    ensures BindPrefix(regs, bindings, keys, m) == BindPrefix(regs, bindings, keys, n)
  {
    hide BindStep;
    if n < m {
      BindStops(regs, bindings, keys, n, m - 1);
    }
  }

  /** The binding loop of ASSERT. */
  method GatherBindings(regs: Registers, bindings: map<string, ValueRef>) returns (r: Outcome<Gathered>)
    ensures r == Gather(regs, bindings)
  {
    hide ExtractBinding, MinTier, SortedKeys;
    var keys := SortedKeys(bindings.Keys);
    var fields: map<string, Value> := map[];
    var provenance: set<string> := {};
    var taint: set<int> := {};
    var minTrust := Tier4PolicySigned;
    for i := 0 to |keys|
      invariant BindPrefix(regs, bindings, keys, i) == Ok(Gathered(fields, provenance, taint, minTrust))
    {
      var binding := bindings[keys[i]];
      if binding.reg !in regs || (regs[binding.reg].source != FromFetch && regs[binding.reg].source != FromProject) {
        BindStops(regs, bindings, keys, i + 1, |keys|);
        return Reject(SchemaViolation);
      }
      var reg := regs[binding.reg];
      var value := ExtractBinding(reg, binding.fieldPath);
      if value.Stop? {
        BindStops(regs, bindings, keys, i + 1, |keys|);
        return Stop(value.reason);
      }
      fields := fields[keys[i] := value.value];
      provenance := provenance + reg.provenance;
      taint := taint + reg.taint;
      minTrust := MinTier(minTrust, reg.minTrust);
    }
    r := Ok(Gathered(fields, provenance, taint, minTrust));
  }

  lemma {:induction false} CiteStops(opts: ExecuteOptions, cites: seq<CitationRef>, n: nat, m: nat)
    requires n <= m <= |cites| && CitePrefix(opts, cites, n).Stop?
    ensures CitePrefix(opts, cites, m) == CitePrefix(opts, cites, n)
  {
    if n < m {
      CiteStops(opts, cites, n, m - 1);
    }
  }

  method ExplicitCitations(opts: ExecuteOptions, cites: seq<CitationRef>) returns (r: Outcome<set<string>>)
    ensures r == CitePrefix(opts, cites, |cites|)
  {
    var unique: set<string> := {};
    for i := 0 to |cites|
      invariant CitePrefix(opts, cites, i) == Ok(unique)
    {
      match cites[i] {
        case HandleCite(ref) =>
          if IsBroken(opts, ref) {
            CiteStops(opts, cites, i + 1, |cites|);
            return Reject(BrokenLineage);
          }
          unique := unique + {HANDLE_PREFIX + ref};
        case AnchorCite(anchor) =>
          unique := unique + {anchor};
        case NoCite =>
          CiteStops(opts, cites, i + 1, |cites|);
          return Reject(SchemaViolation);
      }
    }
    r := Ok(unique);
  }

  method ProvenanceCitations(opts: ExecuteOptions, provenance: set<string>) returns (r: Outcome<seq<string>>)
    ensures r == CanonicalizeCitations(opts, [], provenance)
  {
    var keys := SortedKeys(provenance);
    var unique: set<string> := {};
    for i := 0 to |keys|
      invariant forall j :: 0 <= j < i ==> !IsBroken(opts, keys[j])
      invariant unique == set j | 0 <= j < i :: HANDLE_PREFIX + keys[j]
    {
      if IsBroken(opts, keys[i]) {
        assert keys[i] in provenance;
        return Reject(BrokenLineage);
      }
      unique := unique + {HANDLE_PREFIX + keys[i]};
    }
    assert unique == set ref | ref in provenance :: HANDLE_PREFIX + ref by {
      forall c ensures c in unique <==> c in (set ref | ref in provenance :: HANDLE_PREFIX + ref) {
        if ref :| ref in provenance && c == HANDLE_PREFIX + ref {
          assert ref in keys;
        }
        if j :| 0 <= j < |keys| && c == HANDLE_PREFIX + keys[j] {
          assert keys[j] in provenance;
        }
      }
    }
    assert forall ref :: ref in provenance ==> ref in keys;
    r := Ok(SortedKeys(unique));
  }

  method RunCanonicalizeCitations(opts: ExecuteOptions, cites: seq<CitationRef>, provenance: set<string>) returns (r: Outcome<seq<string>>)
    ensures r == CanonicalizeCitations(opts, cites, provenance)
  {
    if cites == [] {
      r := ProvenanceCitations(opts, provenance);
    } else {
      var unique := ExplicitCitations(opts, cites);
      if unique.Stop? {
        return Stop(unique.reason);
      }
      r := Ok(SortedKeys(unique.value));
    }
  }

  method RunAssert(env: Env, regs: Registers, assertionType: int, bindings: map<string, ValueRef>, cites: seq<CitationRef>)
    returns (r: Outcome<Asserted>)
    ensures r == ExecAssert(env, regs, assertionType, bindings, cites)
  {
    var t := AssertionTypeFromI32(assertionType);
    if t == AssertUnspecified {
      return Reject(SchemaViolation);
    }
    var gathered := GatherBindings(regs, bindings);
    if gathered.Stop? {
      return Stop(gathered.reason);
    }
    var g := gathered.value;
    var minTrust := AssertTrust(g);
    if RequiresTier2(t) && TrustRank(minTrust) < TrustRank(Tier2Verified) {
      return Reject(UntrustedProvenance);
    }
    if RequiresTier2(t) && HasUntrustedTaint(g.taint) {
      return Reject(DataLeakPrevention);
    }
    if exists ref :: ref in g.provenance && IsBroken(env.opts, ref) {
      return Reject(BrokenLineage);
    }
    var citations := RunCanonicalizeCitations(env.opts, cites, g.provenance);
    if citations.Stop? {
      return Stop(citations.reason);
    }
    r := Ok(Asserted(
      RegValue(Struct(g.fields), g.provenance, g.taint, minTrust, 0, FromAssert),
      VerifiedAssertion(AssertionNumber(t), g.fields, citations.value)));
  }

  method RunOp(env: Env, regs: Registers, op: Op) returns (r: Outcome<StepResult>)
    ensures r == ExecOp(env, regs, op)
  {
    if op.AssertOp? {
      var a := RunAssert(env, regs, op.assertionType, op.bindings, op.citations);
      return if a.Ok? then Ok(StepResult(a.value.reg, Some(a.value.assertion))) else Stop(a.reason);
    }
    var plain;
    match op {
      case Fetch(ref) => plain := ExecFetch(env, ref);
      case ApplySelector(sel, params) => plain := RunApplySelector(env, sel, params);
      case Resolve(inReg, _) => plain := ExecResolve(regs, inReg);
      case Filter(inReg, filterRef, params) => plain := RunFilter(env, regs, inReg, filterRef, params);
      case Join(l, r, edge) => plain := RunJoin(env, regs, l, r, edge);
      case Project(inReg, paths) => plain := RunProject(regs, inReg, paths);
    }
    r := Plain(plain);
  }

  // The run.

  method RunSteps(env: Env, steps: seq<Step>) returns (r: Outcome<Machine>)
    ensures r == RunPrefix(env, steps, |steps|)
  {
    var regs: Registers := map[];
    var assertions: seq<VerifiedAssertion> := [];
    var traceTokens: seq<string> := [];
    hide RunPrefix, ExecOp, TraceToken;
    NothingRan(env, steps);
    for idx := 0 to |steps|
      invariant RunPrefix(env, steps, idx) == Ok(Machine(regs, assertions, traceTokens))
    {
      var step := steps[idx];
      RunOneMore(env, steps, idx + 1);
      if step.op.None? {
        RunPrefixStops(env, steps, idx + 1, |steps|);
        return Reject(SchemaViolation);
      }
      var result := RunOp(env, regs, step.op.value);
      if result.Stop? {
        RunPrefixStops(env, steps, idx + 1, |steps|);
        return Stop(result.reason);
      }
      if result.value.assertion.Some? {
        assertions := assertions + [result.value.assertion.value];
      }
      traceTokens := traceTokens + [TraceToken(idx, step.out, step.op.value)];
      regs := regs[step.out := result.value.reg];
    }
    r := Ok(Machine(regs, assertions, traceTokens));
  }

  // Proof and rendering.

  method NumberProofs(p: Primitives, leaves: seq<string>) returns (root: string, inclusion: seq<InclusionProof>)
    requires leaves != []
    ensures root == Merkle.BuildRoot(p.hashPair, leaves) && |inclusion| == |leaves|
    ensures forall j :: 0 <= j < |leaves| ==> inclusion[j] == InclusionProof(j, Merkle.Siblings(p.hashPair, leaves, j))
  {
    hide Merkle.BuildRoot, Merkle.Siblings;
    var pairs;
    root, pairs := Merkle.RootAndInclusion(p.hashPair, leaves);
    inclusion := [];
    for i := 0 to |pairs|
      invariant |inclusion| == i
      invariant forall j :: 0 <= j < i ==> inclusion[j] == InclusionProof(j, Merkle.Siblings(p.hashPair, leaves, j))
    {
      inclusion := inclusion + [InclusionProof(pairs[i].0, pairs[i].1)];
    }
  }

  method MakeProof(p: Primitives, assertions: seq<VerifiedAssertion>, trace: seq<string>) returns (proof: AssertionMerkleProof)
    ensures proof == BuildProof(p, assertions, trace)
  {
    hide Leaves, JoinText, Merkle.BuildRoot, Merkle.Siblings;
    var traceRoot := p.sha256(JoinText(trace, "\n"));
    if assertions == [] {
      assert Inclusion(p, assertions) == [];
      return AssertionMerkleProof(p.sha256(""), traceRoot, []);
    }
    var root, inclusion := NumberProofs(p, Leaves(p, assertions));
    assert inclusion == Inclusion(p, assertions);
    proof := AssertionMerkleProof(root, traceRoot, inclusion);
  }

  lemma {:induction false} NarrativeStops(p: Primitives, templates: seq<string>, n: nat, m: nat, assertions: seq<VerifiedAssertion>)
    requires n <= m <= |templates| && NarrativePrefix(p, templates, n, assertions).Stop?
    ensures NarrativePrefix(p, templates, m, assertions) == NarrativePrefix(p, templates, n, assertions)
  {
    hide NarrativeBlock;
    if n < m {
      NarrativeStops(p, templates, n, m - 1, assertions);
    }
  }

  method RenderBlock(p: Primitives, template: string, assertions: seq<VerifiedAssertion>) returns (r: Outcome<string>)
    ensures r == NarrativeBlock(p, template, assertions)
  {
    if !Narrative.ValidTemplate(p.foreignDigit, template) {
      return Reject(DataLeakPrevention);
    }
    r := Narrative.RenderNarrativeTemplate(p.foreignDigit, p.showFloat, template, assertions);
  }

  method RenderNarrative(p: Primitives, templates: seq<string>, assertions: seq<VerifiedAssertion>) returns (r: Outcome<seq<string>>)
    ensures r == NarrativePrefix(p, templates, |templates|, assertions)
  {
    hide NarrativeBlock;
    var blocks: seq<string> := [];
    for i := 0 to |templates|
      invariant NarrativePrefix(p, templates, i, assertions) == Ok(blocks)
    {
      var text := RenderBlock(p, templates[i], assertions);
      if text.Stop? {
        NarrativeStops(p, templates, i + 1, |templates|, assertions);
        return Stop(text.reason);
      }
      blocks := blocks + [text.value];
    }
    r := Ok(blocks);
  }

  method RenderRegisters(p: Primitives, outputs: seq<string>, regs: Registers) returns (blocks: seq<string>)
    ensures blocks == OutputBlocks(p, outputs, |outputs|, regs)
  {
    hide RegToString;
    blocks := [];
    for i := 0 to |outputs|
      invariant blocks == OutputBlocks(p, outputs, i, regs)
    {
      if outputs[i] in regs {
        blocks := blocks + [outputs[i] + "=" + RegToString(p, regs[outputs[i]])];
      }
    }
  }

  method RenderAssertions(p: Primitives, assertions: seq<VerifiedAssertion>) returns (blocks: seq<string>)
    ensures blocks == AssertionBlocks(p, assertions)
  {
    hide AssertionBlock;
    blocks := [];
    for i := 0 to |assertions|
      invariant |blocks| == i && forall j :: 0 <= j < i ==> blocks[j] == AssertionBlock(p, assertions[j])
    {
      blocks := blocks + [AssertionBlock(p, assertions[i])];
    }
  }

  method RunRenderOutput(p: Primitives, opts: ExecuteOptions, outputs: seq<string>, m: Machine) returns (r: Outcome<RenderedOutput>)
    ensures r == RenderOutput(p, opts, outputs, m)
  {
    var verified;
    if m.assertions == [] {
      verified := RenderRegisters(p, outputs, m.regs);
    } else {
      verified := RenderAssertions(p, m.assertions);
    }
    var narrative := RenderNarrative(p, opts.narrativeTemplates, m.assertions);
    if narrative.Stop? {
      return Stop(narrative.reason);
    }
    r := Ok(RenderedOutput(verified, narrative.value));
  }

  /** `execute_inner` */
  method RunExecuteInner(p: Primitives, req: ExecuteRequest, opts: ExecuteOptions) returns (r: Outcome<Success>)
    ensures r == ExecuteInner(p, req, opts)
  {
    if req.manifest.None? || req.plan.None? {
      return Reject(SchemaViolation);
    }
    var m, plan := req.manifest.value, req.plan.value;
    if RequestIdsClash(m, plan) {
      return Reject(SchemaViolation);
    }
    var env := MakeEnv(m, opts);
    var checked := RunStaticCheck(env, p.power, plan);
    if checked.Stop? {
      return Stop(checked.reason);
    }
    var machine := RunSteps(env, plan.steps);
    if machine.Stop? {
      return Stop(machine.reason);
    }
    var proof := MakeProof(p, machine.value.assertions, machine.value.trace);
    var rendered := RunRenderOutput(p, opts, plan.outputs, machine.value);
    if rendered.Stop? {
      return Stop(rendered.reason);
    }
    r := Ok(Success(machine.value.assertions, proof, rendered.value));
  }

  /** The kernel entry point. */
  method RunExecute(p: Primitives, req: ExecuteRequest, opts: ExecuteOptions) returns (resp: ExecuteResponse)
    ensures resp == Execute(p, req, opts)
  {
    var r := RunExecuteInner(p, req, opts);
    resp := Respond(r);
  }
}
