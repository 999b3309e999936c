/**
  Value flow: what a step writes depends on the manifest only through what the sources behind it
  supply. Two manifests that supply them alike cannot be told apart at that step.
 */
module Noninterference {
  import opened Wrappers
  import opened Proto
  import opened Text
  import opened Sorting
  import opened Handles
  import opened Semantics
  import opened Runs
  import opened InformationFlow
  import opened Permutation
  import opened Citations
  import opened Opcodes
  import opened Renaming
  import opened DeadStep

  /** No ref is listed twice. */
  ghost predicate DistinctRefs(hs: seq<HandleRef>) {
    forall i, j :: 0 <= i < j < |hs| ==> hs[i].ref != hs[j].ref
  }

  function ReturnOf(env: Env, op: Op): SelectorReturn
    requires op.ApplySelector? && op.selectorRef in env.selectors
  {
    SelectorReturnFromI32(env.selectors[op.selectorRef].returnType)
  }

  /** The two manifests supply the source `op` alike: the same handles, for a selector in the same form, and for a struct the same size. */
  ghost predicate SuppliedAlike(env: Env, env': Env, op: Op) {
    && SourceHandles(env, op) == SourceHandles(env', op)
    && (op.ApplySelector? && op.selectorRef in env.selectors && op.selectorRef in env'.selectors ==>
        ReturnOf(env, op) == ReturnOf(env', op) && (ReturnOf(env, op) == ReturnStruct ==> |env.handles| == |env'.handles|))
  }

  lemma {:induction false} DistinctCounts(hs: seq<HandleRef>, h: HandleRef)
    requires DistinctRefs(hs)
    ensures multiset(hs)[h] == if h in hs then 1 else 0
  {
    if hs != [] {
      var init, last := hs[..|hs| - 1], hs[|hs| - 1];
      assert hs == init + [last];
      DistinctCounts(init, h);
    }
  }

  lemma DistinctRefsDistinguish(hs: seq<HandleRef>)
    requires DistinctRefs(hs)
    ensures RefsDistinguish(hs)
  {
  }

  /** A selector call on manifests with the same matching handles selects the same list. */
  lemma SameSelection(env: Env, env': Env, sel: string, params: map<string, Value>)
    requires DistinctRefs(env.handles) && DistinctRefs(env'.handles)
    requires SourceHandles(env, ApplySelector(sel, params)) == SourceHandles(env', ApplySelector(sel, params))
    ensures Selected(env, params) == Selected(env', params)
  {
    hide SelectorMatch;
    var xs, ys := Matching(env.handles, params), Matching(env'.handles, params);
    var hs := SourceHandles(env, ApplySelector(sel, params));
    forall h ensures multiset(xs)[h] == multiset(ys)[h] {
      MatchingCounts(env.handles, params, h);
      MatchingCounts(env'.handles, params, h);
      DistinctCounts(env.handles, h);
      DistinctCounts(env'.handles, h);
      assert h in hs <==> h in env.handles && SelectorMatch(h, params);
      assert h in hs <==> h in env'.handles && SelectorMatch(h, params);
    }
    assert multiset(xs) == multiset(ys);
    MatchesAreTieFree(env, params);
    RefLeIsPreorder();
    SortPermutation(RefLe, xs, ys);
  }

  lemma MatchesAreTieFree(env: Env, params: map<string, Value>)
    requires DistinctRefs(env.handles)
    ensures TieFree(RefLe, Matching(env.handles, params))
  {
    hide SelectorMatch;
    DistinctRefsDistinguish(env.handles);
    var xs := Matching(env.handles, params);
    forall x, y | x in xs && y in xs && RefLe(x, y) && RefLe(y, x) ensures x == y {
      if x.ref != y.ref { LessAsymmetric(x.ref, y.ref); }
    }
  }

  /** The two runs' outcomes of one operation, where both succeed. */
  ghost predicate SameWhereOk<T>(r: Outcome<T>, r': Outcome<T>) {
    r.Ok? && r'.Ok? ==> r == r'
  }

  lemma SameFetch(env: Env, env': Env, ref: string)
    requires SourceHandles(env, Fetch(ref)) == SourceHandles(env', Fetch(ref))
    ensures SameWhereOk(ExecFetch(env, ref), ExecFetch(env', ref))
  {
    var hs := SourceHandles(env, Fetch(ref));
    if ref in env.handlesByRef && AvailabilityFromI32(env.handlesByRef[ref].availability) == Ready {
      assert env.handlesByRef[ref] in hs;
    }
    if ref in env'.handlesByRef && AvailabilityFromI32(env'.handlesByRef[ref].availability) == Ready {
      assert env'.handlesByRef[ref] in hs;
    }
  }

  lemma SameApplySelector(env: Env, env': Env, sel: string, params: map<string, Value>)
    requires DistinctRefs(env.handles) && DistinctRefs(env'.handles) && SuppliedAlike(env, env', ApplySelector(sel, params))
    ensures SameWhereOk(ExecApplySelector(env, sel, params), ExecApplySelector(env', sel, params))
  {
    hide SourceHandles, CheckParams, Selected, Refs, Taints, SelectedTrust;
    SameSelection(env, env', sel, params);
  }

  lemma SameCitations(opts: ExecuteOptions, opts': ExecuteOptions, cites: seq<CitationRef>, provenance: set<string>)
    ensures SameWhereOk(CanonicalizeCitations(opts, cites, provenance), CanonicalizeCitations(opts', cites, provenance))
  {
    CitePrefixMeans(opts, cites, |cites|);
    CitePrefixMeans(opts', cites, |cites|);
    var a, b := CitePrefix(opts, cites, |cites|), CitePrefix(opts', cites, |cites|);
    if a.Ok? && b.Ok? {
      assert a.value == b.value;
    }
  }

  lemma SameAssert(env: Env, env': Env, regs: Registers, op: Op)
    requires op.AssertOp?
    ensures SameWhereOk(ExecOp(env, regs, op), ExecOp(env', regs, op))
  {
    var g := Gather(regs, op.bindings);
    if g.Ok? {
      SameCitations(env.opts, env'.opts, op.citations, g.value.provenance);
      hide CanonicalizeCitations, Gather, IsBroken, HasUntrustedTaint, AssertTrust;
    }
  }

  /** An operation that succeeds under two manifests which supply it alike gives the same result. */
  lemma OpSame(env: Env, env': Env, regs: Registers, op: Op)
    requires DistinctRefs(env.handles) && DistinctRefs(env'.handles)
    requires IsSource(op) ==> SuppliedAlike(env, env', op)
    ensures SameWhereOk(ExecOp(env, regs, op), ExecOp(env', regs, op))
  {
    match op
    case Fetch(ref) => SameFetch(env, env', ref);
    case ApplySelector(sel, params) => SameApplySelector(env, env', sel, params);
    case AssertOp(_, _, _) => SameAssert(env, env', regs, op);
    case _ =>
  }

  /** The registers an operation reads hold the same in both. */
  ghost predicate AgreeOn(names: set<string>, regs: Registers, regs': Registers) {
    forall r :: r in names ==> r in regs && r in regs' && regs[r] == regs'[r]
  }

  lemma StepSame(env: Env, env': Env, regs: Registers, regs': Registers, op: Op)
    requires DistinctRefs(env.handles) && DistinctRefs(env'.handles) && AgreeOn(Operands(op), regs, regs')
    requires IsSource(op) ==> SuppliedAlike(env, env', op)
    ensures SameWhereOk(ExecOp(env, regs, op), ExecOp(env', regs', op))
  {
    hide ExecOp, SuppliedAlike, DistinctRefs, Operands, IsSource;
    OpSame(env, env', regs, op);
    ExecOpRenamed(env', Same, regs, regs', op);
    SameRenaming(op);
  }

  /** All sources behind step `i` are supplied alike. */
  ghost predicate AllSuppliedAlike(env: Env, env': Env, steps: seq<Step>, i: nat)
    requires i < |steps|
  {
    forall j :: j in SourcesOf(steps, i) && steps[j].op.Some? ==> SuppliedAlike(env, env', steps[j].op.value)
  }

  /** The sources behind an operand are among those behind the step that reads it. */
  lemma OperandSources(steps: seq<Step>, i: nat, r: string)
    requires i < |steps| && steps[i].op.Some? && r in Operands(steps[i].op.value) && Definer(steps, i, r).Some?
    ensures SourcesOf(steps, Definer(steps, i, r).value) <= SourcesOf(steps, i)
  {
    hide SourcesOf, Reaches;
    if IsSource(steps[i].op.value) { SourceHasNoOperands(steps[i].op.value); }
    forall j | j in SourcesOf(steps, Definer(steps, i, r).value) ensures j in SourcesOf(steps, i) {
      SourcesThroughOperands(steps, i, j);
    }
  }

  lemma OperandsSuppliedAlike(env: Env, env': Env, steps: seq<Step>, i: nat, r: string)
    requires i < |steps| && steps[i].op.Some? && r in Operands(steps[i].op.value) && Definer(steps, i, r).Some?
    requires AllSuppliedAlike(env, env', steps, i)
    ensures AllSuppliedAlike(env, env', steps, Definer(steps, i, r).value)
  {
    hide SourcesOf, SuppliedAlike;
    OperandSources(steps, i, r);
  }

  /**
    Noninterference. Two manifests with distinct refs that supply all sources behind step `i` alike,
    under any budgets and options that let both runs pass it, give the same register there and the
    same assertion, values and citations included.
   */
  lemma {:induction false} StepsCannotTell(env: Env, env': Env, steps: seq<Step>, i: nat)
    requires i < |steps| && RunPrefix(env, steps, i + 1).Ok? && RunPrefix(env', steps, i + 1).Ok?
    requires DistinctRefs(env.handles) && DistinctRefs(env'.handles) && AllSuppliedAlike(env, env', steps, i)
    ensures Written(env, steps, i) == Written(env', steps, i) && Issued(env, steps, i) == Issued(env', steps, i)
    decreases i
  {
    hide ExecOp, RunStep, SuppliedAlike, SourcesOf, DistinctRefs, IsSource, Operands;
    StepRan(env, steps, i);
    StepRan(env', steps, i);
    var op, regs, regs' := steps[i].op.value, MachineAt(env, steps, i).regs, MachineAt(env', steps, i).regs;
    OperandsPresent(env, regs, op);
    OperandsPresent(env', regs', op);
    forall r | r in Operands(op) ensures r in regs && r in regs' && regs[r] == regs'[r] {
      ReadsDefiner(env, steps, i, r);
      ReadsDefiner(env', steps, i, r);
      OperandsSuppliedAlike(env, env', steps, i, r);
      StepsCannotTell(env, env', steps, Definer(steps, i, r).value);
    }
    if IsSource(op) { OwnSupply(env, env', steps, i); }
    StepSame(env, env', regs, regs', op);
  }

  lemma OwnSupply(env: Env, env': Env, steps: seq<Step>, i: nat)
    requires i < |steps| && steps[i].op.Some? && IsSource(steps[i].op.value) && AllSuppliedAlike(env, env', steps, i)
    ensures SuppliedAlike(env, env', steps[i].op.value)
  {
    hide SuppliedAlike;
    SourceHasNoOperands(steps[i].op.value);
    SourceReachesItself(env, steps, i);
  }

  /**
    The leak: with the same matching handles a struct selector that no parameter overrides tells two
    manifests apart exactly by their size.
   */
  lemma SizeIsTheOnlyLeak(env: Env, env': Env, sel: string, params: map<string, Value>)
    requires DistinctRefs(env.handles) && DistinctRefs(env'.handles) && "matched_count" !in params
    requires SourceHandles(env, ApplySelector(sel, params)) == SourceHandles(env', ApplySelector(sel, params))
    requires ExecApplySelector(env, sel, params).Ok? && ExecApplySelector(env, sel, params).value.data.Struct?
    requires ExecApplySelector(env', sel, params).Ok? && ExecApplySelector(env', sel, params).value.data.Struct?
    ensures ExecApplySelector(env, sel, params) == ExecApplySelector(env', sel, params) <==> |env.handles| == |env'.handles|
  {
    hide CheckParams, Selected, Refs, Taints, SelectedTrust, SourceHandles;
    StructSelectorFields(env, sel, params);
    StructSelectorFields(env', sel, params);
    if |env.handles| == |env'.handles| {
      SameApplySelector(env, env', sel, params);
    } else {
      var a, b := ExecApplySelector(env, sel, params).value.data.fields, ExecApplySelector(env', sel, params).value.data.fields;
      assert a["matched_count"] != b["matched_count"];
    }
  }
}
