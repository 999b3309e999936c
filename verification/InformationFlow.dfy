/**
  Information flow is exact: the metadata of a register is determined by the source steps reachable
  backwards through the operands of the plan. The trust and taint gates of ASSERT then hold for every
  handle behind an assertion.
 */
module InformationFlow {
  import opened Wrappers
  import opened Proto
  import opened Handles
  import opened Semantics
  import opened Runs

  /** Step `i` reads what step `k` wrote. */
  predicate Reads(steps: seq<Step>, i: nat, k: nat)
    requires i < |steps|
  {
    steps[i].op.Some? && exists r :: r in Operands(steps[i].op.value) && Definer(steps, i, r) == Some(k)
  }

  /** There is a path of reads from step `i` back to step `j`. */
  predicate Reaches(steps: seq<Step>, i: nat, j: nat)
    requires i < |steps|
    decreases i
  {
    i == j || exists k :: 0 <= k < i && Reads(steps, i, k) && Reaches(steps, k, j)
  }

  /** Operations that bring data in: FETCH, APPLY_SELECTOR, and an ASSERT that binds nothing. */
  predicate IsSource(op: Op) {
    op.Fetch? || op.ApplySelector? || (op.AssertOp? && op.bindings == map[])
  }

  /** The manifest handles a source step takes its data from. */
  function SourceHandles(env: Env, op: Op): set<HandleRef> {
    match op
    case Fetch(ref) =>
      if ref in env.handlesByRef && AvailabilityFromI32(env.handlesByRef[ref].availability) == Ready then {env.handlesByRef[ref]} else {}
    case ApplySelector(_, params) => set h | h in env.handles && SelectorMatch(h, params)
    case _ => {}
  }

  function SourcesOf(steps: seq<Step>, i: nat): set<nat>
    requires i < |steps|
  {
    set j: nat | 0 <= j <= i && Reaches(steps, i, j) && steps[j].op.Some? && IsSource(steps[j].op.value)
  }

  /** All handles that flow into what step `i` writes. */
  function LeafHandles(env: Env, steps: seq<Step>, i: nat): set<HandleRef>
    requires i < |steps|
  {
    set j, h | j in SourcesOf(steps, i) && steps[j].op.Some? && h in SourceHandles(env, steps[j].op.value) :: h
  }

  /** Some source behind step `i` supplied no handle at all. */
  predicate HasEmptySource(env: Env, steps: seq<Step>, i: nat)
    requires i < |steps|
  {
    exists j :: j in SourcesOf(steps, i) && steps[j].op.Some? && SourceHandles(env, steps[j].op.value) == {}
  }

  function RefsOf(hs: set<HandleRef>): set<string> {
    set h | h in hs :: h.ref
  }

  function TaintsOf(hs: set<HandleRef>): set<int> {
    set h, t | h in hs && t in HandleTaint(h) :: t
  }

  ghost predicate MetadataIs(r: RegValue, hs: set<HandleRef>, hasEmpty: bool) {
    && r.provenance == RefsOf(hs)
    && r.taint == TaintsOf(hs)
    && (hasEmpty ==> r.minTrust == TrustUnspecified)
    && (forall h :: h in hs ==> TrustRank(r.minTrust) <= TrustRank(HandleTrust(h)))
    && (hasEmpty || exists h :: h in hs && r.minTrust == HandleTrust(h))
  }

  // One step.

  lemma FetchFlow(env: Env, ref: string)
    requires ExecFetch(env, ref).Ok?
    ensures MetadataIs(ExecFetch(env, ref).value, SourceHandles(env, Fetch(ref)), SourceHandles(env, Fetch(ref)) == {})
  {
    var hs := SourceHandles(env, Fetch(ref));
    if hs != {} {
      var x := env.handlesByRef[ref];
      assert x in hs;
      forall t | t in HandleTaint(x) ensures t in TaintsOf(hs) {
        assert x in hs && t in HandleTaint(x);
      }
    }
  }

  lemma SelectorFlow(env: Env, sel: string, params: map<string, Value>)
    requires ExecApplySelector(env, sel, params).Ok?
    ensures var hs := SourceHandles(env, ApplySelector(sel, params));
            MetadataIs(ExecApplySelector(env, sel, params).value, hs, hs == {})
  {
    var hs := SourceHandles(env, ApplySelector(sel, params));
    var matched := Selected(env, params);
    SortByRefMembers(Matching(env.handles, params));
    WeakestTrustIsMinimum(matched);
    assert forall h :: h in matched <==> h in hs;
    if matched != [] {
      assert matched[0] in hs;
    } else {
      assert hs == {};
    }
  }

  lemma EmptyAssertFlow(env: Env, regs: Registers, op: Op)
    requires op.AssertOp? && op.bindings == map[] && ExecOp(env, regs, op).Ok?
    ensures MetadataIs(ExecOp(env, regs, op).value.reg, SourceHandles(env, op), true)
  {
    AssertWrites(env, regs, op);
    GatherFacts(regs, op.bindings);
    assert Gather(regs, op.bindings).value.fields == map[];
  }

  lemma SourceFlow(env: Env, regs: Registers, op: Op)
    requires IsSource(op) && ExecOp(env, regs, op).Ok?
    ensures MetadataIs(ExecOp(env, regs, op).value.reg, SourceHandles(env, op), SourceHandles(env, op) == {})
  {
    match op
    case Fetch(ref) => FetchFlow(env, ref);
    case ApplySelector(sel, params) => SelectorFlow(env, sel, params);
    case AssertOp(_, _, _) => EmptyAssertFlow(env, regs, op);
    case _ =>
  }

  /** An operation that is not a source merges the metadata of its operands. */
  ghost predicate Merges(r: RegValue, regs: Registers, operands: set<string>)
    requires operands <= regs.Keys
  {
    && operands != {}
    && (forall x :: x in r.provenance <==> exists o :: o in operands && x in regs[o].provenance)
    && (forall t :: t in r.taint <==> exists o :: o in operands && t in regs[o].taint)
    && (forall o :: o in operands ==> TrustRank(r.minTrust) <= TrustRank(regs[o].minTrust))
    && (exists o :: o in operands && r.minTrust == regs[o].minTrust)
  }

  lemma GatheredMerges(regs: Registers, bindings: map<string, ValueRef>, g: Gathered, os: set<string>)
    requires bindings != map[] && GatheredFrom(g, regs, bindings, bindings.Keys)
    requires os == (set k | k in bindings :: bindings[k].reg)
    ensures os <= regs.Keys && Merges(AssertRegister(g), regs, os)
  {
    assert bindings.Keys != {};
    var name :| name in bindings;
    assert name in g.fields;
    forall x | x in g.provenance ensures exists o :: o in os && x in regs[o].provenance {
      var k :| k in bindings.Keys && x in regs[bindings[k].reg].provenance;
      assert bindings[k].reg in os;
    }
    forall t | t in g.taint ensures exists o :: o in os && t in regs[o].taint {
      var k :| k in bindings.Keys && t in regs[bindings[k].reg].taint;
      assert bindings[k].reg in os;
    }
    var k :| k in bindings.Keys && g.minTrust == regs[bindings[k].reg].minTrust;
    assert bindings[k].reg in os;
  }

  lemma AssertMerges(env: Env, regs: Registers, op: Op)
    requires op.AssertOp? && op.bindings != map[] && ExecOp(env, regs, op).Ok?
    ensures Operands(op) <= regs.Keys && Merges(ExecOp(env, regs, op).value.reg, regs, Operands(op))
  {
    AssertWrites(env, regs, op);
    GatherFacts(regs, op.bindings);
    GatheredMerges(regs, op.bindings, Gather(regs, op.bindings).value, Operands(op));
  }

  lemma StepMerges(env: Env, regs: Registers, op: Op)
    requires !IsSource(op) && ExecOp(env, regs, op).Ok?
    ensures Operands(op) <= regs.Keys && Merges(ExecOp(env, regs, op).value.reg, regs, Operands(op))
  {
    OperandsPresent(env, regs, op);
    match op
    case Resolve(inReg, _) => assert inReg in Operands(op);
    case Filter(inReg, _, _) => assert inReg in Operands(op);
    case Project(inReg, _) => assert inReg in Operands(op);
    case Join(l, r, _) => assert l in Operands(op) && r in Operands(op);
    case AssertOp(_, _, _) => AssertMerges(env, regs, op);
    case _ =>
  }

  // Whole runs.

  lemma SourceReachesItself(env: Env, steps: seq<Step>, i: nat)
    requires i < |steps| && steps[i].op.Some? && IsSource(steps[i].op.value)
    requires Operands(steps[i].op.value) == {}
    ensures SourcesOf(steps, i) == {i}
    ensures LeafHandles(env, steps, i) == SourceHandles(env, steps[i].op.value)
    ensures HasEmptySource(env, steps, i) <==> SourceHandles(env, steps[i].op.value) == {}
  {
    forall j ensures Reaches(steps, i, j) <==> i == j {
    }
    assert i in SourcesOf(steps, i);
  }

  lemma SourceHasNoOperands(op: Op)
    requires IsSource(op)
    ensures Operands(op) == {}
  {
  }

  /** A non-source step reaches exactly the sources its operands reach. */
  lemma SourcesThroughOperands(steps: seq<Step>, i: nat, j: nat)
    requires i < |steps| && steps[i].op.Some? && !IsSource(steps[i].op.value)
    ensures j in SourcesOf(steps, i)
            <==> exists r :: r in Operands(steps[i].op.value) && Definer(steps, i, r).Some? && j in SourcesOf(steps, Definer(steps, i, r).value)
  {
    var op := steps[i].op.value;
    if j in SourcesOf(steps, i) {
      var k :| 0 <= k < i && Reads(steps, i, k) && Reaches(steps, k, j);
      var r :| r in Operands(op) && Definer(steps, i, r) == Some(k);
      ReachesBack(steps, k, j);
      assert j in SourcesOf(steps, k);
    }
    if r :| r in Operands(op) && Definer(steps, i, r).Some? && j in SourcesOf(steps, Definer(steps, i, r).value) {
      assert Reads(steps, i, Definer(steps, i, r).value);
    }
  }

  lemma {:induction false} ReachesBack(steps: seq<Step>, i: nat, j: nat)
    requires i < |steps| && Reaches(steps, i, j)
    ensures j <= i
    decreases i
  {
    if i != j {
      var k :| 0 <= k < i && Reads(steps, i, k) && Reaches(steps, k, j);
      ReachesBack(steps, k, j);
    }
  }

  /** Merging registers whose metadata comes from `parts` gives metadata that comes from their union. */
  lemma MergedMetadata(r: RegValue, regs: Registers, os: set<string>, parts: map<string, set<HandleRef>>, empties: set<string>,
                       hs: set<HandleRef>)
    requires os <= regs.Keys && Merges(r, regs, os) && parts.Keys == os && empties <= os
    requires forall o :: o in os ==> MetadataIs(regs[o], parts[o], o in empties)
    requires forall h :: h in hs <==> exists o :: o in os && h in parts[o]
    ensures MetadataIs(r, hs, empties != {})
  {
    forall x ensures x in r.provenance <==> x in RefsOf(hs) {
      if o :| o in os && x in regs[o].provenance {
        var h :| h in parts[o] && x == h.ref;
        assert h in hs;
      }
      if h :| h in hs && x == h.ref {
        var o :| o in os && h in parts[o];
        assert x in regs[o].provenance;
      }
    }
    forall t ensures t in r.taint <==> t in TaintsOf(hs) {
      if o :| o in os && t in regs[o].taint {
        var h :| h in parts[o] && t in HandleTaint(h);
        assert h in hs;
      }
      if h :| h in hs && t in HandleTaint(h) {
        var o :| o in os && h in parts[o];
        assert t in regs[o].taint;
      }
    }
    forall h | h in hs ensures TrustRank(r.minTrust) <= TrustRank(HandleTrust(h)) {
      var o :| o in os && h in parts[o];
      assert TrustRank(r.minTrust) <= TrustRank(regs[o].minTrust);
    }
    if empties != {} {
      var o :| o in empties;
      assert TrustRank(r.minTrust) <= TrustRank(regs[o].minTrust) == 0;
      TierBounds(TrustUnspecified);
    } else {
      var o :| o in os && r.minTrust == regs[o].minTrust;
      var h :| h in parts[o] && regs[o].minTrust == HandleTrust(h);
      assert h in hs;
    }
  }

  /** The handles behind operand `r` of step `i`. */
  function LeavesOf(env: Env, steps: seq<Step>, i: nat, r: string): set<HandleRef>
    requires i < |steps|
  {
    var d := Definer(steps, i, r);
    if d.Some? then LeafHandles(env, steps, d.value) else {}
  }

  predicate EmptyOf(env: Env, steps: seq<Step>, i: nat, r: string)
    requires i < |steps|
  {
    var d := Definer(steps, i, r);
    d.Some? && HasEmptySource(env, steps, d.value)
  }

  lemma LeavesThroughOperands(env: Env, steps: seq<Step>, i: nat, h: HandleRef)
    requires i < |steps| && steps[i].op.Some? && !IsSource(steps[i].op.value)
    ensures h in LeafHandles(env, steps, i)
            <==> exists r :: r in Operands(steps[i].op.value) && h in LeavesOf(env, steps, i, r)
  {
    hide SourceHandles, Operands, IsSource, Reaches;
    var op := steps[i].op.value;
    if h in LeafHandles(env, steps, i) {
      var j :| j in SourcesOf(steps, i) && h in SourceHandles(env, steps[j].op.value);
      SourcesThroughOperands(steps, i, j);
      var r :| r in Operands(op) && Definer(steps, i, r).Some? && j in SourcesOf(steps, Definer(steps, i, r).value);
      assert h in LeavesOf(env, steps, i, r);
    }
    if r :| r in Operands(op) && h in LeavesOf(env, steps, i, r) {
      var k := Definer(steps, i, r).value;
      var j :| j in SourcesOf(steps, k) && h in SourceHandles(env, steps[j].op.value);
      SourcesThroughOperands(steps, i, j);
      assert j in SourcesOf(steps, i);
    }
  }

  lemma EmptyThroughOperands(env: Env, steps: seq<Step>, i: nat)
    requires i < |steps| && steps[i].op.Some? && !IsSource(steps[i].op.value)
    ensures HasEmptySource(env, steps, i)
            <==> exists r :: r in Operands(steps[i].op.value) && EmptyOf(env, steps, i, r)
  {
    hide SourceHandles, Operands, IsSource, Reaches;
    var op := steps[i].op.value;
    if HasEmptySource(env, steps, i) {
      var j :| j in SourcesOf(steps, i) && SourceHandles(env, steps[j].op.value) == {};
      SourcesThroughOperands(steps, i, j);
      var r :| r in Operands(op) && Definer(steps, i, r).Some? && j in SourcesOf(steps, Definer(steps, i, r).value);
      assert EmptyOf(env, steps, i, r);
    }
    if r :| r in Operands(op) && EmptyOf(env, steps, i, r) {
      var k := Definer(steps, i, r).value;
      var j :| j in SourcesOf(steps, k) && SourceHandles(env, steps[j].op.value) == {};
      SourcesThroughOperands(steps, i, j);
      assert j in SourcesOf(steps, i);
    }
  }

  lemma OperandFlow(env: Env, steps: seq<Step>, i: nat, regs: Registers, r: RegValue)
    requires i < |steps| && steps[i].op.Some? && !IsSource(steps[i].op.value)
    requires Operands(steps[i].op.value) <= regs.Keys && Merges(r, regs, Operands(steps[i].op.value))
    requires forall o :: o in Operands(steps[i].op.value) ==> MetadataIs(regs[o], LeavesOf(env, steps, i, o), EmptyOf(env, steps, i, o))
    ensures MetadataIs(r, LeafHandles(env, steps, i), HasEmptySource(env, steps, i))
  {
    hide LeavesOf, EmptyOf, Merges, MetadataIs, LeafHandles, HasEmptySource;
    var os := Operands(steps[i].op.value);
    var parts := map o | o in os :: LeavesOf(env, steps, i, o);
    var empties := set o | o in os && EmptyOf(env, steps, i, o);
    var hs := LeafHandles(env, steps, i);
    forall h ensures h in hs <==> exists o :: o in os && h in parts[o] {
      LeavesThroughOperands(env, steps, i, h);
    }
    EmptyThroughOperands(env, steps, i);
    MergedMetadata(r, regs, os, parts, empties, hs);
  }

  /**
    Information-flow exactness. In a run that reached past step `i`, the provenance and taint of the
    register step `i` wrote are exactly those of the handles behind it, and its trust is the weakest
    of theirs, or unspecified when some source behind it supplied no handle.
   */
  lemma {:induction false} FlowExact(env: Env, steps: seq<Step>, i: nat)
    requires i < |steps| && RunPrefix(env, steps, i + 1).Ok?
    ensures MetadataIs(Written(env, steps, i), LeafHandles(env, steps, i), HasEmptySource(env, steps, i))
    decreases i
  {
    StepRan(env, steps, i);
    var op := steps[i].op.value;
    var regs := MachineAt(env, steps, i).regs;
    if IsSource(op) {
      SourceHasNoOperands(op);
      SourceReachesItself(env, steps, i);
      SourceFlow(env, regs, op);
    } else {
      StepMerges(env, regs, op);
      forall o | o in Operands(op)
        ensures MetadataIs(regs[o], LeavesOf(env, steps, i, o), EmptyOf(env, steps, i, o))
      {
        ReadsDefiner(env, steps, i, o);
        FlowExact(env, steps, Definer(steps, i, o).value);
      }
      OperandFlow(env, steps, i, regs, Written(env, steps, i));
    }
  }
}
