/** The gates of ASSERT hold for every handle behind an assertion, not only for its bindings. */
module Gates {
  import opened Wrappers
  import opened Proto
  import opened Handles
  import opened Semantics
  import opened Runs
  import opened InformationFlow

  /** What ASSERT has checked when it issues an assertion. */
  lemma AssertPassedGates(env: Env, regs: Registers, op: Op)
    requires op.AssertOp? && ExecOp(env, regs, op).Ok?
    ensures var r := ExecOp(env, regs, op).value.reg;
            var a := ExecOp(env, regs, op).value.assertion;
            var t := AssertionTypeFromI32(op.assertionType);
            && a.Some? && r.data == Struct(a.value.fields) && a.value.assertionType == AssertionNumber(t)
            && t != AssertUnspecified
            && (RequiresTier2(t) ==> TrustRank(r.minTrust) >= TrustRank(Tier2Verified) && !HasUntrustedTaint(r.taint))
            && (forall ref :: ref in r.provenance ==> !IsBroken(env.opts, ref))
            && CanonicalizeCitations(env.opts, op.citations, r.provenance) == Ok(a.value.citations)
  {
  }

  lemma {:induction false} CitedHandlesUnbroken(opts: ExecuteOptions, cites: seq<CitationRef>, n: nat)
    requires n <= |cites| && CitePrefix(opts, cites, n).Ok?
    ensures forall i :: 0 <= i < n && cites[i].HandleCite? ==> !IsBroken(opts, cites[i].handleRef)
    ensures forall i :: 0 <= i < n ==> !cites[i].NoCite?
  {
    if n > 0 {
      CitedHandlesUnbroken(opts, cites, n - 1);
    }
  }

  lemma {:induction false} LeavesAreManifestHandles(env: Env, steps: seq<Step>, i: nat)
    requires i < |steps| && WellIndexed(env)
    ensures forall h :: h in LeafHandles(env, steps, i) ==> h in env.handles
  {
  }

  /** A handle a gated assertion may rest on. */
  predicate Trusted(h: HandleRef) {
    TrustRank(HandleTrust(h)) >= TrustRank(Tier2Verified) && !HasUntrustedTaint(HandleTaint(h))
  }

  /**
    What the gates guarantee for assertion `a` issued by step `i`. If its type is a preference,
    decision or procedure, some handle is behind it, no source behind it was empty, and every handle
    behind it is trusted. Outside degraded mode no handle behind it and no handle it cites has broken
    lineage.
   */
  ghost predicate Gated(env: Env, steps: seq<Step>, i: nat, a: VerifiedAssertion)
    requires i < |steps| && IsAssertStep(steps[i])
  {
    var leaves := LeafHandles(env, steps, i);
    && (RequiresTier2(AssertionTypeFromI32(a.assertionType)) ==>
        leaves != {} && !HasEmptySource(env, steps, i) && forall h :: h in leaves ==> Trusted(h))
    && (!env.opts.degradedMode ==>
        && (forall h :: h in leaves ==> h.ref !in env.opts.brokenLineageHandles)
        && (forall c :: c in steps[i].op.value.citations && c.HandleCite? ==> c.handleRef !in env.opts.brokenLineageHandles))
  }

  /** In an OK request every assertion is gated, and every handle behind it is in the manifest. */
  lemma GatesHoldForEveryLeaf(p: Primitives, m: PublicManifest, plan: RmvmPlan, opts: ExecuteOptions, k: nat)
    requires ExecutePlan(p, m, plan, opts).Ok? && k < |ExecutePlan(p, m, plan, opts).value.assertions|
    ensures k < |AssertSteps(plan.steps, |plan.steps|)|
    ensures var env, i := MakeEnv(m, opts), AssertSteps(plan.steps, |plan.steps|)[k];
            && Gated(env, plan.steps, i, ExecutePlan(p, m, plan, opts).value.assertions[k])
            && forall h :: h in LeafHandles(env, plan.steps, i) ==> h in m.handles
  {
    hide ExecutePlan, ExecOp, LeafHandles, HasEmptySource, Trusted, Gated;
    OkRun(p, m, plan, opts);
    MakeEnvIndexes(m, opts);
    var env := MakeEnv(m, opts);
    AssertionCount(env, plan.steps, |plan.steps|);
    AssertionsInOrder(env, plan.steps, |plan.steps|, k);
    GatedStep(env, plan.steps, AssertSteps(plan.steps, |plan.steps|)[k]);
    LeavesAreManifestHandles(env, plan.steps, AssertSteps(plan.steps, |plan.steps|)[k]);
  }

  lemma GatedStep(env: Env, steps: seq<Step>, i: nat)
    requires i < |steps| && RunPrefix(env, steps, i + 1).Ok? && IsAssertStep(steps[i])
    ensures Issued(env, steps, i).Some? && Gated(env, steps, i, Issued(env, steps, i).value)
  {
    hide LeafHandles, HasEmptySource, RunPrefix, ExecOp, CanonicalizeCitations;
    var op := steps[i].op.value;
    StepRan(env, steps, i);
    var regs := MachineAt(env, steps, i).regs;
    AssertPassedGates(env, regs, op);
    FlowExact(env, steps, i);
    AssertionNumberRoundTrip(AssertionTypeFromI32(op.assertionType));
    LeavesShowInMetadata(Written(env, steps, i), LeafHandles(env, steps, i), HasEmptySource(env, steps, i));
    CitationsUnbroken(env.opts, op.citations, Written(env, steps, i).provenance);
  }

  /** A register that carries enough trust and no untrusted taint rests on trusted handles only. */
  lemma LeavesShowInMetadata(r: RegValue, leaves: set<HandleRef>, hasEmpty: bool)
    requires MetadataIs(r, leaves, hasEmpty)
    ensures forall h :: h in leaves ==> h.ref in r.provenance
    ensures TrustRank(r.minTrust) >= TrustRank(Tier2Verified) && !HasUntrustedTaint(r.taint)
            ==> leaves != {} && !hasEmpty && forall h :: h in leaves ==> Trusted(h)
  {
    forall h, t | h in leaves && t in HandleTaint(h) ensures t in r.taint {
      assert t in TaintsOf(leaves);
    }
  }

  lemma CitationsUnbroken(opts: ExecuteOptions, cites: seq<CitationRef>, provenance: set<string>)
    requires CanonicalizeCitations(opts, cites, provenance).Ok?
    ensures forall c :: c in cites && c.HandleCite? ==> !IsBroken(opts, c.handleRef)
  {
    if cites != [] {
      CitedHandlesUnbroken(opts, cites, |cites|);
    }
  }

  lemma AssertionNumberRoundTrip(t: AssertionType)
    ensures AssertionTypeFromI32(AssertionNumber(t)) == t
  {
  }
}
