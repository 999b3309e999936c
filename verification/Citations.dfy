/** Citations behave as sets: order and repetition do not show in results or digests. */
module Citations {
  import opened Wrappers
  import opened Proto
  import opened Text
  import opened Sorting
  import opened Semantics
  import opened Runs

  predicate Citable(opts: ExecuteOptions, c: CitationRef) {
    !c.NoCite? && !(c.HandleCite? && IsBroken(opts, c.handleRef))
  }

  function CiteText(c: CitationRef): string
    requires !c.NoCite?
  {
    if c.HandleCite? then HANDLE_PREFIX + c.handleRef else c.anchorRef
  }

  lemma CiteOneMore(opts: ExecuteOptions, cites: seq<CitationRef>, n: nat)
    requires 0 < n <= |cites|
    ensures var r, c := CitePrefix(opts, cites, n - 1), cites[n - 1];
            if r.Ok? && Citable(opts, c) then CitePrefix(opts, cites, n) == Ok(r.value + {CiteText(c)})
            else CitePrefix(opts, cites, n).Stop?
  {
  }

  lemma {:induction false} CitePrefixMeans(opts: ExecuteOptions, cites: seq<CitationRef>, n: nat)
    requires n <= |cites|
    ensures CitePrefix(opts, cites, n).Ok? <==> forall i :: 0 <= i < n ==> Citable(opts, cites[i])
    ensures CitePrefix(opts, cites, n).Ok? ==>
              forall x :: x in CitePrefix(opts, cites, n).value <==> exists i :: 0 <= i < n && Citable(opts, cites[i]) && x == CiteText(cites[i])
  {
    hide CiteText, Citable;
    if n > 0 {
      CitePrefixMeans(opts, cites, n - 1);
      CiteOneMore(opts, cites, n);
    }
  }

  /** Two citation lists with the same elements. */
  ghost predicate SameCites(xs: seq<CitationRef>, ys: seq<CitationRef>) {
    (xs == [] <==> ys == []) && forall c :: c in xs <==> c in ys
  }

  lemma CiteSetsAgree(opts: ExecuteOptions, xs: seq<CitationRef>, ys: seq<CitationRef>)
    requires SameCites(xs, ys) && CitePrefix(opts, xs, |xs|).Ok?
    ensures CitePrefix(opts, ys, |ys|) == CitePrefix(opts, xs, |xs|)
  {
    CitePrefixMeans(opts, xs, |xs|);
    CitePrefixMeans(opts, ys, |ys|);
    forall i | 0 <= i < |ys| ensures Citable(opts, ys[i]) {
      assert ys[i] in xs;
    }
    var a, b := CitePrefix(opts, xs, |xs|).value, CitePrefix(opts, ys, |ys|).value;
    forall x ensures x in a <==> x in b {
      if x in a {
        var i :| 0 <= i < |xs| && Citable(opts, xs[i]) && x == CiteText(xs[i]);
        assert xs[i] in ys;
      }
      if x in b {
        var i :| 0 <= i < |ys| && Citable(opts, ys[i]) && x == CiteText(ys[i]);
        assert ys[i] in xs;
      }
    }
    assert a == b;
  }

  lemma CanonicalAscend(opts: ExecuteOptions, cites: seq<CitationRef>, provenance: set<string>)
    requires CanonicalizeCitations(opts, cites, provenance).Ok?
    ensures Ascending(CanonicalizeCitations(opts, cites, provenance).value)
  {
    if cites == [] {
      SortedKeysAscend(set ref | ref in provenance :: HANDLE_PREFIX + ref);
    } else {
      SortedKeysAscend(CitePrefix(opts, cites, |cites|).value);
    }
  }

  /** Canonicalization accepts or rejects both lists, and gives the same strictly ascending result. */
  lemma CanonicalizationIsSetLike(opts: ExecuteOptions, xs: seq<CitationRef>, ys: seq<CitationRef>, provenance: set<string>)
    requires SameCites(xs, ys)
    ensures var a, b := CanonicalizeCitations(opts, xs, provenance), CanonicalizeCitations(opts, ys, provenance);
            if a.Ok? then b == a && Ascending(a.value) else b.Stop?
  {
    if CanonicalizeCitations(opts, xs, provenance).Ok? {
      CanonicalAscend(opts, xs, provenance);
    }
    if CitePrefix(opts, xs, |xs|).Ok? {
      CiteSetsAgree(opts, xs, ys);
    } else if CitePrefix(opts, ys, |ys|).Ok? {
      CiteSetsAgree(opts, ys, xs);
    }
  }

  /** Without explicit citations the result names exactly the provenance. */
  lemma DefaultCitationsAreProvenance(opts: ExecuteOptions, provenance: set<string>)
    requires CanonicalizeCitations(opts, [], provenance).Ok?
    ensures var cites := CanonicalizeCitations(opts, [], provenance).value;
            && (forall ref :: ref in provenance <==> HANDLE_PREFIX + ref in cites)
            && (forall c :: c in cites ==> exists ref :: ref in provenance && c == HANDLE_PREFIX + ref)
  {
    var cites := CanonicalizeCitations(opts, [], provenance).value;
    forall ref ensures ref in provenance <==> HANDLE_PREFIX + ref in cites {
      if HANDLE_PREFIX + ref in cites {
        var other :| other in provenance && HANDLE_PREFIX + ref == HANDLE_PREFIX + other;
        assert (HANDLE_PREFIX + ref)[|HANDLE_PREFIX|..] == ref;
        assert (HANDLE_PREFIX + other)[|HANDLE_PREFIX|..] == other;
      }
    }
  }

  lemma LessEqIsPreorder()
    ensures TotalPreorder(LessEq)
  {
    forall x, y ensures LessEq(x, y) || LessEq(y, x) {
      LessTotal(x, y);
    }
    forall x, y, z | LessEq(x, y) && LessEq(y, z) ensures LessEq(x, z) {
      if x != y && y != z { LessTransitive(x, y, z); }
    }
  }

  /** The encoder's sort makes the digest independent of citation order. */
  lemma DigestIgnoresCitationOrder(p: Primitives, a: VerifiedAssertion, b: VerifiedAssertion)
    requires a.assertionType == b.assertionType && a.fields == b.fields && multiset(a.citations) == multiset(b.citations)
    ensures AssertionLeaf(p, a) == AssertionLeaf(p, b)
  {
    LessEqIsPreorder();
    forall x, y | x in a.citations && y in a.citations && LessEq(x, y) && LessEq(y, x) ensures x == y {
      if x != y { LessAsymmetric(x, y); }
    }
    SortPermutation(LessEq, a.citations, b.citations);
  }

  /** On what the kernel issues that sort changes nothing: the citations are already in order. */
  lemma IssuedCitationsSorted(p: Primitives, env: Env, regs: Registers, op: Op)
    requires op.AssertOp? && ExecOp(env, regs, op).Ok?
    ensures var a := ExecOp(env, regs, op).value.assertion;
            a.Some? && Ascending(a.value.citations) && CanonicalBytes(p, a.value) == p.encode(a.value)
  {
    var a := ExecOp(env, regs, op).value.assertion.value;
    CanonicalAscend(env.opts, op.citations, Gather(regs, op.bindings).value.provenance);
    SortFixed(LessEq, a.citations);
    assert a.(citations := a.citations) == a;
  }

  // Whole plans.

  /** The same step, except that an ASSERT may list its citations differently. */
  ghost predicate StepsAlike(s: Step, s': Step) {
    s == s' || (
      && s.out == s'.out && IsAssertStep(s) && IsAssertStep(s')
      && s.op.value.assertionType == s'.op.value.assertionType && s.op.value.bindings == s'.op.value.bindings
      && SameCites(s.op.value.citations, s'.op.value.citations))
  }

  ghost predicate PlansAlike(steps: seq<Step>, steps': seq<Step>) {
    |steps| == |steps'| && forall i :: 0 <= i < |steps| ==> StepsAlike(steps[i], steps'[i])
  }

  /** Equal, or both stopped. */
  ghost predicate BothOrNeither<T>(r: Outcome<T>, r': Outcome<T>) {
    if r.Ok? then r' == r else r'.Stop?
  }

  lemma AssertRecited(env: Env, regs: Registers, t: int, bindings: map<string, ValueRef>, xs: seq<CitationRef>, ys: seq<CitationRef>)
    requires SameCites(xs, ys)
    ensures BothOrNeither(ExecAssert(env, regs, t, bindings, xs), ExecAssert(env, regs, t, bindings, ys))
  {
    if Gather(regs, bindings).Ok? {
      CanonicalizationIsSetLike(env.opts, xs, ys, Gather(regs, bindings).value.provenance);
    }
  }

  lemma StepRecited(env: Env, m: Machine, idx: nat, s: Step, s': Step)
    requires StepsAlike(s, s')
    ensures BothOrNeither(RunStep(env, m, idx, s), RunStep(env, m, idx, s'))
  {
    if s != s' {
      var op := s.op.value;
      AssertRecited(env, m.regs, op.assertionType, op.bindings, op.citations, s'.op.value.citations);
    }
  }

  lemma {:induction false} RunRecited(env: Env, steps: seq<Step>, steps': seq<Step>, n: nat)
    requires PlansAlike(steps, steps') && n <= |steps|
    ensures BothOrNeither(RunPrefix(env, steps, n), RunPrefix(env, steps', n))
  {
    hide RunStep, RunPrefix, StepsAlike;
    if n == 0 {
      NothingRan(env, steps);
      NothingRan(env, steps');
    } else {
      RunOneMore(env, steps, n);
      RunOneMore(env, steps', n);
      RunRecited(env, steps, steps', n - 1);
      if RunPrefix(env, steps, n - 1).Ok? {
        StepRecited(env, RunPrefix(env, steps, n - 1).value, n - 1, steps[n - 1], steps'[n - 1]);
      }
    }
  }

  lemma CheckStepRecited(env: Env, power: nat -> real, st: StaticState, s: Step, s': Step)
    requires StepsAlike(s, s')
    ensures CheckStep(env, power, st, s) == CheckStep(env, power, st, s')
  {
  }

  lemma {:induction false} CheckRecited(env: Env, power: nat -> real, steps: seq<Step>, steps': seq<Step>, n: nat)
    requires PlansAlike(steps, steps') && n <= |steps|
    ensures CheckPrefix(env, power, steps, n) == CheckPrefix(env, power, steps', n)
  {
    if n > 0 {
      CheckRecited(env, power, steps, steps', n - 1);
      if CheckPrefix(env, power, steps, n - 1).Ok? {
        CheckStepRecited(env, power, CheckPrefix(env, power, steps, n - 1).value, steps[n - 1], steps'[n - 1]);
      }
    }
  }

  /** Reordering or repeating citations anywhere in a plan: both requests stop, or both return the same result, roots included. */
  lemma CitationsAreSets(p: Primitives, m: PublicManifest, plan: RmvmPlan, plan': RmvmPlan, opts: ExecuteOptions)
    requires plan.requestId == plan'.requestId && plan.outputs == plan'.outputs && PlansAlike(plan.steps, plan'.steps)
    ensures BothOrNeither(ExecutePlan(p, m, plan, opts), ExecutePlan(p, m, plan', opts))
  {
    CheckRecited(MakeEnv(m, opts), p.power, plan.steps, plan'.steps, |plan.steps|);
    RunRecited(MakeEnv(m, opts), plan.steps, plan'.steps, |plan.steps|);
  }
}
