/** The order in which a manifest lists its handles and selectors does not influence the response. */
module Permutation {
  import opened Wrappers
  import opened Proto
  import opened Text
  import opened Sorting
  import opened Handles
  import opened Semantics
  import opened Runs
  import opened ThreeSteps
  import opened Admission

  /** A ref names one handle. */
  ghost predicate RefsDistinguish(hs: seq<HandleRef>) {
    forall g, h :: g in hs && h in hs && g.ref == h.ref ==> g == h
  }

  ghost predicate NamesDistinguish(ss: seq<SelectorRef>) {
    forall s, t :: s in ss && t in ss && s.sel == t.sel ==> s == t
  }

  /** The two manifests differ only in the order of their lists. */
  ghost predicate Reordered(m: PublicManifest, m': PublicManifest) {
    && m.requestId == m'.requestId && m.budget == m'.budget
    && multiset(m.handles) == multiset(m'.handles) && RefsDistinguish(m.handles)
    && multiset(m.selectors) == multiset(m'.selectors) && NamesDistinguish(m.selectors)
  }

  lemma SameMembers<T>(xs: seq<T>, ys: seq<T>)
    requires multiset(xs) == multiset(ys)
    ensures forall x :: x in xs <==> x in ys
    ensures |xs| == |ys|
  {
    forall x ensures x in xs <==> x in ys {
      assert x in xs <==> x in multiset(xs);
      assert x in ys <==> x in multiset(ys);
    }
    assert |xs| == |multiset(xs)| && |ys| == |multiset(ys)|;
  }

  lemma HandlesIndexReordered(hs: seq<HandleRef>, hs': seq<HandleRef>)
    requires multiset(hs) == multiset(hs') && RefsDistinguish(hs)
    ensures HandlesIndex(hs) == HandlesIndex(hs')
  {
    SameMembers(hs, hs');
    HandlesIndexSound(hs);
    HandlesIndexSound(hs');
    var a, b := HandlesIndex(hs), HandlesIndex(hs');
    assert a.Keys == b.Keys by {
      forall r ensures r in a <==> r in b {
        if r in a { assert a[r] in hs'; }
        if r in b { assert b[r] in hs; }
      }
    }
  }

  lemma SelectorsIndexReordered(ss: seq<SelectorRef>, ss': seq<SelectorRef>)
    requires multiset(ss) == multiset(ss') && NamesDistinguish(ss)
    ensures SelectorsIndex(ss) == SelectorsIndex(ss')
  {
    SameMembers(ss, ss');
    SelectorsIndexSound(ss);
    SelectorsIndexSound(ss');
    var a, b := SelectorsIndex(ss), SelectorsIndex(ss');
    assert a.Keys == b.Keys by {
      forall r ensures r in a <==> r in b {
        if r in a { assert a[r] in ss'; }
        if r in b { assert b[r] in ss; }
      }
    }
  }

  lemma {:induction false} MatchingCounts(hs: seq<HandleRef>, params: map<string, Value>, h: HandleRef)
    ensures multiset(Matching(hs, params))[h] == if SelectorMatch(h, params) then multiset(hs)[h] else 0
  {
    if hs != [] {
      assert hs == [hs[0]] + hs[1..];
      MatchingCounts(hs[1..], params, h);
    }
  }

  /** A selector call matches the same handles in the same order. */
  lemma SelectedReordered(env: Env, env': Env, params: map<string, Value>)
    requires multiset(env.handles) == multiset(env'.handles) && RefsDistinguish(env.handles)
    ensures Selected(env, params) == Selected(env', params)
  {
    var xs, ys := Matching(env.handles, params), Matching(env'.handles, params);
    assert multiset(xs) == multiset(ys) by {
      forall h ensures multiset(xs)[h] == multiset(ys)[h] {
        MatchingCounts(env.handles, params, h);
        MatchingCounts(env'.handles, params, h);
      }
    }
    forall x, y | x in xs && y in xs && RefLe(x, y) && RefLe(y, x) ensures x == y {
      if x.ref != y.ref { LessAsymmetric(x.ref, y.ref); }
    }
    RefLeIsPreorder();
    SortPermutation(RefLe, xs, ys);
  }

  /** The environments of two reordered manifests. */
  ghost predicate SameButOrder(env: Env, env': Env) {
    && env.handlesByRef == env'.handlesByRef && env.selectors == env'.selectors
    && env.budget == env'.budget && env.opts == env'.opts
    && multiset(env.handles) == multiset(env'.handles) && RefsDistinguish(env.handles)
  }

  lemma ApplySelectorReordered(env: Env, env': Env, sel: string, params: map<string, Value>)
    requires SameButOrder(env, env')
    ensures ExecApplySelector(env, sel, params) == ExecApplySelector(env', sel, params)
  {
    hide CheckParams, Selected, Refs, Taints, SelectedTrust;
    SameMembers(env.handles, env'.handles);
    SelectedReordered(env, env', params);
  }

  lemma ExecOpReordered(env: Env, env': Env, regs: Registers, op: Op)
    requires SameButOrder(env, env')
    ensures ExecOp(env, regs, op) == ExecOp(env', regs, op)
  {
    if op.ApplySelector? {
      ApplySelectorReordered(env, env', op.selectorRef, op.params);
    }
  }

  lemma {:induction false} RunReordered(env: Env, env': Env, steps: seq<Step>, n: nat)
    requires n <= |steps| && SameButOrder(env, env')
    ensures RunPrefix(env, steps, n) == RunPrefix(env', steps, n)
  {
    hide RunPrefix, ExecOp, SameButOrder;
    if n == 0 {
      NothingRan(env, steps);
      NothingRan(env', steps);
    } else {
      RunReordered(env, env', steps, n - 1);
      RunOneMore(env, steps, n);
      RunOneMore(env', steps, n);
      if RunPrefix(env, steps, n - 1).Ok? && steps[n - 1].op.Some? {
        ExecOpReordered(env, env', RunPrefix(env, steps, n - 1).value.regs, steps[n - 1].op.value);
      }
    }
  }

  lemma CheckStepReordered(env: Env, env': Env, power: nat -> real, s: StaticState, step: Step)
    requires SameButOrder(env, env')
    ensures CheckStep(env, power, s, step) == CheckStep(env', power, s, step)
  {
    SameMembers(env.handles, env'.handles);
  }

  lemma {:induction false} CheckReordered(env: Env, env': Env, power: nat -> real, steps: seq<Step>, n: nat)
    requires n <= |steps| && SameButOrder(env, env')
    ensures CheckPrefix(env, power, steps, n) == CheckPrefix(env', power, steps, n)
  {
    if n > 0 {
      CheckReordered(env, env', power, steps, n - 1);
      if CheckPrefix(env, power, steps, n - 1).Ok? {
        CheckStepReordered(env, env', power, CheckPrefix(env, power, steps, n - 1).value, steps[n - 1]);
      }
    }
  }

  /** Reordering a manifest leaves the whole response unchanged: results, proof, rendering, stalls and errors. */
  lemma ResponseIgnoresManifestOrder(p: Primitives, m: PublicManifest, m': PublicManifest, plan: Option<RmvmPlan>, opts: ExecuteOptions)
    requires Reordered(m, m')
    ensures Execute(p, ExecuteRequest(Some(m), plan), opts) == Execute(p, ExecuteRequest(Some(m'), plan), opts)
  {
    hide RunPrefix, CheckPrefix, RenderOutput, BuildProof, NormalizeBudget, HandlesIndex, SelectorsIndex;
    if plan.Some? {
      var env, env' := MakeEnv(m, opts), MakeEnv(m', opts);
      HandlesIndexReordered(m.handles, m'.handles);
      SelectorsIndexReordered(m.selectors, m'.selectors);
      CheckReordered(env, env', p.power, plan.value.steps, |plan.value.steps|);
      RunReordered(env, env', plan.value.steps, |plan.value.steps|);
    }
  }

  // Why refs and names must be distinct.

  lemma LastIndexed(hs: seq<HandleRef>, h: HandleRef)
    ensures HandlesIndex(hs + [h]) == HandlesIndex(hs)[h.ref := h]
  {
    assert (hs + [h])[..|hs|] == hs;
  }

  function RemoveFirst<T(==)>(xs: seq<T>, x: T): (r: seq<T>)
    requires x in xs
    ensures multiset(r) == multiset(xs) - multiset{x}
  {
    assert xs == [xs[0]] + xs[1..];
    if xs[0] == x then xs[1..] else [xs[0]] + RemoveFirst(xs[1..], x)
  }

  /**
    Without distinct refs the order shows in the response. When any two ready handles of a manifest
    share a ref and differ in some field, and the budget has room for three steps, the plan that
    fetches the ref and asserts the field states the value of whichever handle is listed last.
   */
  lemma SharedRefShowsOrder(p: Primitives, m: PublicManifest, a: HandleRef, b: HandleRef, path: string)
    returns (listed: seq<HandleRef>, swapped: seq<HandleRef>)
    requires a in m.handles && b in m.handles && a.ref == b.ref
    requires AvailabilityFromI32(a.availability) == Ready && AvailabilityFromI32(b.availability) == Ready
    requires HandleField(a, path).Some? && HandleField(b, path).Some? && HandleField(a, path) != HandleField(b, path)
    requires NormalizeBudget(m.budget).maxOps >= 3 && NormalizeBudget(m.budget).maxTotalCost >= 3.0
    ensures multiset(listed) == multiset(m.handles) == multiset(swapped)
    ensures var plan := Some(RmvmPlan(m.requestId, Steps(Fetch(a.ref), path), ["r2"]));
            var r := Execute(p, ExecuteRequest(Some(m.(handles := listed)), plan), DEFAULT_OPTIONS);
            var r' := Execute(p, ExecuteRequest(Some(m.(handles := swapped)), plan), DEFAULT_OPTIONS);
            && r != r'
            && |r.assertions| == 1 && r.assertions[0].fields == map["subject" := HandleField(b, path).value]
            && |r'.assertions| == 1 && r'.assertions[0].fields == map["subject" := HandleField(a, path).value]
  {
    hide Execute, HandleField, NormalizeBudget, HandlesIndex;
    var others := Others(m.handles, a, b);
    listed, swapped := others + [a] + [b], others + [b] + [a];
    LastIndexed(others + [a], b);
    LastIndexed(others + [b], a);
    ReadingPlanOk(p, m.(handles := listed), b, path);
    ReadingPlanOk(p, m.(handles := swapped), a, path);
    var f, g := map["subject" := HandleField(b, path).value], map["subject" := HandleField(a, path).value];
    assert f["subject"] != g["subject"];
  }

  /** The list without one occurrence of each of two different elements. */
  lemma Others<T>(xs: seq<T>, a: T, b: T) returns (r: seq<T>)
    requires a in xs && b in xs && a != b
    ensures multiset(r + [a] + [b]) == multiset(xs) == multiset(r + [b] + [a])
  {
    hide RemoveFirst;
    var rest := RemoveFirst(xs, a);
    assert b in multiset(rest);
    r := RemoveFirst(rest, b);
    PutBack(multiset(xs), a, b);
    assert multiset(r + [a] + [b]) == multiset(r) + multiset{a} + multiset{b};
    assert multiset(r + [b] + [a]) == multiset(r) + multiset{a} + multiset{b};
  }

  lemma PutBack<T>(m: multiset<T>, a: T, b: T)
    requires a in m && b in m && a != b
    ensures m - multiset{a} - multiset{b} + multiset{a} + multiset{b} == m
  {
  }

  lemma LastSelectorIndexed(ss: seq<SelectorRef>, s: SelectorRef)
    ensures SelectorsIndex(ss + [s]) == SelectorsIndex(ss)[s.sel := s]
  {
    assert (ss + [s])[..|ss|] == ss;
  }

  /**
    Without distinct selector names the order shows as well. When a selector that returns a handle set
    shares its name with one of unspecified return type, the call goes to whichever is listed last.
   */
  lemma SharedNameShowsOrder(m: PublicManifest, opts: ExecuteOptions, s: SelectorRef, t: SelectorRef, params: map<string, Value>)
    returns (listed: seq<SelectorRef>, swapped: seq<SelectorRef>)
    requires s in m.selectors && t in m.selectors && s.sel == t.sel && CheckParams(s.params, params).Ok? && CheckParams(t.params, params).Ok?
    requires |Selected(MakeEnv(m, opts), params)| <= NormalizeBudget(m.budget).maxFanout
    requires SelectorReturnFromI32(s.returnType) == ReturnHandleSet && SelectorReturnFromI32(t.returnType) == ReturnUnspecified
    ensures multiset(listed) == multiset(m.selectors) == multiset(swapped)
    ensures ExecApplySelector(MakeEnv(m.(selectors := listed), opts), s.sel, params) == Reject(SchemaViolation)
    ensures ExecApplySelector(MakeEnv(m.(selectors := swapped), opts), s.sel, params).Ok?
  {
    hide CheckParams, Selected, SelectorsIndex, HandlesIndex, NormalizeBudget, ExecApplySelector;
    var others := Others(m.selectors, s, t);
    listed, swapped := others + [s] + [t], others + [t] + [s];
    LastSelectorIndexed(others + [s], t);
    LastSelectorIndexed(others + [t], s);
    SelectionIgnoresSelectors(m, opts, listed, params);
    SelectionIgnoresSelectors(m, opts, swapped, params);
    SelectorStopsExactly(MakeEnv(m.(selectors := listed), opts), s.sel, params);
    SelectorStopsExactly(MakeEnv(m.(selectors := swapped), opts), s.sel, params);
  }

  lemma SelectionIgnoresSelectors(m: PublicManifest, opts: ExecuteOptions, ss: seq<SelectorRef>, params: map<string, Value>)
    ensures Selected(MakeEnv(m.(selectors := ss), opts), params) == Selected(MakeEnv(m, opts), params)
  {
  }
}
