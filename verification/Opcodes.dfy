/** What the set-valued opcodes select: exactly which handles a selector, a filter and a join keep. */
module Opcodes {
  import opened Wrappers
  import opened Proto
  import opened Text
  import opened Sorting
  import opened Handles
  import opened Semantics
  import opened Grounding
  import opened Permutation

  predicate Keeps(h: HandleRef, filterRef: string, params: map<string, Value>) {
    MatchesFilter(h, filterRef, params) == Ok(true)
  }

  lemma {:induction false} FilterPrefixCounts(hs: seq<HandleRef>, n: nat, filterRef: string, params: map<string, Value>, h: HandleRef)
    requires n <= |hs|
    ensures FilterPrefix(hs, n, filterRef, params).Ok? <==> forall i :: 0 <= i < n ==> MatchesFilter(hs[i], filterRef, params).Ok?
    ensures FilterPrefix(hs, n, filterRef, params).Ok? ==>
              multiset(FilterPrefix(hs, n, filterRef, params).value)[h]
              == if Keeps(h, filterRef, params) then multiset(hs[..n])[h] else 0
  {
    hide MatchesFilter;
    if n > 0 {
      FilterPrefixCounts(hs, n - 1, filterRef, params, h);
      assert hs[..n] == hs[..n - 1] + [hs[n - 1]];
    } else {
      assert hs[..0] == [];
    }
  }

  /** FILTER keeps each input handle as often as it occurs if it matches, and no other handle, in ref order. */
  lemma FilterKeepsMatches(env: Env, regs: Registers, inReg: string, filterRef: string, params: map<string, Value>, h: HandleRef)
    requires ExecFilter(env, regs, inReg, filterRef, params).Ok?
    ensures var out := ExecFilter(env, regs, inReg, filterRef, params).value.data;
            var hs := AsHandles(regs[inReg]).value;
            && out.HandleSet? && SortedBy(RefLe, out.handles)
            && multiset(out.handles)[h] == if Keeps(h, filterRef, params) then multiset(hs)[h] else 0
  {
    hide MatchesFilter;
    var hs := AsHandles(regs[inReg]).value;
    FilterPrefixCounts(hs, |hs|, filterRef, params, h);
    assert hs[..|hs|] == hs;
    RefLeIsPreorder();
    SortSorts(RefLe, FilterPrefix(hs, |hs|, filterRef, params).value);
  }

  /** A selector matches each manifest handle as often as it is listed if its parameters fit, and no other, in ref order. */
  lemma SelectorKeepsMatches(env: Env, params: map<string, Value>, h: HandleRef)
    ensures SortedBy(RefLe, Selected(env, params))
    ensures multiset(Selected(env, params))[h] == if SelectorMatch(h, params) then multiset(env.handles)[h] else 0
  {
    MatchingCounts(env.handles, params, h);
    RefLeIsPreorder();
    SortSorts(RefLe, Matching(env.handles, params));
  }

  // The count a struct selector reports.

  lemma {:induction false} AllMatchExactly(hs: seq<HandleRef>, params: map<string, Value>)
    ensures |Matching(hs, params)| == |hs| <==> forall h :: h in hs ==> SelectorMatch(h, params)
  {
    hide SelectorMatch;
    if hs != [] {
      assert hs == [hs[0]] + hs[1..];
      AllMatchExactly(hs[1..], params);
    }
  }

  lemma StructSelectorFields(env: Env, sel: string, params: map<string, Value>)
    requires ExecApplySelector(env, sel, params).Ok? && ExecApplySelector(env, sel, params).value.data.Struct?
    ensures ExecApplySelector(env, sel, params).value.data.fields == map["matched_count" := I64(|env.handles|)] + params
  {
    hide CheckParams, Selected, Refs, Taints, SelectedTrust;
  }

  /**
    `matched_count` is the number of matching handles exactly when every handle of the manifest
    matches, since the kernel stores the manifest size there; a parameter of that name replaces it.
   */
  lemma MatchedCountExactly(env: Env, sel: string, params: map<string, Value>)
    requires ExecApplySelector(env, sel, params).Ok? && ExecApplySelector(env, sel, params).value.data.Struct?
    ensures var fields := ExecApplySelector(env, sel, params).value.data.fields;
            && "matched_count" in fields
            && ("matched_count" !in params ==>
                (fields["matched_count"] == I64(|Selected(env, params)|) <==> forall h :: h in env.handles ==> SelectorMatch(h, params)))
            && ("matched_count" in params ==> fields["matched_count"] == params["matched_count"])
  {
    StructSelectorFields(env, sel, params);
    AllMatchExactly(env.handles, params);
    hide SelectorMatch, ExecApplySelector, Matching;
  }

  const COUNTING_SELECTOR := SelectorRef("S", "", [ParamSpec("type_id", 1, [])], 1.0, 3)

  lemma LoneMismatch(h: HandleRef, params: map<string, Value>)
    requires !SelectorMatch(h, params)
    ensures Matching([h], params) == []
  {
    assert [h][1..] == [];
  }

  /** One handle of another type: nothing matches, and the count is one. */
  lemma MatchedCountMiscounts(h: HandleRef, opts: ExecuteOptions)
    requires h.typeId != "wanted"
    ensures var env := MakeEnv(PublicManifest("", [h], [COUNTING_SELECTOR], None), opts);
            var params := map["type_id" := S("wanted")];
            && Selected(env, params) == []
            && ExecApplySelector(env, "S", params).Ok?
            && ExecApplySelector(env, "S", params).value.data == Struct(map["matched_count" := I64(1), "type_id" := S("wanted")])
  {
    var params := map["type_id" := S("wanted")];
    LoneSelector(COUNTING_SELECTOR);
    LoneSpec(COUNTING_SELECTOR.params[0]);
    CheckParamsOk(COUNTING_SELECTOR.params, params);
    assert !ParamMatches(h, "type_id", params["type_id"]);
    LoneMismatch(h, params);
    hide SelectorsIndex, SpecsByName, CheckParams, Matching, Refs, Taints, SelectedTrust, HandlesIndex, NormalizeBudget;
  }

  // JOIN.

  /** Some linked pair of the first `n` left handles with the right side has `h` on one of its ends. */
  ghost predicate InLinkedPair(edge: EdgeType, ls: seq<HandleRef>, n: nat, rs: seq<HandleRef>, h: HandleRef)
    requires n <= |ls|
  {
    exists i, j :: 0 <= i < n && 0 <= j < |rs| && Linked(edge, ls[i], rs[j]) && (h == ls[i] || h == rs[j])
  }

  ghost predicate InLinkedRow(edge: EdgeType, l: HandleRef, rs: seq<HandleRef>, n: nat, h: HandleRef)
    requires n <= |rs|
  {
    exists j :: 0 <= j < n && Linked(edge, l, rs[j]) && (h == l || h == rs[j])
  }

  lemma {:induction false} JoinRowRefs(edge: EdgeType, l: HandleRef, rs: seq<HandleRef>, n: nat, acc: map<string, HandleRef>, ref: string)
    requires n <= |rs|
    ensures ref in JoinRow(edge, l, rs, n, acc) <==> ref in acc || exists h :: InLinkedRow(edge, l, rs, n, h) && h.ref == ref
  {
    hide Linked;
    if n > 0 {
      JoinRowRefs(edge, l, rs, n - 1, acc, ref);
      var r := rs[n - 1];
      forall h ensures InLinkedRow(edge, l, rs, n, h) <==> InLinkedRow(edge, l, rs, n - 1, h) || (Linked(edge, l, r) && (h == l || h == r)) {
      }
    }
  }

  /** JOIN keeps exactly the refs that some linked pair mentions. */
  lemma {:induction false} JoinKeepsLinked(edge: EdgeType, ls: seq<HandleRef>, n: nat, rs: seq<HandleRef>, ref: string)
    requires n <= |ls|
    ensures ref in JoinPairs(edge, ls, n, rs) <==> exists h :: InLinkedPair(edge, ls, n, rs, h) && h.ref == ref
  {
    hide Linked, JoinRow;
    if n > 0 {
      JoinKeepsLinked(edge, ls, n - 1, rs, ref);
      JoinRowRefs(edge, ls[n - 1], rs, |rs|, JoinPairs(edge, ls, n - 1, rs), ref);
      forall h ensures InLinkedPair(edge, ls, n, rs, h) <==> InLinkedPair(edge, ls, n - 1, rs, h) || InLinkedRow(edge, ls[n - 1], rs, |rs|, h) {
        if InLinkedRow(edge, ls[n - 1], rs, |rs|, h) {
          var j :| 0 <= j < |rs| && Linked(edge, ls[n - 1], rs[j]) && (h == ls[n - 1] || h == rs[j]);
          assert InLinkedPair(edge, ls, n, rs, h);
        }
      }
    }
  }

  /**
    The handles in a JOIN's output, when a ref names one handle on both sides: exactly those on some
    end of a linked pair, in strict ref order.
   */
  lemma JoinOutputExactly(env: Env, regs: Registers, l: string, r: string, edge: int, h: HandleRef)
    requires ExecJoin(env, regs, l, r, edge).Ok?
    requires RefsDistinguish(AsHandles(regs[l]).value + AsHandles(regs[r]).value)
    ensures var out := ExecJoin(env, regs, l, r, edge).value.data;
            var ls, rs := AsHandles(regs[l]).value, AsHandles(regs[r]).value;
            && out.HandleSet? && SortedBy(RefLe, out.handles)
            && (h in out.handles <==> InLinkedPair(EdgeTypeFromI32(edge), ls, |ls|, rs, h))
  {
    hide Linked;
    var ls, rs, e := AsHandles(regs[l]).value, AsHandles(regs[r]).value, EdgeTypeFromI32(edge);
    JoinedHandles(e, ls, rs, h);
  }

  lemma ValuesMembers(m: map<string, HandleRef>, h: HandleRef)
    requires forall r :: r in m ==> m[r].ref == r
    ensures SortedBy(RefLe, ValuesInOrder(m))
    ensures h in ValuesInOrder(m) <==> h.ref in m && m[h.ref] == h
  {
    ValuesInOrderFacts(m);
    if h.ref in m && m[h.ref] == h {
      assert h.ref in SortedKeys(m.Keys);
    }
  }

  lemma PairMembers(e: EdgeType, ls: seq<HandleRef>, rs: seq<HandleRef>, h: HandleRef)
    requires InLinkedPair(e, ls, |ls|, rs, h)
    ensures h in ls + rs
  {
    hide Linked;
  }

  lemma JoinedHandles(e: EdgeType, ls: seq<HandleRef>, rs: seq<HandleRef>, h: HandleRef)
    requires RefsDistinguish(ls + rs)
    ensures var out := ValuesInOrder(JoinPairs(e, ls, |ls|, rs));
            SortedBy(RefLe, out) && (h in out <==> InLinkedPair(e, ls, |ls|, rs, h))
  {
    hide Linked, JoinPairs, InLinkedPair, ValuesInOrder, SortedBy;
    var m := JoinPairs(e, ls, |ls|, rs);
    JoinPairsFrom(e, ls, |ls|, rs);
    ValuesMembers(m, h);
    JoinKeepsLinked(e, ls, |ls|, rs, h.ref);
    if InLinkedPair(e, ls, |ls|, rs, h) {
      PairMembers(e, ls, rs, h);
      assert m[h.ref] in ls + rs;
    }
    if h.ref in m && m[h.ref] == h {
      var g :| InLinkedPair(e, ls, |ls|, rs, g) && g.ref == h.ref;
      PairMembers(e, ls, rs, g);
      assert h in ls + rs;
    }
  }
}
