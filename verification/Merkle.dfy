/**
  The assertion Merkle tree: the bottom-up level builder of the kernel, an independent top-down
  reference tree, and completeness, soundness and binding of its inclusion proofs.
  Digests are an arbitrary type `D` and the pair hash an arbitrary function `h`; soundness and
  binding are stated as "the claim holds, or the two computations compared contain a collision of `h`".
 */
module Merkle {

  function Pow2(k: nat): (p: nat)
    ensures p > 0
  {
    if k == 0 then 1 else 2 * Pow2(k - 1)
  }

  /** How often a list of `n` nodes must be paired up to leave one. */
  function Height(n: nat): nat
    requires n > 0
  {
    if n == 1 then 0 else 1 + Height((n + 1) / 2)
  }

  /** `Height` is the rounded-up binary logarithm. */
  lemma {:induction false} HeightIsCeilLog2(n: nat)
    requires n > 0
    ensures n <= Pow2(Height(n))
    ensures forall k: nat :: n <= Pow2(k) ==> Height(n) <= k
  {
    if n > 1 {
      HeightIsCeilLog2((n + 1) / 2);
      forall k: nat | n <= Pow2(k) ensures Height(n) <= k {
        if k > 0 {
          assert (n + 1) / 2 <= Pow2(k - 1);
        }
      }
    }
  }

  /** The two nodes hashed into parent `j`; the last node of an odd level is its own partner. */
  function Children<D>(level: seq<D>, j: nat): (D, D)
    requires 2 * j < |level|
  {
    (level[2 * j], if 2 * j + 1 < |level| then level[2 * j + 1] else level[2 * j])
  }

  function Hash<D>(h: (D, D) -> D, pair: (D, D)): D {
    h(pair.0, pair.1)
  }

  /** One round of the builder's inner loop. */
  function PairUp<D>(h: (D, D) -> D, level: seq<D>): (next: seq<D>)
    ensures |next| == (|level| + 1) / 2
    ensures forall j :: 0 <= j < |next| ==> next[j] == Hash(h, Children(level, j))
  {
    seq((|level| + 1) / 2, j requires 0 <= j < (|level| + 1) / 2 => Hash(h, Children(level, j)))
  }

  /** The root the builder reaches. */
  function BuildRoot<D>(h: (D, D) -> D, leaves: seq<D>): D
    requires leaves != []
    decreases |leaves|
  {
    if |leaves| == 1 then leaves[0] else BuildRoot(h, PairUp(h, leaves))
  }

  function SiblingIndex(i: nat, n: nat): (s: nat)
    requires i < n
    ensures s < n
  {
    if i % 2 == 0 then (if i + 1 < n then i + 1 else i) else i - 1
  }

  /** The sibling list the builder emits for leaf `i`, lowest level first. */
  function Siblings<D>(h: (D, D) -> D, leaves: seq<D>, i: nat): seq<D>
    requires i < |leaves|
    decreases |leaves|
  {
    if |leaves| == 1 then []
    else [leaves[SiblingIndex(i, |leaves|)]] + Siblings(h, PairUp(h, leaves), i / 2)
  }

  /** The pair a verifier hashes at one step, by the low bit of the index. */
  function Ordered<D>(i: nat, v: D, sibling: D): (D, D) {
    if i % 2 == 0 then (v, sibling) else (sibling, v)
  }

  /** Checking a proof: fold the siblings into the value by the bits of the index. */
  function Fold<D>(h: (D, D) -> D, i: nat, v: D, siblings: seq<D>): D
    decreases |siblings|
  {
    if siblings == [] then v
    else Fold(h, i / 2, Hash(h, Ordered(i, v, siblings[0])), siblings[1..])
  }

  // The top-down reference tree.

  function LeftHalf<D>(seg: seq<D>, k: nat): (l: seq<D>)
    requires k > 0 && 0 < |seg| <= Pow2(k)
    ensures 0 < |l| <= Pow2(k - 1)
  {
    if |seg| <= Pow2(k - 1) then seg else seg[..Pow2(k - 1)]
  }

  /** The leaves under the right child; a missing right child is a copy of the left one. */
  function RightHalf<D>(seg: seq<D>, k: nat): (r: seq<D>)
    requires k > 0 && 0 < |seg| <= Pow2(k)
    ensures 0 < |r| <= Pow2(k - 1)
  {
    if |seg| <= Pow2(k - 1) then seg else seg[Pow2(k - 1)..]
  }

  /** The digest of a tree of height `k`, by splitting its leaves in two. */
  function TreeRoot<D>(h: (D, D) -> D, seg: seq<D>, k: nat): D
    requires 0 < |seg| <= Pow2(k)
    decreases k
  {
    if k == 0 then seg[0]
    else h(TreeRoot(h, LeftHalf(seg, k), k - 1), TreeRoot(h, RightHalf(seg, k), k - 1))
  }

  /** The 2^k leaves of that tree once every copied subtree is written out. */
  function Expand<D>(seg: seq<D>, k: nat): (e: seq<D>)
    requires 0 < |seg| <= Pow2(k)
    ensures |e| == Pow2(k)
    decreases k
  {
    if k == 0 then seg
    else Expand(LeftHalf(seg, k), k - 1) + Expand(RightHalf(seg, k), k - 1)
  }

  lemma PairUpSplit<D>(h: (D, D) -> D, seg: seq<D>, p: nat)
    requires 2 * p < |seg|
    ensures PairUp(h, seg)[..p] == PairUp(h, seg[..2 * p])
    ensures PairUp(h, seg)[p..] == PairUp(h, seg[2 * p..])
  {
    forall j | 0 <= j < p ensures PairUp(h, seg)[j] == PairUp(h, seg[..2 * p])[j] {
      assert Children(seg, j) == Children(seg[..2 * p], j);
    }
    forall j | 0 <= j < |PairUp(h, seg)| - p ensures PairUp(h, seg)[p + j] == PairUp(h, seg[2 * p..])[j] {
      assert Children(seg, p + j) == Children(seg[2 * p..], j);
    }
  }

  lemma PairUpHalves<D>(h: (D, D) -> D, seg: seq<D>, k: nat)
    requires k > 0 && 0 < |seg| <= Pow2(k + 1)
    ensures 0 < |PairUp(h, seg)| <= Pow2(k)
    ensures LeftHalf(PairUp(h, seg), k) == PairUp(h, LeftHalf(seg, k + 1))
    ensures RightHalf(PairUp(h, seg), k) == PairUp(h, RightHalf(seg, k + 1))
  {
    assert Pow2(k + 1) == 2 * Pow2(k) && Pow2(k) == 2 * Pow2(k - 1);
    if |seg| > Pow2(k) {
      PairUpSplit(h, seg, Pow2(k - 1));
    }
  }

  /** Pairing up the leaves removes the lowest level of the reference tree. */
  lemma {:induction false} PairUpLowersTree<D>(h: (D, D) -> D, seg: seq<D>, k: nat)
    requires 0 < |seg| <= Pow2(k + 1)
    ensures 0 < |PairUp(h, seg)| <= Pow2(k)
    ensures TreeRoot(h, seg, k + 1) == TreeRoot(h, PairUp(h, seg), k)
  {
    if k == 0 {
      assert Pow2(1) == 2;
      assert TreeRoot(h, LeftHalf(seg, 1), 0) == seg[0];
    } else {
      PairUpHalves(h, seg, k);
      PairUpLowersTree(h, LeftHalf(seg, k + 1), k - 1);
      PairUpLowersTree(h, RightHalf(seg, k + 1), k - 1);
    }
  }

  /** The builder computes the reference tree. */
  lemma {:induction false} BuilderMeetsReference<D>(h: (D, D) -> D, leaves: seq<D>)
    requires leaves != []
    ensures |leaves| <= Pow2(Height(|leaves|))
    ensures BuildRoot(h, leaves) == TreeRoot(h, leaves, Height(|leaves|))
    decreases |leaves|
  {
    HeightIsCeilLog2(|leaves|);
    if |leaves| > 1 {
      BuilderMeetsReference(h, PairUp(h, leaves));
      PairUpLowersTree(h, leaves, Height(|leaves|) - 1);
    }
  }

  /** Every emitted proof has the height of the tree and leads from its leaf to the root. */
  lemma {:induction false} ProofsComplete<D>(h: (D, D) -> D, leaves: seq<D>, i: nat)
    requires i < |leaves|
    ensures |Siblings(h, leaves, i)| == Height(|leaves|)
    ensures Fold(h, i, leaves[i], Siblings(h, leaves, i)) == BuildRoot(h, leaves)
    decreases |leaves|
  {
    if |leaves| > 1 {
      var next := PairUp(h, leaves);
      ProofsComplete(h, next, i / 2);
      assert Ordered(i, leaves[i], leaves[SiblingIndex(i, |leaves|)]) == Children(leaves, i / 2);
      assert Siblings(h, leaves, i)[1..] == Siblings(h, next, i / 2);
    }
  }

  /** Somewhere on the path, verifier and builder hash different pairs to the same digest. */
  ghost predicate PathCollides<D(!new)>(h: (D, D) -> D, leaves: seq<D>, i: nat, v: D, siblings: seq<D>)
    requires i < |leaves|
    decreases |siblings|
  {
    |leaves| > 1 && siblings != [] &&
    var mine, built := Ordered(i, v, siblings[0]), Children(leaves, i / 2);
    (mine != built && Hash(h, mine) == Hash(h, built))
    || PathCollides(h, PairUp(h, leaves), i / 2, Hash(h, mine), siblings[1..])
  }

  lemma PairAtIndex<D>(leaves: seq<D>, i: nat, v: D, sibling: D)
    requires i < |leaves| && Ordered(i, v, sibling) == Children(leaves, i / 2)
    ensures v == leaves[i] && sibling == leaves[SiblingIndex(i, |leaves|)]
  {
    if i % 2 == 0 {
      assert 2 * (i / 2) == i;
    } else {
      assert 2 * (i / 2) + 1 == i;
    }
  }

  lemma SamePairSameStep<D>(h: (D, D) -> D, leaves: seq<D>, i: nat, v: D, siblings: seq<D>)
    requires i < |leaves| && |leaves| > 1 && siblings != []
    requires Ordered(i, v, siblings[0]) == Children(leaves, i / 2)
    requires siblings[1..] == Siblings(h, PairUp(h, leaves), i / 2)
    ensures v == leaves[i] && siblings == Siblings(h, leaves, i)
  {
    hide Children, Ordered, PairUp, SiblingIndex;
    PairAtIndex(leaves, i, v, siblings[0]);
    assert siblings == [siblings[0]] + siblings[1..];
  }

  /** A sibling list of the right length that folds to the root is the emitted one, for the leaf at that index. */
  lemma {:induction false} ProofsSound<D(!new)>(h: (D, D) -> D, leaves: seq<D>, i: nat, v: D, siblings: seq<D>)
    requires i < |leaves| && |siblings| == Height(|leaves|)
    requires Fold(h, i, v, siblings) == BuildRoot(h, leaves)
    ensures (v == leaves[i] && siblings == Siblings(h, leaves, i)) || PathCollides(h, leaves, i, v, siblings)
    decreases |leaves|
  {
    if |leaves| > 1 {
      var mine, built := Ordered(i, v, siblings[0]), Children(leaves, i / 2);
      var next := PairUp(h, leaves);
      ProofsSound(h, next, i / 2, Hash(h, mine), siblings[1..]);
      if !PathCollides(h, next, i / 2, Hash(h, mine), siblings[1..]) {
        assert Hash(h, mine) == next[i / 2] == Hash(h, built);
        if mine == built {
          SamePairSameStep(h, leaves, i, v, siblings);
        }
      }
    }
  }

  ghost predicate Injective<D(!new)>(h: (D, D) -> D) {
    forall a, b, c, d :: h(a, b) == h(c, d) ==> a == c && b == d
  }

  lemma {:induction false} InjectivePathsAgree<D(!new)>(h: (D, D) -> D, leaves: seq<D>, i: nat, v: D, siblings: seq<D>)
    requires Injective(h) && i < |leaves|
    ensures !PathCollides(h, leaves, i, v, siblings)
    decreases |siblings|
  {
    if |leaves| > 1 && siblings != [] {
      InjectivePathsAgree(h, PairUp(h, leaves), i / 2, Hash(h, Ordered(i, v, siblings[0])), siblings[1..]);
    }
  }

  /** With a collision-free hash a proof checks exactly when it is the emitted one. */
  lemma ProofChecksExactly<D(!new)>(h: (D, D) -> D, leaves: seq<D>, i: nat, v: D, siblings: seq<D>)
    requires Injective(h) && i < |leaves| && |siblings| == Height(|leaves|)
    ensures Fold(h, i, v, siblings) == BuildRoot(h, leaves)
            <==> v == leaves[i] && siblings == Siblings(h, leaves, i)
  {
    ProofsComplete(h, leaves, i);
    InjectivePathsAgree(h, leaves, i, v, siblings);
    if Fold(h, i, v, siblings) == BuildRoot(h, leaves) {
      ProofsSound(h, leaves, i, v, siblings);
    }
  }

  /** At some common position the two trees hash different pairs to the same digest. */
  ghost predicate TreesCollide<D(!new)>(h: (D, D) -> D, xs: seq<D>, ys: seq<D>, k: nat)
    requires 0 < |xs| <= Pow2(k) && 0 < |ys| <= Pow2(k)
    decreases k
  {
    k > 0 &&
    var xl, xr, yl, yr := LeftHalf(xs, k), RightHalf(xs, k), LeftHalf(ys, k), RightHalf(ys, k);
    var x := (TreeRoot(h, xl, k - 1), TreeRoot(h, xr, k - 1));
    var y := (TreeRoot(h, yl, k - 1), TreeRoot(h, yr, k - 1));
    (x != y && Hash(h, x) == Hash(h, y)) || TreesCollide(h, xl, yl, k - 1) || TreesCollide(h, xr, yr, k - 1)
  }

  lemma {:induction false} TreeBinds<D(!new)>(h: (D, D) -> D, xs: seq<D>, ys: seq<D>, k: nat)
    requires 0 < |xs| <= Pow2(k) && 0 < |ys| <= Pow2(k)
    requires TreeRoot(h, xs, k) == TreeRoot(h, ys, k)
    ensures Expand(xs, k) == Expand(ys, k) || TreesCollide(h, xs, ys, k)
    decreases k
  {
    if k > 0 && !TreesCollide(h, xs, ys, k) {
      TreeBinds(h, LeftHalf(xs, k), LeftHalf(ys, k), k - 1);
      TreeBinds(h, RightHalf(xs, k), RightHalf(ys, k), k - 1);
    }
  }

  lemma {:induction false} ExpandedTreesAgree<D>(h: (D, D) -> D, xs: seq<D>, ys: seq<D>, k: nat)
    requires 0 < |xs| <= Pow2(k) && 0 < |ys| <= Pow2(k)
    requires Expand(xs, k) == Expand(ys, k)
    ensures TreeRoot(h, xs, k) == TreeRoot(h, ys, k)
    decreases k
  {
    if k > 0 {
      SplitAt(Expand(LeftHalf(xs, k), k - 1), Expand(RightHalf(xs, k), k - 1), Expand(LeftHalf(ys, k), k - 1), Expand(RightHalf(ys, k), k - 1));
      ExpandedTreesAgree(h, LeftHalf(xs, k), LeftHalf(ys, k), k - 1);
      ExpandedTreesAgree(h, RightHalf(xs, k), RightHalf(ys, k), k - 1);
    }
  }

  lemma SplitAt<D>(a: seq<D>, b: seq<D>, c: seq<D>, d: seq<D>)
    requires a + b == c + d && |a| == |c|
    ensures a == c && b == d
  {
    assert a == (a + b)[..|a|] && c == (c + d)[..|c|];
    assert b == (a + b)[|a|..] && d == (c + d)[|c|..];
  }

  lemma PrefixWithin<D>(a: seq<D>, b: seq<D>, seg: seq<D>)
    requires seg <= a
    ensures seg <= a + b
  {
  }

  lemma PrefixAcross<D>(a: seq<D>, b: seq<D>, l: seq<D>, r: seq<D>)
    requires l <= a && |l| == |a| && r <= b
    ensures l + r <= a + b
  {
    assert a == l;
  }

  lemma {:induction false} ExpandStartsWithLeaves<D>(seg: seq<D>, k: nat)
    requires 0 < |seg| <= Pow2(k)
    ensures seg <= Expand(seg, k)
    decreases k
  {
    if k > 0 {
      var l, r, p := LeftHalf(seg, k), RightHalf(seg, k), Pow2(k - 1);
      assert Expand(seg, k) == Expand(l, k - 1) + Expand(r, k - 1);
      assert if |seg| > p then l + r == seg && |l| == p else l == seg;
      hide Expand, LeftHalf, RightHalf;
      ExpandStartsWithLeaves(l, k - 1);
      ExpandStartsWithLeaves(r, k - 1);
      if |seg| > p {
        PrefixAcross(Expand(l, k - 1), Expand(r, k - 1), l, r);
      } else {
        PrefixWithin(Expand(l, k - 1), Expand(r, k - 1), l);
      }
    }
  }

  lemma {:induction false} InjectiveTreesAgree<D(!new)>(h: (D, D) -> D, xs: seq<D>, ys: seq<D>, k: nat)
    requires 0 < |xs| <= Pow2(k) && 0 < |ys| <= Pow2(k) && Injective(h)
    ensures !TreesCollide(h, xs, ys, k)
    decreases k
  {
    if k > 0 {
      InjectiveTreesAgree(h, LeftHalf(xs, k), LeftHalf(ys, k), k - 1);
      InjectiveTreesAgree(h, RightHalf(xs, k), RightHalf(ys, k), k - 1);
    }
  }

  /** The root binds the leaves once their number is fixed. */
  lemma RootBinds<D(!new)>(h: (D, D) -> D, xs: seq<D>, ys: seq<D>)
    requires xs != [] && |xs| == |ys|
    requires BuildRoot(h, xs) == BuildRoot(h, ys)
    ensures |xs| <= Pow2(Height(|xs|))
    ensures xs == ys || TreesCollide(h, xs, ys, Height(|xs|))
  {
    var k := Height(|xs|);
    BuilderMeetsReference(h, xs);
    BuilderMeetsReference(h, ys);
    TreeBinds(h, xs, ys, k);
    ExpandStartsWithLeaves(xs, k);
    ExpandStartsWithLeaves(ys, k);
  }

  /** Leaf lists of one height share a root exactly when they are equal after writing out the copies. */
  lemma SameHeightSharedRoot<D(!new)>(h: (D, D) -> D, xs: seq<D>, ys: seq<D>)
    requires xs != [] && ys != [] && Height(|xs|) == Height(|ys|) && Injective(h)
    ensures |xs| <= Pow2(Height(|xs|)) && |ys| <= Pow2(Height(|xs|))
    ensures BuildRoot(h, xs) == BuildRoot(h, ys) <==> Expand(xs, Height(|xs|)) == Expand(ys, Height(|xs|))
  {
    var k := Height(|xs|);
    BuilderMeetsReference(h, xs);
    BuilderMeetsReference(h, ys);
    InjectiveTreesAgree(h, xs, ys, k);
    if BuildRoot(h, xs) == BuildRoot(h, ys) {
      TreeBinds(h, xs, ys, k);
    }
    if Expand(xs, k) == Expand(ys, k) {
      ExpandedTreesAgree(h, xs, ys, k);
    }
  }

  /** The list left after pairing up `j` times. */
  function Level<D>(h: (D, D) -> D, leaves: seq<D>, j: nat): (level: seq<D>)
    requires leaves != []
    ensures level != []
    decreases j
  {
    if j == 0 then leaves else Level(h, PairUp(h, leaves), j - 1)
  }

  lemma {:induction false} LevelKeepsRoot<D>(h: (D, D) -> D, leaves: seq<D>, j: nat)
    requires leaves != [] && j <= Height(|leaves|)
    ensures Height(|Level(h, leaves, j)|) == Height(|leaves|) - j
    ensures BuildRoot(h, Level(h, leaves, j)) == BuildRoot(h, leaves)
    decreases j
  {
    if j > 0 {
      LevelKeepsRoot(h, PairUp(h, leaves), j - 1);
    }
  }

  /**
    Exactly which leaf lists share a root: pair up the taller one until both have one height, then
    compare them with the copies written out.
   */
  lemma SharedRootExactly<D(!new)>(h: (D, D) -> D, xs: seq<D>, ys: seq<D>)
    requires xs != [] && ys != [] && Height(|ys|) <= Height(|xs|) && Injective(h)
    ensures var k := Height(|ys|);
            var level := Level(h, xs, Height(|xs|) - k);
            && |level| <= Pow2(k) && |ys| <= Pow2(k)
            && (BuildRoot(h, xs) == BuildRoot(h, ys) <==> Expand(level, k) == Expand(ys, k))
  {
    var j := Height(|xs|) - Height(|ys|);
    LevelKeepsRoot(h, xs, j);
    SameHeightSharedRoot(h, Level(h, xs, j), ys);
  }

  /** Two leaves and their parent as a lone leaf share a root. */
  lemma ParentAsLeafSharesRoot<D>(h: (D, D) -> D, a: D, b: D)
    ensures BuildRoot(h, [a, b]) == BuildRoot(h, [h(a, b)])
  {
    assert PairUp(h, [a, b]) == [h(a, b)];
  }

  /** Why the leaf count matters: three leaves and the same three with the last repeated share a root. */
  lemma RepeatedLastLeafSharesRoot<D>(h: (D, D) -> D, a: D, b: D, c: D)
    ensures BuildRoot(h, [a, b, c]) == BuildRoot(h, [a, b, c, c])
  {
    assert PairUp(h, [a, b, c]) == PairUp(h, [a, b, c, c]);
  }

  /** The level-building loops of the kernel. */
  method BuildLevels<D>(h: (D, D) -> D, leaves: seq<D>) returns (levels: seq<seq<D>>)
    requires leaves != []
    ensures |levels| == Height(|leaves|) + 1
    ensures levels[0] == leaves && |levels[|levels| - 1]| == 1
    ensures forall k :: 0 < k < |levels| ==> levels[k] == PairUp(h, levels[k - 1])
    ensures forall k :: 0 <= k < |levels| ==> levels[k] != [] && BuildRoot(h, levels[k]) == BuildRoot(h, leaves)
  {
    levels := [leaves];
    while |levels[|levels| - 1]| > 1
      invariant |levels| > 0 && levels[0] == leaves
      invariant forall k :: 0 < k < |levels| ==> levels[k] == PairUp(h, levels[k - 1])
      invariant forall k :: 0 <= k < |levels| ==> levels[k] != [] && BuildRoot(h, levels[k]) == BuildRoot(h, leaves)
      invariant |levels| - 1 + Height(|levels[|levels| - 1]|) == Height(|leaves|)
      decreases |levels[|levels| - 1]|
    {
      var prev := levels[|levels| - 1];
      var next: seq<D> := [];
      var i := 0;
      while i < |prev|
        invariant i % 2 == 0 && 0 <= i <= |prev| + 1 && |next| == i / 2
        invariant forall j :: 0 <= j < |next| ==> next[j] == Hash(h, Children(prev, j))
      {
        var left := prev[i];
        var right := if i + 1 < |prev| then prev[i + 1] else prev[i];
        next := next + [h(left, right)];
        i := i + 2;
      }
      assert next == PairUp(h, prev);
      levels := levels + [next];
    }
  }

  /** `merkle_root_and_inclusion` on a non-empty list of leaves. */
  method RootAndInclusion<D>(h: (D, D) -> D, leaves: seq<D>) returns (root: D, inclusion: seq<(nat, seq<D>)>)
    requires leaves != []
    ensures root == BuildRoot(h, leaves)
    ensures |inclusion| == |leaves|
    ensures forall i :: 0 <= i < |leaves| ==> inclusion[i] == (i, Siblings(h, leaves, i))
  {
    var levels := BuildLevels(h, leaves);
    root := levels[|levels| - 1][0];
    inclusion := [];
    for idx := 0 to |leaves|
      invariant |inclusion| == idx
      invariant forall i :: 0 <= i < idx ==> inclusion[i] == (i, Siblings(h, leaves, i))
    {
      var siblings: seq<D> := [];
      var cur: nat := idx;
      for k := 0 to |levels| - 1
        invariant cur < |levels[k]|
        invariant siblings + Siblings(h, levels[k], cur) == Siblings(h, leaves, idx)
      {
        LevelSize(h, levels, k);
        siblings := siblings + [levels[k][SiblingIndex(cur, |levels[k]|)]];
        cur := cur / 2;
      }
      assert siblings + [] == siblings == Siblings(h, leaves, idx);
      inclusion := inclusion + [(idx, siblings)];
    }
  }

  lemma {:induction false} LevelSize<D>(h: (D, D) -> D, levels: seq<seq<D>>, k: nat)
    requires k + 1 < |levels| && |levels[0]| > 0
    requires |levels| == Height(|levels[0]|) + 1
    requires forall k :: 0 < k < |levels| ==> levels[k] == PairUp(h, levels[k - 1])
    ensures |levels[k]| > 1
  {
    HeightDrops(h, levels, k);
  }

  lemma {:induction false} HeightDrops<D>(h: (D, D) -> D, levels: seq<seq<D>>, k: nat)
    requires k < |levels| && |levels[0]| > 0
    requires |levels| == Height(|levels[0]|) + 1
    requires forall k :: 0 < k < |levels| ==> levels[k] == PairUp(h, levels[k - 1])
    ensures levels[k] != [] && Height(|levels[k]|) == |levels| - 1 - k
  {
    if k > 0 {
      HeightDrops(h, levels, k - 1);
    }
  }
}
