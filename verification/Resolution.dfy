/** RESOLVE picks a winner exactly when one candidate strictly dominates, in any order of candidates. */
module Resolution {
  import opened Wrappers
  import opened Proto
  import opened Text
  import opened Sorting
  import opened Handles
  import opened Semantics

  /** `a` has more trust, or equal trust and a later start of validity. */
  predicate Beats(a: HandleRef, b: HandleRef) {
    TrustRank(HandleTrust(a)) > TrustRank(HandleTrust(b))
    || (TrustRank(HandleTrust(a)) == TrustRank(HandleTrust(b)) && HandleTime(a) > HandleTime(b))
  }

  /** One occurrence of `h` is a candidate that beats all the others, further occurrences of `h` included. */
  ghost predicate Dominates(h: HandleRef, candidates: multiset<HandleRef>) {
    h in candidates && forall g :: g in candidates - multiset{h} ==> Beats(h, g)
  }

  lemma RankLeIsPreorder()
    ensures TotalPreorder(RankLe)
  {
    forall x, y ensures RankLe(x, y) || RankLe(y, x) {
      LessTotal(x.ref, y.ref);
    }
    forall x, y, z | RankLe(x, y) && RankLe(y, z) ensures RankLe(x, z) {
      if LessEq(x.ref, y.ref) && LessEq(y.ref, z.ref) && x.ref != y.ref && y.ref != z.ref {
        LessTransitive(x.ref, y.ref, z.ref);
      }
    }
  }

  lemma RankLeMeans(a: HandleRef, b: HandleRef)
    requires RankLe(a, b)
    ensures Beats(a, b) || SameRank(a, b)
    ensures !Beats(b, a)
  {
  }

  lemma WinnerDominates(hs: seq<HandleRef>)
    requires PickWinner(hs).Ok?
    ensures Dominates(PickWinner(hs).value, multiset(hs))
  {
    var ranked := Sort(RankLe, hs);
    RankLeIsPreorder();
    SortSorts(RankLe, hs);
    assert ranked == [ranked[0]] + ranked[1..];
    forall g | g in multiset(hs) - multiset{ranked[0]} ensures Beats(ranked[0], g) {
      assert g in multiset(ranked[1..]);
      var j :| 1 <= j < |ranked| && ranked[j] == g;
      RankLeMeans(ranked[0], ranked[1]);
      if j > 1 { RankLeMeans(ranked[1], ranked[j]); }
    }
  }

  lemma DominatorWins(hs: seq<HandleRef>, h: HandleRef)
    requires Dominates(h, multiset(hs))
    ensures PickWinner(hs) == Ok(h)
  {
    var ranked := Sort(RankLe, hs);
    RankLeIsPreorder();
    SortSorts(RankLe, hs);
    assert ranked == [ranked[0]] + ranked[1..];
    assert h in multiset(ranked);
    var k :| 0 <= k < |ranked| && ranked[k] == h;
    assert ranked[0] in multiset(ranked);
    assert ranked[0] != h ==> ranked[0] in multiset(hs) - multiset{h};
    if k > 0 {
      RankLeMeans(ranked[0], ranked[k]);
    }
    assert ranked[0] == h;
    if |ranked| > 1 {
      assert ranked[1] in multiset(ranked[1..]);
      assert ranked[1] in multiset(hs) - multiset{h};
    }
  }

  /** The winner rule, both ways; without a dominating candidate the conflict is ambiguous. */
  lemma WinnerExactly(hs: seq<HandleRef>, h: HandleRef)
    ensures PickWinner(hs) == Ok(h) <==> Dominates(h, multiset(hs))
    ensures PickWinner(hs).Stop? ==> PickWinner(hs) == Reject(AmbiguousConflict)
  {
    if PickWinner(hs) == Ok(h) { WinnerDominates(hs); }
    if Dominates(h, multiset(hs)) { DominatorWins(hs, h); }
  }

  /** The order of the candidates does not matter. */
  lemma WinnerIgnoresOrder(hs: seq<HandleRef>, hs': seq<HandleRef>)
    requires multiset(hs) == multiset(hs')
    ensures PickWinner(hs) == PickWinner(hs')
  {
    if PickWinner(hs).Ok? {
      WinnerExactly(hs, PickWinner(hs).value);
      WinnerExactly(hs', PickWinner(hs).value);
    } else if PickWinner(hs').Ok? {
      WinnerExactly(hs', PickWinner(hs').value);
      WinnerExactly(hs, PickWinner(hs').value);
    } else {
      WinnerExactly(hs, HandleRef("", "", 0, None, "", ""));
      WinnerExactly(hs', HandleRef("", "", 0, None, "", ""));
    }
  }

  /** RESOLVE on a register: the winner's handle, with the metadata of the input untouched. */
  lemma ResolveExactly(regs: Registers, r: string, h: HandleRef)
    requires r in regs && !regs[r].data.Struct?
    ensures ExecResolve(regs, r) == Ok(regs[r].(data := HandleData(h), source := FromResolve))
            <==> Dominates(h, multiset(AsHandles(regs[r]).value))
  {
    WinnerExactly(AsHandles(regs[r]).value, h);
  }

  // Timestamps.

  predicate WellFormed(t: Timestamp) {
    0 <= t.nanos < 1_000_000_000
  }

  predicate Earlier(a: Timestamp, b: Timestamp) {
    a.seconds < b.seconds || (a.seconds == b.seconds && a.nanos < b.nanos)
  }

  /** The first second whose nanosecond count fits in 64 bits. */
  const FIRST_EXACT_SECOND := -9_223_372_036

  const LAST_EXACT_SECOND := 9_223_372_035

  /** Scores follow time strictly inside the exact range and weakly above it. */
  lemma ScoreFollowsTime(a: Timestamp, b: Timestamp)
    requires WellFormed(a) && WellFormed(b) && Earlier(a, b) && a.seconds >= FIRST_EXACT_SECOND
    ensures TimestampScore(a) <= TimestampScore(b)
    ensures b.seconds <= LAST_EXACT_SECOND ==> TimestampScore(a) < TimestampScore(b)
  {
  }

  /** Some later timestamp scores lower than `a`. */
  ghost predicate Overtakes(a: Timestamp) {
    exists b :: WellFormed(b) && Earlier(a, b) && TimestampScore(a) > TimestampScore(b)
  }

  /** A timestamp overtakes a later one exactly when its seconds saturate low and its nanoseconds push it back up. */
  lemma OvertakesExactly(a: Timestamp)
    requires WellFormed(a)
    ensures Overtakes(a) <==>
            (a.seconds < FIRST_EXACT_SECOND - 1 && a.nanos > 0) || (a.seconds == FIRST_EXACT_SECOND - 1 && a.nanos > 854_775_808)
  {
    if a.seconds < FIRST_EXACT_SECOND - 1 && a.nanos > 0 {
      var b := Timestamp(FIRST_EXACT_SECOND - 1, 0);
      assert WellFormed(b) && Earlier(a, b) && TimestampScore(a) > TimestampScore(b);
    }
    if a.seconds == FIRST_EXACT_SECOND - 1 && a.nanos > 854_775_808 {
      var b := Timestamp(FIRST_EXACT_SECOND, 0);
      assert WellFormed(b) && Earlier(a, b) && TimestampScore(a) > TimestampScore(b);
    }
  }
}
