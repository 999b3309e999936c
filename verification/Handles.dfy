/** Pure functions of the kernel on values and handles: field access, filters, selectors, ranks. */
module Handles {
  import opened Wrappers
  import opened Proto
  import opened Text
  import opened Sorting

  const I64_MIN: int := -0x8000_0000_0000_0000
  const I64_MAX: int := 0x7FFF_FFFF_FFFF_FFFF

  function Clamp64(v: int): int {
    if v < I64_MIN then I64_MIN else if v > I64_MAX then I64_MAX else v
  }

  /** Saturating multiply by 10^9, then saturating add of the nanoseconds. */
  function TimestampScore(ts: Timestamp): int {
    Clamp64(Clamp64(ts.seconds * 1_000_000_000) + ts.nanos)
  }

  /** `v as i32`: two's-complement truncation. */
  function TruncateI32(v: int): int {
    (v + 0x8000_0000) % 0x1_0000_0000 - 0x8000_0000
  }

  function MinTier(a: TrustTier, b: TrustTier): TrustTier {
    if TrustRank(a) <= TrustRank(b) then a else b
  }

  function HandleTrust(h: HandleRef): TrustTier {
    if h.meta.Some? then TrustTierFromI32(h.meta.value.trustTier) else TrustUnspecified
  }

  function HandleTaint(h: HandleRef): set<int> {
    if h.meta.Some? then set t | t in h.meta.value.taint else {}
  }

  function HandleTime(h: HandleRef): int {
    if h.meta.Some? && h.meta.value.temporal.Some? && h.meta.value.temporal.value.validFrom.Some?
    then TimestampScore(h.meta.value.temporal.value.validFrom.value)
    else 0
  }

  function Refs(hs: seq<HandleRef>): set<string> {
    set h | h in hs :: h.ref
  }

  function Taints(hs: seq<HandleRef>): set<int> {
    set h, t | h in hs && t in HandleTaint(h) :: t
  }

  /** The weakest trust in `hs`, starting from the strongest tier. */
  function WeakestTrust(hs: seq<HandleRef>): TrustTier {
    if hs == [] then Tier4PolicySigned
    else MinTier(WeakestTrust(hs[..|hs| - 1]), HandleTrust(hs[|hs| - 1]))
  }

  predicate RefLe(a: HandleRef, b: HandleRef) {
    LessEq(a.ref, b.ref)
  }

  function SortByRef(hs: seq<HandleRef>): (r: seq<HandleRef>)
    ensures multiset(r) == multiset(hs)
    ensures |r| == |hs|
  {
    Sort(RefLe, hs)
  }

  /** `handles_index`: a later handle with the same ref replaces an earlier one. */
  function HandlesIndex(hs: seq<HandleRef>): map<string, HandleRef> {
    if hs == [] then map[]
    else HandlesIndex(hs[..|hs| - 1])[hs[|hs| - 1].ref := hs[|hs| - 1]]
  }

  function SelectorsIndex(ss: seq<SelectorRef>): map<string, SelectorRef> {
    if ss == [] then map[]
    else SelectorsIndex(ss[..|ss| - 1])[ss[|ss| - 1].sel := ss[|ss| - 1]]
  }

  function ScopeOfMeta(m: HandleMeta): string {
    ScopeName(ScopeFromI32(m.scope).GetOr(ScopeUnspecified))
  }

  function HandleField(h: HandleRef, path: string): Option<Value> {
    if path == "ref" then Some(S(h.ref))
    else if path == "type_id" then Some(S(h.typeId))
    else if path == "signature_summary" then Some(S(h.signatureSummary))
    else if path == "conflict_group_id" then Some(S(h.conflictGroupId))
    else if path == "availability" then Some(E(AvailabilityName(AvailabilityFromI32(h.availability))))
    else if h.meta.None? then None
    else MetaField(h.meta.value, path)
  }

  function MetaField(m: HandleMeta, path: string): Option<Value> {
    if path == "meta.subject" then Some(S(m.subject))
    else if path == "meta.predicate_label" then Some(S(m.predicateLabel))
    else if path == "meta.trust_tier" then Some(E(TrustName(TrustTierFromI32(m.trustTier))))
    else if path == "meta.scope" then Some(E(ScopeOfMeta(m)))
    else if m.temporal.None? then None
    else TemporalField(m.temporal.value, path)
  }

  function TemporalField(t: TemporalBound, path: string): Option<Value> {
    if path == "meta.temporal.open_end" then Some(B(t.openEnd))
    else if path == "meta.temporal.valid_from" then
      if t.validFrom.Some? then Some(Ts(t.validFrom.value)) else None
    else if path == "meta.temporal.valid_to" then
      if t.validTo.Some? then Some(Ts(t.validTo.value)) else None
    else None
  }

  function Lookup<V>(m: map<string, V>, k: string): Option<V> {
    if k in m then Some(m[k]) else None
  }

  function AsString(v: Option<Value>): Option<string> {
    if v.Some? && v.value.S? then Some(v.value.s) else None
  }

  function AsStringOrEnum(v: Option<Value>): Option<string> {
    if v.None? then None
    else match v.value
      case S(s) => Some(s)
      case E(e) => Some(e)
      case _ => None
  }

  /** `parse_enum_i32`, then decoded and ranked. */
  function NamedTier(name: string): TrustTier {
    if name == "TIER_0_QUARANTINED" then Tier0Quarantined
    else if name == "TIER_1_ASSERTED" then Tier1Asserted
    else if name == "TIER_2_VERIFIED" then Tier2Verified
    else if name == "TIER_3_CONFIRMED" then Tier3Confirmed
    else if name == "TIER_4_POLICY_SIGNED" then Tier4PolicySigned
    else TrustUnspecified
  }

  function ValueToTierRank(v: Value): Option<int> {
    match v
    case I64(i) => Some(TruncateI32(i))
    case E(e) => Some(TrustRank(NamedTier(e)))
    case _ => None
  }

  function MatchesFilter(h: HandleRef, filterRef: string, params: map<string, Value>): Outcome<bool> {
    if filterRef == "identity" then Ok(true)
    else if filterRef == "by_subject" then
      var subject := AsString(Lookup(params, "subject"));
      if subject.None? then Reject(SchemaViolation)
      else Ok(h.meta.Some? && h.meta.value.subject == subject.value)
    else if filterRef == "by_type" then
      var typeId := AsString(Lookup(params, "type_id"));
      if typeId.None? then Reject(SchemaViolation) else Ok(h.typeId == typeId.value)
    else if filterRef == "by_scope" then
      var scope := AsStringOrEnum(Lookup(params, "scope"));
      if scope.None? then Reject(SchemaViolation)
      else Ok((if h.meta.Some? then ScopeOfMeta(h.meta.value) else "") == scope.value)
    else if filterRef == "trust_at_least" then
      var tier := Lookup(params, "tier");
      var expected := if tier.Some? then ValueToTierRank(tier.value) else None;
      if expected.None? then Reject(SchemaViolation) else Ok(TrustRank(HandleTrust(h)) >= expected.value)
    else Reject(SchemaViolation)
  }

  predicate ParamMatches(h: HandleRef, name: string, value: Value) {
    if name == "subject" then
      (if h.meta.Some? then Some(h.meta.value.subject) else None) == AsString(Some(value))
    else if name == "type_id" then
      Some(h.typeId) == AsString(Some(value))
    else if name == "scope" then
      (if h.meta.Some? then Some(ScopeOfMeta(h.meta.value)) else None) == AsStringOrEnum(Some(value))
    else if name == "availability" then
      Some(AvailabilityName(AvailabilityFromI32(h.availability))) == AsStringOrEnum(Some(value))
    else true
  }

  predicate SelectorMatch(h: HandleRef, params: map<string, Value>) {
    forall name | name in params :: ParamMatches(h, name, params[name])
  }

  function Matching(hs: seq<HandleRef>, params: map<string, Value>): (r: seq<HandleRef>)
    ensures |r| <= |hs|
    ensures forall h :: h in r <==> h in hs && SelectorMatch(h, params)
  {
    if hs == [] then []
    else
      var rest := Matching(hs[1..], params);
      assert hs == [hs[0]] + hs[1..];
      if SelectorMatch(hs[0], params) then [hs[0]] + rest else rest
  }

  predicate ValueMatchesType(v: Value, spec: ParamSpec) {
    match ParamTypeFromI32(spec.kind)
    case ParamString => v.S?
    case ParamBool => v.B?
    case ParamInt64 => v.I64?
    case ParamFloat64 => v.F64?
    case ParamTimestamp => v.Ts?
    case ParamEnum => v.E? && (spec.enumValues == [] || v.e in spec.enumValues)
    case ParamScope => v.E? && (spec.enumValues == [] || v.e in spec.enumValues)
    case ParamUnspecified => false
  }

  /** The parameter specs by name; the last spec of a name wins. */
  function SpecsByName(specs: seq<ParamSpec>): map<string, ParamSpec> {
    if specs == [] then map[]
    else SpecsByName(specs[..|specs| - 1])[specs[|specs| - 1].name := specs[|specs| - 1]]
  }

  /** The check of the first `n` parameters in key order; the first bad one decides the code. */
  function CheckParamPrefix(specs: map<string, ParamSpec>, params: map<string, Value>, keys: seq<string>, n: nat): Outcome<()>
    requires n <= |keys| && forall k :: k in keys ==> k in params
  {
    if n == 0 then Ok(())
    else
      var _ :- CheckParamPrefix(specs, params, keys, n - 1);
      var name := keys[n - 1];
      if name !in specs then Reject(SchemaViolation)
      else if !ValueMatchesType(params[name], specs[name]) then Reject(TypeMismatch)
      else Ok(())
  }

  function CheckParams(specs: seq<ParamSpec>, params: map<string, Value>): Outcome<()> {
    var keys := SortedKeys(params.Keys);
    CheckParamPrefix(SpecsByName(specs), params, keys, |keys|)
  }

  /** Every parameter is declared by the selector and has the declared type. */
  predicate ParamsTyped(specs: seq<ParamSpec>, params: map<string, Value>) {
    forall name | name in params :: name in SpecsByName(specs) && ValueMatchesType(params[name], SpecsByName(specs)[name])
  }

  lemma {:induction false} CheckParamPrefixOk(specs: map<string, ParamSpec>, params: map<string, Value>, keys: seq<string>, n: nat)
    requires n <= |keys| && forall k :: k in keys ==> k in params
    ensures CheckParamPrefix(specs, params, keys, n).Ok? <==>
            forall i :: 0 <= i < n ==> keys[i] in specs && ValueMatchesType(params[keys[i]], specs[keys[i]])
  {
    if n > 0 {
      CheckParamPrefixOk(specs, params, keys, n - 1);
    }
  }

  lemma CheckParamsOk(specs: seq<ParamSpec>, params: map<string, Value>)
    ensures CheckParams(specs, params).Ok? <==> ParamsTyped(specs, params)
  {
    var keys := SortedKeys(params.Keys);
    CheckParamPrefixOk(SpecsByName(specs), params, keys, |keys|);
    forall name | CheckParams(specs, params).Ok? && name in params
      ensures name in SpecsByName(specs) && ValueMatchesType(params[name], SpecsByName(specs)[name])
    {
      assert name in keys;
    }
    assert forall i :: 0 <= i < |keys| ==> keys[i] in params;
  }

  lemma RefLeIsPreorder()
    ensures TotalPreorder(RefLe)
  {
    forall x, y ensures RefLe(x, y) || RefLe(y, x) {
      LessTotal(x.ref, y.ref);
    }
    forall x, y, z | RefLe(x, y) && RefLe(y, z) ensures RefLe(x, z) {
      if x.ref != y.ref && y.ref != z.ref { LessTransitive(x.ref, y.ref, z.ref); }
    }
  }

  /** Sorting by ref orders the handles and keeps them all; with distinct refs nothing else does. */
  lemma SortByRefExactly(hs: seq<HandleRef>, r: seq<HandleRef>)
    ensures SortedBy(RefLe, SortByRef(hs)) && multiset(SortByRef(hs)) == multiset(hs)
    ensures TieFree(RefLe, hs) && SortedBy(RefLe, r) && multiset(r) == multiset(hs) ==> r == SortByRef(hs)
  {
    RefLeIsPreorder();
    SortSorts(RefLe, hs);
    if TieFree(RefLe, hs) && SortedBy(RefLe, r) && multiset(r) == multiset(hs) {
      SortMembers(RefLe, hs);
      SortedUnique(RefLe, SortByRef(hs), r);
    }
  }

  lemma SortByRefMembers(hs: seq<HandleRef>)
    ensures forall h :: h in SortByRef(hs) <==> h in hs
  {
    SortMembers(RefLe, hs);
  }

  lemma {:induction false} HandlesIndexSound(hs: seq<HandleRef>)
    ensures forall r :: r in HandlesIndex(hs) ==> HandlesIndex(hs)[r] in hs && HandlesIndex(hs)[r].ref == r
    ensures forall h :: h in hs ==> h.ref in HandlesIndex(hs)
  {
    if hs != [] {
      HandlesIndexSound(hs[..|hs| - 1]);
      assert hs == hs[..|hs| - 1] + [hs[|hs| - 1]];
    }
  }

  lemma {:induction false} SelectorsIndexSound(ss: seq<SelectorRef>)
    ensures forall r :: r in SelectorsIndex(ss) ==> SelectorsIndex(ss)[r] in ss && SelectorsIndex(ss)[r].sel == r
    ensures forall s :: s in ss ==> s.sel in SelectorsIndex(ss)
  {
    if ss != [] {
      SelectorsIndexSound(ss[..|ss| - 1]);
      assert ss == ss[..|ss| - 1] + [ss[|ss| - 1]];
    }
  }

  lemma LoneSelector(s: SelectorRef)
    ensures SelectorsIndex([s]) == map[s.sel := s]
  {
    assert [s][..0] == [];
    assert SelectorsIndex([]) == map[];
  }

  lemma LoneSpec(spec: ParamSpec)
    ensures SpecsByName([spec]) == map[spec.name := spec]
  {
    assert [spec][..0] == [];
    assert SpecsByName([]) == map[];
  }

  /** The fold meets every element and is attained by one. */
  lemma {:induction false} WeakestTrustIsMinimum(hs: seq<HandleRef>)
    ensures forall h :: h in hs ==> TrustRank(WeakestTrust(hs)) <= TrustRank(HandleTrust(h))
    ensures hs != [] ==> exists h :: h in hs && WeakestTrust(hs) == HandleTrust(h)
  {
    if hs != [] {
      var init, last := hs[..|hs| - 1], hs[|hs| - 1];
      WeakestTrustIsMinimum(init);
      assert hs == init + [last];
      if init != [] {
        var h :| h in init && WeakestTrust(init) == HandleTrust(h);
        assert h in hs;
      }
      assert last in hs;
      TierBounds(HandleTrust(last));
    }
  }

  lemma TierBounds(t: TrustTier)
    ensures 0 <= TrustRank(t) <= 5
    ensures MinTier(Tier4PolicySigned, t) == t
    ensures forall u :: TrustRank(u) == TrustRank(t) ==> u == t
  {
  }
}
