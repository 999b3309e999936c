/**
  The gRPC service that feeds the kernel: appending events, building manifests and forgetting, as a
  state machine over the handle map, with its invariants over every history.
 */
module Service {
  import opened Wrappers
  import opened Proto
  import opened Text
  import opened Handles

  datatype ServiceState = ServiceState(nextEventId: nat, nextHandleId: nat, handles: map<string, HandleRef>)

  const SERVICE_START := ServiceState(0, 0, map[])

  datatype AppendRequest = AppendRequest(subject: string, text: string, scope: int)

  datatype AppendResponse = AppendResponse(eventId: string, handleRefs: seq<string>)

  datatype ForgetRequest = ForgetRequest(subject: string, predicateLabel: string, scope: int)

  /** The refs a forget suppressed, in order; its assertion cites each and reports their number. */
  datatype ForgetResponse = ForgetResponse(suppressed: seq<string>, assertion: VerifiedAssertion)

  const PREFERENCE_LABEL := "prefers_beverage"

  function LowerChar(c: char): char {
    if 'A' <= c <= 'Z' then (c as int + 32) as char else c
  }

  function Lower(s: string): string {
    seq(|s|, i requires 0 <= i < |s| => LowerChar(s[i]))
  }

  function AfterPrefix(text: string, prefix: string): Option<string> {
    if |text| < |prefix| || Lower(text)[..|prefix|] != prefix then None
    else
      var value := Trim(text[|prefix|..]);
      if value == "" then None else Some(value)
  }

  /** The preference a text states, after "i prefer" or "prefer". */
  function ParsePreference(text: string): Option<string> {
    var normalized := Trim(text);
    var first := AfterPrefix(normalized, "i prefer ");
    if first.Some? then first else AfterPrefix(normalized, "prefer ")
  }

  function RefOf(n: nat): string {
    "H" + Decimal(n)
  }

  function SubjectOf(subject: string): string {
    if Blank(subject) then "user:unknown" else subject
  }

  function NewHandle(n: nat, req: AppendRequest, preference: string): HandleRef {
    var scope := ScopeFromI32(req.scope).GetOr(ScopeGlobal);
    HandleRef(
      RefOf(n),
      "normative.preference",
      1,
      Some(HandleMeta(SubjectOf(req.subject), PREFERENCE_LABEL, TrustRank(Tier3Confirmed), [TAINT_USER], Some(TemporalBound(None, None, true)), ScopeNumber(scope))),
      PREFERENCE_LABEL + "=" + preference,
      "conflict:" + PREFERENCE_LABEL + ":" + SubjectOf(req.subject) + ":" + ScopeName(scope))
  }

  function AppendEffect(s: ServiceState, req: AppendRequest): (ServiceState, AppendResponse) {
    var event := s.nextEventId + 1;
    var eventId := "EVT" + Decimal(event);
    var preference := ParsePreference(req.text);
    if preference.None? then (s.(nextEventId := event), AppendResponse(eventId, []))
    else
      var n := s.nextHandleId + 1;
      (ServiceState(event, n, s.handles[RefOf(n) := NewHandle(n, req, preference.value)]), AppendResponse(eventId, [RefOf(n)]))
  }

  predicate Forgettable(h: HandleRef, req: ForgetRequest) {
    && h.meta.Some?
    && (req.subject == "" || h.meta.value.subject == req.subject)
    && (req.predicateLabel == "" || h.meta.value.predicateLabel == req.predicateLabel)
    && (ScopeFromI32(req.scope).GetOr(ScopeUnspecified) == ScopeUnspecified
        || h.meta.value.scope == ScopeNumber(ScopeFromI32(req.scope).GetOr(ScopeUnspecified)))
  }

  function Forgotten(s: ServiceState, req: ForgetRequest): set<string> {
    set k | k in s.handles && Forgettable(s.handles[k], req)
  }

  function ForgetReport(req: ForgetRequest, suppressed: seq<string>): ForgetResponse {
    ForgetResponse(suppressed, VerifiedAssertion(
      AssertionNumber(AssertDecision),
      map["action" := S("suppressed_preference"), "subject" := S(req.subject), "predicate_label" := S(req.predicateLabel),
          "suppressed_count" := I64(|suppressed|)],
      seq(|suppressed|, i requires 0 <= i < |suppressed| => "handle:" + suppressed[i])))
  }

  function ForgetEffect(s: ServiceState, req: ForgetRequest): (ServiceState, ForgetResponse) {
    (s.(handles := s.handles - Forgotten(s, req)), ForgetReport(req, SortedKeys(Forgotten(s, req))))
  }

  const SUBJECT_SELECTOR := SelectorRef("S0", "Find preferences for subject", [ParamSpec("subject", 1, [])], 1.25, 2)

  /** The handles under the first `n` keys. */
  function Listed(handles: map<string, HandleRef>, keys: seq<string>, n: nat): seq<HandleRef>
    requires n <= |keys| && forall k :: k in keys ==> k in handles
  {
    if n == 0 then [] else Listed(handles, keys, n - 1) + [handles[keys[n - 1]]]
  }

  lemma {:induction false} ListedMembers(handles: map<string, HandleRef>, keys: seq<string>, n: nat, h: HandleRef)
    requires n <= |keys| && forall k :: k in keys ==> k in handles
    ensures h in Listed(handles, keys, n) <==> exists i :: 0 <= i < n && handles[keys[i]] == h
  {
    if n > 0 {
      ListedMembers(handles, keys, n - 1, h);
    }
  }

  /** The handles in key order, sorted by ref. */
  function ManifestHandles(handles: map<string, HandleRef>): seq<HandleRef> {
    var keys := SortedKeys(handles.Keys);
    SortByRef(Listed(handles, keys, |keys|))
  }

  function Manifest(s: ServiceState, requestId: string): PublicManifest {
    PublicManifest(requestId, ManifestHandles(s.handles), [SUBJECT_SELECTOR], Some(PlanBudget(128, 3, 64, 256.0)))
  }

  /** Which forget reaches a handle an append has just created: one whose every given criterion fits the append. */
  lemma ForgetReachesAppend(s: ServiceState, a: AppendRequest, f: ForgetRequest)
    requires ParsePreference(a.text).Some?
    ensures var t := AppendEffect(s, a).0;
            RefOf(t.nextHandleId) in Forgotten(t, f)
            <==> && (f.subject == "" || f.subject == SubjectOf(a.subject))
                 && (f.predicateLabel == "" || f.predicateLabel == PREFERENCE_LABEL)
                 && (ScopeFromI32(f.scope) in {None, Some(ScopeUnspecified)}
                     || ScopeFromI32(f.scope).value == ScopeFromI32(a.scope).GetOr(ScopeGlobal))
  {
    hide RefOf, ParsePreference, SubjectOf;
  }

  // Histories.

  datatype Request = Append(append: AppendRequest) | Forget(forget: ForgetRequest)

  function Apply(s: ServiceState, r: Request): ServiceState {
    match r
    case Append(a) => AppendEffect(s, a).0
    case Forget(f) => ForgetEffect(s, f).0
  }

  /** The state after the first `n` requests. */
  function After(history: seq<Request>, n: nat): ServiceState
    requires n <= |history|
  {
    if n == 0 then SERVICE_START else Apply(After(history, n - 1), history[n - 1])
  }

  /** Keys are the refs of their handles and were issued; every handle is ready, described, confirmed and user-tainted. */
  ghost predicate Valid(s: ServiceState) {
    forall k :: k in s.handles ==>
      && s.handles[k].ref == k
      && Issued(k, s.nextHandleId)
      && s.handles[k].availability == 1 && s.handles[k].meta.Some?
      && s.handles[k].meta.value.trustTier == TrustRank(Tier3Confirmed) && s.handles[k].meta.value.taint == [TAINT_USER]
  }

  /** `k` is one of H1, ..., Hn. */
  ghost predicate Issued(k: string, n: nat) {
    exists i: nat :: 1 <= i <= n && k == RefOf(i)
  }

  lemma RefOfInjective(m: nat, n: nat)
    requires RefOf(m) == RefOf(n)
    ensures m == n
  {
    assert RefOf(m)[1..] == Decimal(m) && RefOf(n)[1..] == Decimal(n);
    DecimalInjective(m, n);
  }

  /** The next ref is fresh, so appending never overwrites a handle. */
  lemma NextRefFresh(s: ServiceState)
    requires Valid(s)
    ensures RefOf(s.nextHandleId + 1) !in s.handles
    ensures !Issued(RefOf(s.nextHandleId + 1), s.nextHandleId)
  {
    forall i: nat | 1 <= i <= s.nextHandleId ensures RefOf(i) != RefOf(s.nextHandleId + 1) {
      if RefOf(i) == RefOf(s.nextHandleId + 1) { RefOfInjective(i, s.nextHandleId + 1); }
    }
  }

  lemma ApplyKeepsValid(s: ServiceState, r: Request)
    requires Valid(s)
    ensures Valid(Apply(s, r))
    ensures s.nextHandleId <= Apply(s, r).nextHandleId
  {
    var t := Apply(s, r);
    forall k | k in t.handles ensures Issued(k, t.nextHandleId) {
      if k in s.handles {
        var i: nat :| 1 <= i <= s.nextHandleId && k == RefOf(i);
      }
    }
  }

  lemma {:induction false} AlwaysValid(history: seq<Request>, n: nat)
    requires n <= |history|
    ensures Valid(After(history, n))
  {
    hide Apply;
    if n > 0 {
      AlwaysValid(history, n - 1);
      ApplyKeepsValid(After(history, n - 1), history[n - 1]);
    }
  }

  /** An append adds at most one entry, under a new key, and leaves every other entry alone. */
  lemma AppendNeverOverwrites(s: ServiceState, a: AppendRequest)
    requires Valid(s)
    ensures var (t, resp) := AppendEffect(s, a);
            && (forall k :: k in s.handles ==> k in t.handles && t.handles[k] == s.handles[k])
            && |t.handles| == |s.handles| + |resp.handleRefs|
            && (forall k :: k in t.handles && k !in s.handles ==> resp.handleRefs == [k])
  {
    hide NewHandle, RefOf, ParsePreference, Decimal, Issued;
    NextRefFresh(s);
    var t := AppendEffect(s, a).0;
    if ParsePreference(a.text).Some? {
      assert t.handles.Keys == s.handles.Keys + {RefOf(s.nextHandleId + 1)};
    }
  }

  /** `k` was issued and is no longer present. */
  ghost predicate Retired(s: ServiceState, k: string) {
    k !in s.handles && Issued(k, s.nextHandleId)
  }

  lemma ApplyKeepsRetired(s: ServiceState, r: Request, k: string)
    requires Valid(s) && Retired(s, k)
    ensures Retired(Apply(s, r), k)
  {
    NextRefFresh(s);
    var n: nat :| 1 <= n <= s.nextHandleId && k == RefOf(n);
  }

  lemma AfterOneMore(history: seq<Request>, n: nat)
    requires 0 < n <= |history|
    ensures After(history, n) == Apply(After(history, n - 1), history[n - 1])
  {
  }

  /** What is retired stays retired. */
  lemma {:induction false} RetiredForever(history: seq<Request>, i: nat, j: nat, k: string)
    requires i <= j <= |history| && Retired(After(history, i), k)
    ensures Retired(After(history, j), k)
  {
    hide Apply, Valid, Retired;
    if i < j {
      RetiredForever(history, i, j - 1, k);
      AlwaysValid(history, j - 1);
      var s := After(history, j - 1);
      ApplyKeepsRetired(s, history[j - 1], k);
      AfterOneMore(history, j);
    }
  }

  lemma ManifestMembers(s: ServiceState, id: string, h: HandleRef)
    requires Valid(s)
    ensures h in Manifest(s, id).handles <==> h.ref in s.handles && s.handles[h.ref] == h
  {
    var keys := SortedKeys(s.handles.Keys);
    SortByRefMembers(Listed(s.handles, keys, |keys|));
    ListedMembers(s.handles, keys, |keys|, h);
    if h in Manifest(s, id).handles {
      var i :| 0 <= i < |keys| && s.handles[keys[i]] == h;
      assert keys[i] in s.handles;
    }
    if h.ref in s.handles && s.handles[h.ref] == h {
      assert h.ref in keys;
    }
  }

  lemma ForgottenAreGone(s: ServiceState, f: ForgetRequest, k: string)
    requires Valid(s) && k in Forgotten(s, f)
    ensures Retired(ForgetEffect(s, f).0, k)
  {
  }

  lemma AbsentFromManifest(s: ServiceState, id: string, k: string)
    requires Valid(s) && k !in s.handles
    ensures forall h :: h in Manifest(s, id).handles ==> h.ref != k
  {
    forall h | h in Manifest(s, id).handles ensures h.ref != k {
      ManifestMembers(s, id, h);
    }
  }

  lemma RetiredByForget(history: seq<Request>, i: nat, k: string)
    requires i < |history| && history[i].Forget? && k in Forgotten(After(history, i), history[i].forget)
    ensures Retired(After(history, i + 1), k)
  {
    AlwaysValid(history, i);
    ForgottenAreGone(After(history, i), history[i].forget, k);
    AfterOneMore(history, i + 1);
  }

  /** A forgotten ref is in no later manifest, whatever happens next. */
  lemma ForgottenNeverReappears(history: seq<Request>, i: nat, j: nat, id: string, k: string)
    requires i < j <= |history| && history[i].Forget? && k in Forgotten(After(history, i), history[i].forget)
    ensures forall h :: h in Manifest(After(history, j), id).handles ==> h.ref != k
  {
    hide Apply, Valid, Manifest, Forgotten;
    RetiredByForget(history, i, k);
    RetiredForever(history, i + 1, j, k);
    AlwaysValid(history, j);
    AbsentFromManifest(After(history, j), id, k);
  }

  /** Handles a request creates. */
  function CreatedBy(r: Request): nat {
    if r.Append? && ParsePreference(r.append.text).Some? then 1 else 0
  }

  /** Handles a request suppresses. */
  function SuppressedBy(s: ServiceState, r: Request): nat {
    if r.Forget? then |Forgotten(s, r.forget)| else 0
  }

  /** The responses report those numbers. */
  lemma ResponsesReportCounts(s: ServiceState, a: AppendRequest, f: ForgetRequest)
    ensures |AppendEffect(s, a).1.handleRefs| == CreatedBy(Append(a))
    ensures var resp := ForgetEffect(s, f).1;
            && |resp.suppressed| == SuppressedBy(s, Forget(f))
            && "suppressed_count" in resp.assertion.fields
            && resp.assertion.fields["suppressed_count"] == I64(SuppressedBy(s, Forget(f)))
            && |resp.assertion.citations| == SuppressedBy(s, Forget(f))
  {
    SortedKeysCount(Forgotten(s, f));
  }

  function Created(history: seq<Request>, n: nat): nat
    requires n <= |history|
  {
    if n == 0 then 0 else Created(history, n - 1) + CreatedBy(history[n - 1])
  }

  function Suppressed(history: seq<Request>, n: nat): nat
    requires n <= |history|
  {
    if n == 0 then 0 else Suppressed(history, n - 1) + SuppressedBy(After(history, n - 1), history[n - 1])
  }

  lemma ForgetCounts(s: ServiceState, f: ForgetRequest)
    ensures |s.handles| == |ForgetEffect(s, f).0.handles| + |Forgotten(s, f)|
  {
    var gone := Forgotten(s, f);
    var t := ForgetEffect(s, f).0;
    assert t.handles.Keys == s.handles.Keys - gone;
    assert s.handles.Keys == t.handles.Keys + gone;
    assert |s.handles.Keys| == |s.handles| && |t.handles.Keys| == |t.handles|;
  }

  lemma StepConserves(s: ServiceState, r: Request)
    requires Valid(s)
    ensures |Apply(s, r).handles| + SuppressedBy(s, r) == |s.handles| + CreatedBy(r)
  {
    match r
    case Append(a) => AppendNeverOverwrites(s, a);
    case Forget(f) => ForgetCounts(s, f);
  }

  /** Conservation: the handles present are those created minus those the forget responses reported. */
  lemma {:induction false} HandlesConserved(history: seq<Request>, n: nat)
    requires n <= |history|
    ensures |After(history, n).handles| + Suppressed(history, n) == Created(history, n)
  {
    hide Apply, SuppressedBy, CreatedBy, Valid;
    if n > 0 {
      HandlesConserved(history, n - 1);
      AlwaysValid(history, n - 1);
      StepConserves(After(history, n - 1), history[n - 1]);
      AfterOneMore(history, n);
    }
  }

  /** Forgetting twice suppresses nothing the second time. */
  lemma ForgetTwice(s: ServiceState, f: ForgetRequest)
    ensures ForgetEffect(ForgetEffect(s, f).0, f) == (ForgetEffect(s, f).0, ForgetReport(f, []))
  {
    var t := ForgetEffect(s, f).0;
    assert Forgotten(t, f) == {};
    assert t.handles - {} == t.handles;
    assert SortedKeys({}) == [];
  }

  // The service object.

  class GrpcKernelService {
    var nextEventId: nat
    var nextHandleId: nat
    var handles: map<string, HandleRef>

    function State(): ServiceState
      reads this
    {
      ServiceState(nextEventId, nextHandleId, handles)
    }

    constructor ()
      ensures State() == SERVICE_START
    {
      nextEventId, nextHandleId, handles := 0, 0, map[];
    }

    method AppendEvent(req: AppendRequest) returns (resp: AppendResponse)
      modifies this
      ensures State() == AppendEffect(old(State()), req).0
      ensures resp == AppendEffect(old(State()), req).1
    {
      hide NewHandle, RefOf, ParsePreference, Decimal;
      nextEventId := nextEventId + 1;
      var eventId := "EVT" + Decimal(nextEventId);
      var handleRefs: seq<string> := [];
      var preference := ParsePreference(req.text);
      if preference.Some? {
        nextHandleId := nextHandleId + 1;
        var ref := RefOf(nextHandleId);
        handles := handles[ref := NewHandle(nextHandleId, req, preference.value)];
        handleRefs := handleRefs + [ref];
        assert handleRefs == [ref];
      }
      resp := AppendResponse(eventId, handleRefs);
    }

    method GetManifest(requestId: string) returns (m: PublicManifest)
      ensures m == Manifest(State(), requestId)
    {
      var keys := SortedKeys(handles.Keys);
      var listed: seq<HandleRef> := [];
      for i := 0 to |keys|
        invariant listed == Listed(handles, keys, i)
      {
        listed := listed + [handles[keys[i]]];
      }
      m := PublicManifest(requestId, SortByRef(listed), [SUBJECT_SELECTOR], Some(PlanBudget(128, 3, 64, 256.0)));
    }

    /** The first loop of `forget`: the keys to remove, in order. */
    method RemoveKeys(req: ForgetRequest) returns (removeKeys: seq<string>)
      ensures removeKeys == SortedKeys(Forgotten(State(), req))
    {
      var keys := SortedKeys(handles.Keys);
      SortedKeysAscend(handles.Keys);
      removeKeys := [];
      for i := 0 to |keys|
        invariant Ascending(removeKeys)
        invariant forall k :: k in removeKeys <==> k in keys[..i] && k in handles && Forgettable(handles[k], req)
      {
        assert keys[i] in handles;
        assert keys[..i + 1] == keys[..i] + [keys[i]];
        if Forgettable(handles[keys[i]], req) {
          forall j | 0 <= j < |removeKeys| ensures Less(removeKeys[j], keys[i]) {
            assert removeKeys[j] in keys[..i];
          }
          removeKeys := removeKeys + [keys[i]];
        }
      }
      assert keys[..|keys|] == keys;
      SortedKeysUnique(removeKeys, Forgotten(State(), req));
    }

    method Forget(req: ForgetRequest) returns (resp: ForgetResponse)
      modifies this
      ensures State() == ForgetEffect(old(State()), req).0
      ensures resp == ForgetEffect(old(State()), req).1
    {
      var removeKeys := RemoveKeys(req);
      for i := 0 to |removeKeys|
        invariant nextEventId == old(nextEventId) && nextHandleId == old(nextHandleId)
        invariant handles == old(handles) - (set k | k in removeKeys[..i])
      {
        assert removeKeys[..i + 1] == removeKeys[..i] + [removeKeys[i]];
        handles := handles - {removeKeys[i]};
      }
      assert removeKeys[..|removeKeys|] == removeKeys;
      assert (set k | k in removeKeys) == Forgotten(old(State()), req);
      resp := ForgetReport(req, removeKeys);
    }
  }
}
