/**
  The wire messages and the total enum decoders of `rmvm-proto`. Enum fields stay raw `i32` numbers
  in the messages, as Protobuf delivers them; decoding sends every unknown number to the zero value.
 */
module Proto {
  import opened Wrappers

  datatype Timestamp = Timestamp(seconds: int, nanos: int)

  /** `Null` is a `Value` message whose oneof is unset. */
  datatype Value =
    | Null
    | S(s: string)
    | B(b: bool)
    | I64(i64: int)
    | F64(f64: real)
    | Ts(ts: Timestamp)
    | E(e: string)

  datatype TemporalBound = TemporalBound(validFrom: Option<Timestamp>, validTo: Option<Timestamp>, openEnd: bool)

  datatype HandleMeta = HandleMeta(
    subject: string,
    predicateLabel: string,
    trustTier: int,
    taint: seq<int>,
    temporal: Option<TemporalBound>,
    scope: int)

  datatype HandleRef = HandleRef(
    ref: string,
    typeId: string,
    availability: int,
    meta: Option<HandleMeta>,
    signatureSummary: string,
    conflictGroupId: string)

  datatype ParamSpec = ParamSpec(name: string, kind: int, enumValues: seq<string>)

  datatype SelectorRef = SelectorRef(
    sel: string,
    description: string,
    params: seq<ParamSpec>,
    costWeight: real,
    returnType: int)

  datatype PlanBudget = PlanBudget(maxOps: nat, maxJoinDepth: nat, maxFanout: nat, maxTotalCost: real)

  datatype PublicManifest = PublicManifest(
    requestId: string,
    handles: seq<HandleRef>,
    selectors: seq<SelectorRef>,
    budget: Option<PlanBudget>)

  datatype ValueRef = ValueRef(reg: string, fieldPath: string)

  datatype CitationRef = HandleCite(handleRef: string) | AnchorCite(anchorRef: string) | NoCite

  datatype Op =
    | Fetch(handleRef: string)
    | ApplySelector(selectorRef: string, params: map<string, Value>)
    | Resolve(inReg: string, policyId: string)
    | Filter(inReg: string, filterRef: string, params: map<string, Value>)
    | Join(leftReg: string, rightReg: string, edgeType: int)
    | Project(inReg: string, fieldPaths: seq<string>)
    | AssertOp(assertionType: int, bindings: map<string, ValueRef>, citations: seq<CitationRef>)

  datatype Step = Step(out: string, op: Option<Op>)

  datatype RmvmPlan = RmvmPlan(requestId: string, steps: seq<Step>, outputs: seq<string>)

  datatype ExecuteRequest = ExecuteRequest(manifest: Option<PublicManifest>, plan: Option<RmvmPlan>)

  datatype VerifiedAssertion = VerifiedAssertion(assertionType: int, fields: map<string, Value>, citations: seq<string>)

  datatype InclusionProof = InclusionProof(assertionIndex: nat, siblingHashes: seq<string>)

  datatype AssertionMerkleProof = AssertionMerkleProof(
    semanticRoot: string,
    traceRoot: string,
    inclusion: seq<InclusionProof>)

  datatype RenderedOutput = RenderedOutput(verifiedBlocks: seq<string>, narrativeBlocks: seq<string>)

  datatype ExecutionStatus = StatusOk | StatusRejected | StatusStall

  datatype ExecuteResponse = ExecuteResponse(
    status: ExecutionStatus,
    assertions: seq<VerifiedAssertion>,
    proof: Option<AssertionMerkleProof>,
    rendered: Option<RenderedOutput>,
    stall: Option<StallInfo>,
    error: Option<ErrorCode>)

  // Enumerations, in the order of their wire numbers.

  datatype TrustTier = TrustUnspecified | Tier0Quarantined | Tier1Asserted | Tier2Verified | Tier3Confirmed | Tier4PolicySigned

  datatype Availability = AvailabilityUnspecified | Ready | ArchivalPending | Offline

  datatype Scope = ScopeUnspecified | ScopeSession | ScopeProject | ScopePerson | ScopeOrg | ScopeGlobal

  datatype SelectorReturn = ReturnUnspecified | ReturnHandle | ReturnHandleSet | ReturnStruct

  datatype ParamType = ParamUnspecified | ParamString | ParamBool | ParamInt64 | ParamFloat64 | ParamTimestamp | ParamEnum | ParamScope

  datatype EdgeType = EdgeUnspecified | EdgeConflictsWith | EdgeSupersedes | EdgeProvenance | EdgeSameEntity

  datatype AssertionType = AssertUnspecified | AssertUserPreference | AssertWorldFact | AssertDecision | AssertProcedure | AssertConflictExplanation

  const TAINT_USER := 1
  const TAINT_WEB_UNTRUSTED := 3
  const TAINT_MIXED := 5

  function TrustTierFromI32(v: int): TrustTier {
    if v == 1 then Tier0Quarantined
    else if v == 2 then Tier1Asserted
    else if v == 3 then Tier2Verified
    else if v == 4 then Tier3Confirmed
    else if v == 5 then Tier4PolicySigned
    else TrustUnspecified
  }

  /** `tier as i32` */
  function TrustRank(t: TrustTier): nat {
    match t
    case TrustUnspecified => 0
    case Tier0Quarantined => 1
    case Tier1Asserted => 2
    case Tier2Verified => 3
    case Tier3Confirmed => 4
    case Tier4PolicySigned => 5
  }

  function TrustName(t: TrustTier): string {
    match t
    case TrustUnspecified => "TRUST_TIER_UNSPECIFIED"
    case Tier0Quarantined => "TIER_0_QUARANTINED"
    case Tier1Asserted => "TIER_1_ASSERTED"
    case Tier2Verified => "TIER_2_VERIFIED"
    case Tier3Confirmed => "TIER_3_CONFIRMED"
    case Tier4PolicySigned => "TIER_4_POLICY_SIGNED"
  }

  function AvailabilityFromI32(v: int): Availability {
    if v == 1 then Ready
    else if v == 2 then ArchivalPending
    else if v == 3 then Offline
    else AvailabilityUnspecified
  }

  function AvailabilityName(a: Availability): string {
    match a
    case AvailabilityUnspecified => "HANDLE_AVAILABILITY_UNSPECIFIED"
    case Ready => "READY"
    case ArchivalPending => "ARCHIVAL_PENDING"
    case Offline => "OFFLINE"
  }

  function ScopeFromI32(v: int): Option<Scope> {
    if v == 0 then Some(ScopeUnspecified)
    else if v == 1 then Some(ScopeSession)
    else if v == 2 then Some(ScopeProject)
    else if v == 3 then Some(ScopePerson)
    else if v == 4 then Some(ScopeOrg)
    else if v == 5 then Some(ScopeGlobal)
    else None
  }

  function ScopeNumber(s: Scope): nat {
    match s
    case ScopeUnspecified => 0
    case ScopeSession => 1
    case ScopeProject => 2
    case ScopePerson => 3
    case ScopeOrg => 4
    case ScopeGlobal => 5
  }

  function ScopeName(s: Scope): string {
    match s
    case ScopeUnspecified => "SCOPE_UNSPECIFIED"
    case ScopeSession => "SCOPE_SESSION"
    case ScopeProject => "SCOPE_PROJECT"
    case ScopePerson => "SCOPE_PERSON"
    case ScopeOrg => "SCOPE_ORG"
    case ScopeGlobal => "SCOPE_GLOBAL"
  }

  function SelectorReturnFromI32(v: int): SelectorReturn {
    if v == 1 then ReturnHandle
    else if v == 2 then ReturnHandleSet
    else if v == 3 then ReturnStruct
    else ReturnUnspecified
  }

  function ParamTypeFromI32(v: int): ParamType {
    if v == 1 then ParamString
    else if v == 2 then ParamBool
    else if v == 3 then ParamInt64
    else if v == 4 then ParamFloat64
    else if v == 5 then ParamTimestamp
    else if v == 6 then ParamEnum
    else if v == 7 then ParamScope
    else ParamUnspecified
  }

  function EdgeTypeFromI32(v: int): EdgeType {
    if v == 1 then EdgeConflictsWith
    else if v == 2 then EdgeSupersedes
    else if v == 3 then EdgeProvenance
    else if v == 4 then EdgeSameEntity
    else EdgeUnspecified
  }

  function AssertionTypeFromI32(v: int): AssertionType {
    if v == 1 then AssertUserPreference
    else if v == 2 then AssertWorldFact
    else if v == 3 then AssertDecision
    else if v == 4 then AssertProcedure
    else if v == 5 then AssertConflictExplanation
    else AssertUnspecified
  }

  function AssertionNumber(t: AssertionType): nat {
    match t
    case AssertUnspecified => 0
    case AssertUserPreference => 1
    case AssertWorldFact => 2
    case AssertDecision => 3
    case AssertProcedure => 4
    case AssertConflictExplanation => 5
  }

  function AssertionName(t: AssertionType): string {
    match t
    case AssertUnspecified => "ASSERTION_TYPE_UNSPECIFIED"
    case AssertUserPreference => "ASSERT_USER_PREFERENCE"
    case AssertWorldFact => "ASSERT_WORLD_FACT"
    case AssertDecision => "ASSERT_DECISION"
    case AssertProcedure => "ASSERT_PROCEDURE"
    case AssertConflictExplanation => "ASSERT_CONFLICT_EXPLANATION"
  }
}
