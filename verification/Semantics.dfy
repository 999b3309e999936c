/**
  What the kernel computes, as functions: the static check, the seven opcodes, the run of a plan,
  the proof and the rendered output. Module `Kernel` proves the loops of the kernel against these.
 */
module Semantics {
  import opened Wrappers
  import opened Proto
  import opened Text
  import opened Sorting
  import opened Handles
  import Merkle
  import Narrative

  datatype ExecuteOptions = ExecuteOptions(
    allowPartialOnStall: bool,
    degradedMode: bool,
    brokenLineageHandles: set<string>,
    narrativeTemplates: seq<string>)

  const DEFAULT_OPTIONS := ExecuteOptions(false, false, {}, [])

  datatype Budget = Budget(maxOps: nat, maxJoinDepth: nat, maxFanout: nat, maxTotalCost: real)

  /**
    Library code the kernel calls but does not define: x^1.2 on row counts, printing of floats,
    SHA-256 on bytes (as hex text) and on a pair of digests, the canonical Protobuf encoding of an
    assertion, and the decimal digits outside ASCII.
   */
  datatype Primitives = Primitives(
    power: nat -> real,
    showFloat: real -> string,
    sha256: string -> string,
    hashPair: (string, string) -> string,
    encode: VerifiedAssertion -> string,
    foreignDigit: char -> bool)

  datatype SourceKind = FromFetch | FromApplySelector | FromResolve | FromFilter | FromJoin | FromProject | FromAssert

  datatype RegData = HandleData(handle: HandleRef) | HandleSet(handles: seq<HandleRef>) | Struct(fields: map<string, Value>)

  datatype RegValue = RegValue(
    data: RegData,
    provenance: set<string>,
    taint: set<int>,
    minTrust: TrustTier,
    joinDepth: nat,
    source: SourceKind)

  type Registers = map<string, RegValue>

  /** The part of a request the steps look at. */
  datatype Env = Env(
    handles: seq<HandleRef>,
    handlesByRef: map<string, HandleRef>,
    selectors: map<string, SelectorRef>,
    budget: Budget,
    opts: ExecuteOptions)

  function OrDefault(v: nat, default: nat): nat {
    if v == 0 then default else v
  }

  function NormalizeBudget(b: Option<PlanBudget>): (r: Budget)
    ensures r.maxOps > 0 && r.maxJoinDepth > 0 && r.maxFanout > 0 && r.maxTotalCost > 0.0
  {
    if b.None? then Budget(128, 3, 64, 512.0)
    else Budget(
      OrDefault(b.value.maxOps, 128),
      OrDefault(b.value.maxJoinDepth, 3),
      OrDefault(b.value.maxFanout, 64),
      if b.value.maxTotalCost <= 0.0 then 512.0 else b.value.maxTotalCost)
  }

  function MakeEnv(m: PublicManifest, opts: ExecuteOptions): Env {
    Env(m.handles, HandlesIndex(m.handles), SelectorsIndex(m.selectors), NormalizeBudget(m.budget), opts)
  }

  // Static check.

  function Max(a: nat, b: nat): nat {
    if a >= b then a else b
  }

  function Min(a: nat, b: nat): nat {
    if a <= b then a else b
  }

  function EstimateSelectorRows(s: SelectorRef, manifestSize: nat, b: Budget): nat {
    match SelectorReturnFromI32(s.returnType)
    case ReturnHandleSet => Min(manifestSize, b.maxFanout)
    case _ => 1
  }

  function SelectorWeight(s: SelectorRef): real {
    if s.costWeight <= 0.0 then 1.0 else s.costWeight
  }

  /** The registers an operation reads. */
  function Operands(op: Op): set<string> {
    match op
    case Resolve(inReg, _) => {inReg}
    case Filter(inReg, _, _) => {inReg}
    case Project(inReg, _) => {inReg}
    case Join(l, r, _) => {l, r}
    case AssertOp(_, bindings, _) => set k | k in bindings :: bindings[k].reg
    case _ => {}
  }

  datatype StaticState = StaticState(declared: set<string>, joinDepth: map<string, nat>, totalCost: real)

  const STATIC_START := StaticState({}, map[], 0.0)

  function DepthIn(depths: map<string, nat>, r: string): nat {
    if r in depths then depths[r] else 0
  }

  /** The depth the check assigns to the output of `op`. */
  function OutDepth(op: Op, depths: map<string, nat>): nat {
    match op
    case Resolve(inReg, _) => DepthIn(depths, inReg)
    case Filter(inReg, _, _) => DepthIn(depths, inReg)
    case Project(inReg, _) => DepthIn(depths, inReg)
    case Join(l, r, _) => Max(DepthIn(depths, l), DepthIn(depths, r)) + 1
    case _ => 0
  }

  /** The cost charged for `op`; a selector pays its weight times rows^1.2. */
  function StepCost(env: Env, power: nat -> real, op: Op): real {
    match op
    case ApplySelector(sel, _) =>
      if sel in env.selectors then
        SelectorWeight(env.selectors[sel]) * power(Max(EstimateSelectorRows(env.selectors[sel], |env.handles|, env.budget), 1))
      else 0.0
    case Join(_, _, _) => 2.0
    case _ => 1.0
  }

  /** The checks on one operation once `declared` holds the registers written so far, its own included. */
  function CheckOp(env: Env, op: Op, declared: set<string>, depths: map<string, nat>): Outcome<()> {
    match op
    case Fetch(ref) =>
      if exists h :: h in env.handles && h.ref == ref then Ok(()) else Reject(UnknownHandleRef)
    case ApplySelector(sel, params) =>
      if sel !in env.selectors then Reject(UnknownSelectorRef)
      else CheckParams(env.selectors[sel].params, params)
    case Join(_, _, _) =>
      if !(Operands(op) <= declared) then Reject(SchemaViolation)
      else if OutDepth(op, depths) > env.budget.maxJoinDepth then Reject(GraphTraversalLimit)
      else Ok(())
    case _ =>
      if Operands(op) <= declared then Ok(()) else Reject(SchemaViolation)
  }

  function CheckStep(env: Env, power: nat -> real, s: StaticState, step: Step): Outcome<StaticState> {
    if Blank(step.out) || step.out in s.declared || step.op.None? then Reject(SchemaViolation)
    else
      var op := step.op.value;
      var declared := s.declared + {step.out};
      var _ :- CheckOp(env, op, declared, s.joinDepth);
      var depth := OutDepth(op, s.joinDepth);
      Ok(StaticState(
        declared,
        if depth > 0 then s.joinDepth[step.out := depth] else s.joinDepth,
        s.totalCost + StepCost(env, power, op)))
  }

  function CheckPrefix(env: Env, power: nat -> real, steps: seq<Step>, n: nat): Outcome<StaticState>
    requires n <= |steps|
  {
    if n == 0 then Ok(STATIC_START)
    else
      var s :- CheckPrefix(env, power, steps, n - 1);
      CheckStep(env, power, s, steps[n - 1])
  }

  function ValidateStatic(env: Env, power: nat -> real, plan: RmvmPlan): Outcome<()> {
    if |plan.steps| > env.budget.maxOps then Reject(GraphTraversalLimit)
    else
      var s :- CheckPrefix(env, power, plan.steps, |plan.steps|);
      if s.totalCost > env.budget.maxTotalCost then Reject(CostGuardRejected)
      else if exists r :: r in plan.outputs && r !in s.declared then Reject(SchemaViolation)
      else Ok(())
  }

  // Opcodes.

  function ExecFetch(env: Env, ref: string): Outcome<RegValue> {
    if ref !in env.handlesByRef then Reject(UnknownHandleRef)
    else
      var h := env.handlesByRef[ref];
      if AvailabilityFromI32(h.availability) != Ready then
        if env.opts.allowPartialOnStall then Ok(RegValue(HandleSet([]), {}, {}, TrustUnspecified, 0, FromFetch))
        else Stop(Stall(StallInfo(h.ref, h.availability, "ticket:" + h.ref)))
      else Ok(RegValue(HandleData(h), {h.ref}, HandleTaint(h), HandleTrust(h), 0, FromFetch))
  }

  /** The handles a selector call matches, in ref order. */
  function Selected(env: Env, params: map<string, Value>): seq<HandleRef> {
    SortByRef(Matching(env.handles, params))
  }

  function SelectedTrust(hs: seq<HandleRef>): TrustTier {
    if hs == [] then TrustUnspecified else WeakestTrust(hs)
  }

  function SelectorData(env: Env, sel: SelectorRef, params: map<string, Value>, matched: seq<HandleRef>): Outcome<RegData> {
    match SelectorReturnFromI32(sel.returnType)
    case ReturnHandle => if matched == [] then Reject(TypeMismatch) else Ok(HandleData(matched[0]))
    case ReturnHandleSet => Ok(HandleSet(matched))
    case ReturnStruct => Ok(Struct(map["matched_count" := I64(|env.handles|)] + params))
    case ReturnUnspecified => Reject(SchemaViolation)
  }

  function ExecApplySelector(env: Env, ref: string, params: map<string, Value>): Outcome<RegValue> {
    if ref !in env.selectors then Reject(UnknownSelectorRef)
    else
      var sel := env.selectors[ref];
      var _ :- CheckParams(sel.params, params);
      var matched := Selected(env, params);
      if |matched| > env.budget.maxFanout then Reject(GraphTraversalLimit)
      else
        var data :- SelectorData(env, sel, params, matched);
        Ok(RegValue(data, Refs(matched), Taints(matched), SelectedTrust(matched), 0, FromApplySelector))
  }

  function AsHandles(reg: RegValue): Outcome<seq<HandleRef>> {
    match reg.data
    case HandleData(h) => Ok([h])
    case HandleSet(hs) => Ok(hs)
    case Struct(_) => Reject(TypeMismatch)
  }

  function Register(regs: Registers, r: string): Outcome<RegValue> {
    if r in regs then Ok(regs[r]) else Reject(SchemaViolation)
  }

  /** (trust, time) ranks `b` no higher than `a`, ties broken by ref. */
  predicate RankLe(a: HandleRef, b: HandleRef) {
    TrustRank(HandleTrust(a)) > TrustRank(HandleTrust(b))
    || (TrustRank(HandleTrust(a)) == TrustRank(HandleTrust(b)) && HandleTime(a) > HandleTime(b))
    || (SameRank(a, b) && LessEq(a.ref, b.ref))
  }

  predicate SameRank(a: HandleRef, b: HandleRef) {
    TrustRank(HandleTrust(a)) == TrustRank(HandleTrust(b)) && HandleTime(a) == HandleTime(b)
  }

  function PickWinner(hs: seq<HandleRef>): Outcome<HandleRef> {
    var ranked := Sort(RankLe, hs);
    if hs == [] || (|ranked| > 1 && SameRank(ranked[0], ranked[1])) then Reject(AmbiguousConflict)
    else Ok(ranked[0])
  }

  function ExecResolve(regs: Registers, inReg: string): Outcome<RegValue> {
    var input :- Register(regs, inReg);
    var handles :- AsHandles(input);
    var winner :- PickWinner(handles);
    Ok(input.(data := HandleData(winner), source := FromResolve))
  }

  function FilterPrefix(hs: seq<HandleRef>, n: nat, filterRef: string, params: map<string, Value>): (r: Outcome<seq<HandleRef>>)
    requires n <= |hs|
    ensures r.Ok? ==> |r.value| <= n
  {
    if n == 0 then Ok([])
    else
      var kept :- FilterPrefix(hs, n - 1, filterRef, params);
      var keep :- MatchesFilter(hs[n - 1], filterRef, params);
      Ok(if keep then kept + [hs[n - 1]] else kept)
  }

  function ExecFilter(env: Env, regs: Registers, inReg: string, filterRef: string, params: map<string, Value>): Outcome<RegValue> {
    var input :- Register(regs, inReg);
    var handles :- AsHandles(input);
    var kept :- FilterPrefix(handles, |handles|, filterRef, params);
    if |kept| > env.budget.maxFanout then Reject(GraphTraversalLimit)
    else Ok(input.(data := HandleSet(SortByRef(kept)), source := FromFilter))
  }

  predicate Linked(edge: EdgeType, l: HandleRef, r: HandleRef) {
    match edge
    case EdgeConflictsWith => l.conflictGroupId != "" && l.conflictGroupId == r.conflictGroupId && l.ref != r.ref
    case EdgeSupersedes => l.typeId == r.typeId && l.ref != r.ref
    case EdgeProvenance => l.signatureSummary == r.signatureSummary
    case EdgeSameEntity =>
      (if l.meta.Some? then Some(l.meta.value.subject) else None) == (if r.meta.Some? then Some(r.meta.value.subject) else None)
    case EdgeUnspecified => false
  }

  /** The map after pairing `l` with the first `n` handles of the right side. */
  function JoinRow(edge: EdgeType, l: HandleRef, rs: seq<HandleRef>, n: nat, acc: map<string, HandleRef>): map<string, HandleRef>
    requires n <= |rs|
  {
    if n == 0 then acc
    else
      var prev := JoinRow(edge, l, rs, n - 1, acc);
      if Linked(edge, l, rs[n - 1]) then prev[l.ref := l][rs[n - 1].ref := rs[n - 1]] else prev
  }

  function JoinPairs(edge: EdgeType, ls: seq<HandleRef>, n: nat, rs: seq<HandleRef>): map<string, HandleRef>
    requires n <= |ls|
  {
    if n == 0 then map[] else JoinRow(edge, ls[n - 1], rs, |rs|, JoinPairs(edge, ls, n - 1, rs))
  }

  /** `into_values`: the handles of the map in key order. */
  function ValuesInOrder(m: map<string, HandleRef>): (r: seq<HandleRef>)
    ensures |r| == |SortedKeys(m.Keys)|
    ensures forall i :: 0 <= i < |r| ==> SortedKeys(m.Keys)[i] in m && r[i] == m[SortedKeys(m.Keys)[i]]
  {
    var keys := SortedKeys(m.Keys);
    assert forall i :: 0 <= i < |keys| ==> keys[i] in m;
    seq(|keys|, i requires 0 <= i < |keys| => m[keys[i]])
  }

  function ExecJoin(env: Env, regs: Registers, leftReg: string, rightReg: string, edgeType: int): Outcome<RegValue> {
    var left :- Register(regs, leftReg);
    var right :- Register(regs, rightReg);
    var edge := EdgeTypeFromI32(edgeType);
    if edge == EdgeUnspecified then Reject(SchemaViolation)
    else
      var ls :- AsHandles(left);
      var rs :- AsHandles(right);
      var joined := JoinPairs(edge, ls, |ls|, rs);
      if |joined| > env.budget.maxFanout then Reject(GraphTraversalLimit)
      else Ok(RegValue(
        HandleSet(ValuesInOrder(joined)),
        left.provenance + right.provenance,
        left.taint + right.taint,
        MinTier(left.minTrust, right.minTrust),
        Max(left.joinDepth, right.joinDepth) + 1,
        FromJoin))
  }

  /** What a path reads from a register that is projected. A set is read through its first handle. */
  function ProjectField(data: RegData, path: string): Option<Value> {
    match data
    case HandleData(h) => HandleField(h, path)
    case HandleSet(hs) => if hs == [] then None else HandleField(hs[0], path)
    case Struct(fields) => Lookup(fields, path)
  }

  /** The paths PROJECT looks up: on a set, none when it is empty, and never "set_count". */
  function ProjectedPaths(data: RegData, paths: seq<string>): set<string> {
    if data.HandleSet? then (if data.handles == [] then {} else (set p | p in paths) - {"set_count"})
    else set p | p in paths
  }

  function SetCount(data: RegData): map<string, Value> {
    if data.HandleSet? then map["set_count" := I64(|data.handles|)] else map[]
  }

  function ExecProject(regs: Registers, inReg: string, paths: seq<string>): Outcome<RegValue> {
    var input :- Register(regs, inReg);
    var wanted := ProjectedPaths(input.data, paths);
    if exists p :: p in wanted && ProjectField(input.data, p).None? then Reject(FieldRedacted)
    else
      var fields := map p | p in wanted :: ProjectField(input.data, p).value;
      Ok(input.(data := Struct(fields + SetCount(input.data)), source := FromProject))
  }

  function ExtractBinding(reg: RegValue, path: string): Outcome<Value> {
    match reg.data
    case HandleData(h) =>
      var v := HandleField(h, path);
      if v.Some? then Ok(v.value) else Reject(FieldRedacted)
    case Struct(fields) => if path in fields then Ok(fields[path]) else Reject(FieldRedacted)
    case HandleSet(_) => Reject(TypeMismatch)
  }

  /** What ASSERT has collected from its bindings so far. */
  datatype Gathered = Gathered(fields: map<string, Value>, provenance: set<string>, taint: set<int>, minTrust: TrustTier)

  const NOTHING_GATHERED := Gathered(map[], {}, {}, Tier4PolicySigned)

  function BindStep(regs: Registers, name: string, b: ValueRef, g: Gathered): Outcome<Gathered> {
    var reg :- Register(regs, b.reg);
    if reg.source != FromFetch && reg.source != FromProject then Reject(SchemaViolation)
    else
      var v :- ExtractBinding(reg, b.fieldPath);
      Ok(Gathered(g.fields[name := v], g.provenance + reg.provenance, g.taint + reg.taint, MinTier(g.minTrust, reg.minTrust)))
  }

  function BindPrefix(regs: Registers, bindings: map<string, ValueRef>, keys: seq<string>, n: nat): Outcome<Gathered>
    requires n <= |keys| && forall k :: k in keys ==> k in bindings
  {
    if n == 0 then Ok(NOTHING_GATHERED)
    else
      var g :- BindPrefix(regs, bindings, keys, n - 1);
      BindStep(regs, keys[n - 1], bindings[keys[n - 1]], g)
  }

  function Gather(regs: Registers, bindings: map<string, ValueRef>): Outcome<Gathered> {
    var keys := SortedKeys(bindings.Keys);
    BindPrefix(regs, bindings, keys, |keys|)
  }

  predicate RequiresTier2(t: AssertionType) {
    t == AssertUserPreference || t == AssertDecision || t == AssertProcedure
  }

  predicate HasUntrustedTaint(taint: set<int>) {
    TAINT_WEB_UNTRUSTED in taint || TAINT_MIXED in taint
  }

  predicate IsBroken(opts: ExecuteOptions, ref: string) {
    !opts.degradedMode && ref in opts.brokenLineageHandles
  }

  const HANDLE_PREFIX := "handle:"

  /** The citation strings of the first `n` explicit citations. */
  function CitePrefix(opts: ExecuteOptions, cites: seq<CitationRef>, n: nat): Outcome<set<string>>
    requires n <= |cites|
  {
    if n == 0 then Ok({})
    else
      var unique :- CitePrefix(opts, cites, n - 1);
      match cites[n - 1]
      case HandleCite(ref) => if IsBroken(opts, ref) then Reject(BrokenLineage) else Ok(unique + {HANDLE_PREFIX + ref})
      case AnchorCite(anchor) => Ok(unique + {anchor})
      case NoCite => Reject(SchemaViolation)
  }

  function CanonicalizeCitations(opts: ExecuteOptions, cites: seq<CitationRef>, provenance: set<string>): Outcome<seq<string>> {
    if cites == [] then
      if exists ref :: ref in provenance && IsBroken(opts, ref) then Reject(BrokenLineage)
      else Ok(SortedKeys(set ref | ref in provenance :: HANDLE_PREFIX + ref))
    else
      var unique :- CitePrefix(opts, cites, |cites|);
      Ok(SortedKeys(unique))
  }

  datatype Asserted = Asserted(reg: RegValue, assertion: VerifiedAssertion)

  function AssertTrust(g: Gathered): TrustTier {
    if g.fields == map[] then TrustUnspecified else g.minTrust
  }

  function ExecAssert(env: Env, regs: Registers, assertionType: int, bindings: map<string, ValueRef>, cites: seq<CitationRef>): Outcome<Asserted> {
    var t := AssertionTypeFromI32(assertionType);
    if t == AssertUnspecified then Reject(SchemaViolation)
    else
      var g :- Gather(regs, bindings);
      var trust := AssertTrust(g);
      if RequiresTier2(t) && TrustRank(trust) < TrustRank(Tier2Verified) then Reject(UntrustedProvenance)
      else if RequiresTier2(t) && HasUntrustedTaint(g.taint) then Reject(DataLeakPrevention)
      else if exists ref :: ref in g.provenance && IsBroken(env.opts, ref) then Reject(BrokenLineage)
      else
        var citations :- CanonicalizeCitations(env.opts, cites, g.provenance);
        Ok(Asserted(
          RegValue(Struct(g.fields), g.provenance, g.taint, trust, 0, FromAssert),
          VerifiedAssertion(AssertionNumber(t), g.fields, citations)))
  }

  // The run.

  datatype StepResult = StepResult(reg: RegValue, assertion: Option<VerifiedAssertion>)

  function Plain(r: Outcome<RegValue>): Outcome<StepResult> {
    var reg :- r;
    Ok(StepResult(reg, None))
  }

  function ExecOp(env: Env, regs: Registers, op: Op): Outcome<StepResult> {
    match op
    case Fetch(ref) => Plain(ExecFetch(env, ref))
    case ApplySelector(sel, params) => Plain(ExecApplySelector(env, sel, params))
    case Resolve(inReg, _) => Plain(ExecResolve(regs, inReg))
    case Filter(inReg, filterRef, params) => Plain(ExecFilter(env, regs, inReg, filterRef, params))
    case Join(l, r, edge) => Plain(ExecJoin(env, regs, l, r, edge))
    case Project(inReg, paths) => Plain(ExecProject(regs, inReg, paths))
    case AssertOp(t, bindings, cites) =>
      var a :- ExecAssert(env, regs, t, bindings, cites);
      Ok(StepResult(a.reg, Some(a.assertion)))
  }

  function OpName(op: Op): string {
    match op
    case Fetch(_) => "FETCH"
    case ApplySelector(_, _) => "APPLY_SELECTOR"
    case Resolve(_, _) => "RESOLVE"
    case Filter(_, _, _) => "FILTER"
    case Join(_, _, _) => "JOIN"
    case Project(_, _) => "PROJECT"
    case AssertOp(_, _, _) => "ASSERT"
  }

  function TraceToken(idx: nat, out: string, op: Op): string {
    Decimal(idx) + ":" + out + ":" + OpName(op)
  }

  datatype Machine = Machine(regs: Registers, assertions: seq<VerifiedAssertion>, trace: seq<string>)

  const MACHINE_START := Machine(map[], [], [])

  function RunStep(env: Env, m: Machine, idx: nat, step: Step): Outcome<Machine> {
    if step.op.None? then Reject(SchemaViolation)
    else
      var r :- ExecOp(env, m.regs, step.op.value);
      Ok(Machine(
        m.regs[step.out := r.reg],
        if r.assertion.Some? then m.assertions + [r.assertion.value] else m.assertions,
        m.trace + [TraceToken(idx, step.out, step.op.value)]))
  }

  /** The machine after the first `n` steps. */
  function RunPrefix(env: Env, steps: seq<Step>, n: nat): Outcome<Machine>
    requires n <= |steps|
  {
    if n == 0 then Ok(MACHINE_START)
    else
      var m :- RunPrefix(env, steps, n - 1);
      RunStep(env, m, n - 1, steps[n - 1])
  }

  // Proof and rendering.

  /** `canonical_assertion_bytes`: citations sorted, then encoded. */
  function CanonicalBytes(p: Primitives, a: VerifiedAssertion): string {
    p.encode(a.(citations := Sort(LessEq, a.citations)))
  }

  function AssertionLeaf(p: Primitives, a: VerifiedAssertion): string {
    p.sha256(CanonicalBytes(p, a))
  }

  function Leaves(p: Primitives, assertions: seq<VerifiedAssertion>): (l: seq<string>)
    ensures |l| == |assertions|
  {
    seq(|assertions|, i requires 0 <= i < |assertions| => AssertionLeaf(p, assertions[i]))
  }

  function SemanticRoot(p: Primitives, assertions: seq<VerifiedAssertion>): string {
    if assertions == [] then p.sha256("") else Merkle.BuildRoot(p.hashPair, Leaves(p, assertions))
  }

  function Inclusion(p: Primitives, assertions: seq<VerifiedAssertion>): seq<InclusionProof> {
    seq(|assertions|, i requires 0 <= i < |assertions| =>
      InclusionProof(i, Merkle.Siblings(p.hashPair, Leaves(p, assertions), i)))
  }

  function BuildProof(p: Primitives, assertions: seq<VerifiedAssertion>, trace: seq<string>): AssertionMerkleProof {
    AssertionMerkleProof(SemanticRoot(p, assertions), p.sha256(JoinText(trace, "\n")), Inclusion(p, assertions))
  }

  function FieldTexts(p: Primitives, fields: map<string, Value>, sep: string): seq<string> {
    var keys := SortedKeys(fields.Keys);
    assert forall i :: 0 <= i < |keys| ==> keys[i] in fields;
    seq(|keys|, i requires 0 <= i < |keys| => keys[i] + sep + Narrative.ValueToString(p.showFloat, fields[keys[i]]))
  }

  function RegToString(p: Primitives, reg: RegValue): string {
    match reg.data
    case HandleData(h) => "HANDLE(" + h.ref + ")"
    case HandleSet(hs) =>
      "HANDLE_SET([" + JoinText(seq(|hs|, i requires 0 <= i < |hs| => hs[i].ref), ",") + "])"
    case Struct(fields) => "STRUCT(" + JoinText(FieldTexts(p, fields, ":"), ",") + ")"
  }

  /** The blocks for the listed output registers, used only when nothing was asserted. */
  function OutputBlocks(p: Primitives, outputs: seq<string>, n: nat, regs: Registers): seq<string>
    requires n <= |outputs|
  {
    if n == 0 then []
    else
      var init := OutputBlocks(p, outputs, n - 1, regs);
      var r := outputs[n - 1];
      if r in regs then init + [r + "=" + RegToString(p, regs[r])] else init
  }

  function AssertionBlock(p: Primitives, a: VerifiedAssertion): string {
    AssertionName(AssertionTypeFromI32(a.assertionType)) + ": " + JoinText(FieldTexts(p, a.fields, "="), ", ")
  }

  function AssertionBlocks(p: Primitives, assertions: seq<VerifiedAssertion>): seq<string> {
    seq(|assertions|, i requires 0 <= i < |assertions| => AssertionBlock(p, assertions[i]))
  }

  function NarrativeBlock(p: Primitives, template: string, assertions: seq<VerifiedAssertion>): Outcome<string> {
    if !Narrative.ValidTemplate(p.foreignDigit, template) then Reject(DataLeakPrevention)
    else Narrative.RenderTemplate(p.foreignDigit, p.showFloat, template, assertions)
  }

  function NarrativePrefix(p: Primitives, templates: seq<string>, n: nat, assertions: seq<VerifiedAssertion>): Outcome<seq<string>>
    requires n <= |templates|
  {
    if n == 0 then Ok([])
    else
      var init :- NarrativePrefix(p, templates, n - 1, assertions);
      var text :- NarrativeBlock(p, templates[n - 1], assertions);
      Ok(init + [text])
  }

  function RenderOutput(p: Primitives, opts: ExecuteOptions, outputs: seq<string>, m: Machine): Outcome<RenderedOutput> {
    var verified := if m.assertions == [] then OutputBlocks(p, outputs, |outputs|, m.regs) else AssertionBlocks(p, m.assertions);
    var narrative :- NarrativePrefix(p, opts.narrativeTemplates, |opts.narrativeTemplates|, m.assertions);
    Ok(RenderedOutput(verified, narrative))
  }

  // Requests.

  datatype Success = Success(assertions: seq<VerifiedAssertion>, proof: AssertionMerkleProof, rendered: RenderedOutput)

  predicate RequestIdsClash(m: PublicManifest, plan: RmvmPlan) {
    m.requestId != "" && plan.requestId != "" && m.requestId != plan.requestId
  }

  function ExecutePlan(p: Primitives, m: PublicManifest, plan: RmvmPlan, opts: ExecuteOptions): Outcome<Success> {
    if RequestIdsClash(m, plan) then Reject(SchemaViolation)
    else
      var env := MakeEnv(m, opts);
      var _ :- ValidateStatic(env, p.power, plan);
      var machine :- RunPrefix(env, plan.steps, |plan.steps|);
      var rendered :- RenderOutput(p, opts, plan.outputs, machine);
      Ok(Success(machine.assertions, BuildProof(p, machine.assertions, machine.trace), rendered))
  }

  function ExecuteInner(p: Primitives, req: ExecuteRequest, opts: ExecuteOptions): Outcome<Success> {
    if req.manifest.None? || req.plan.None? then Reject(SchemaViolation)
    else ExecutePlan(p, req.manifest.value, req.plan.value, opts)
  }

  function Respond(r: Outcome<Success>): ExecuteResponse {
    match r
    case Ok(s) => ExecuteResponse(StatusOk, s.assertions, Some(s.proof), Some(s.rendered), None, None)
    case Stop(Stall(info)) => ExecuteResponse(StatusStall, [], None, None, Some(info), None)
    case Stop(Failure(code)) => ExecuteResponse(StatusRejected, [], None, None, None, Some(code))
  }

  function Execute(p: Primitives, req: ExecuteRequest, opts: ExecuteOptions): ExecuteResponse {
    Respond(ExecuteInner(p, req, opts))
  }
}
