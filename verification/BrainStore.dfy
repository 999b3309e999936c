/**
  The brain store: branches of memory objects, attachments and an audit log, changed by mutations that
  work on a loaded copy and save it only on success. JSON values are their canonical text; ids and
  times of log entries are not part of this model.
 */
module BrainStore {
  import opened Wrappers
  import opened Text

  datatype MemoryObject = MemoryObject(
    id: string, subject: string, relation: string, value: string, memoryType: string, suppressed: bool)

  datatype SuppressionRecord = SuppressionRecord(
    subject: string, relation: string, scope: string, reason: string, suppressedCount: nat)

  datatype BranchState = BranchState(
    name: string,
    objects: map<string, MemoryObject>,
    rules: seq<string>,
    ledger: seq<string>,
    suppressions: seq<SuppressionRecord>)

  datatype AttachmentGrant = AttachmentGrant(
    agentId: string, modelId: string, readClasses: seq<string>, writeClasses: seq<string>, sinks: seq<string>, expiresAt: Option<string>)

  datatype AuditEntry =
    | Branched(from: string, to: string)
    | MergedBranches(source: string, target: string, merged: nat)
    | ForgotSubject(subject: string, relation: string, scope: string, suppressed: nat)
    | Attached(agent: string, model: string)
    | Detached(agent: string, maybeModel: Option<string>, removed: nat)

  datatype BrainState = BrainState(
    branches: map<string, BranchState>, attachments: seq<AttachmentGrant>, audit: seq<AuditEntry>)

  datatype MergeStrategy = Ours | Theirs | Manual

  datatype BrainError =
    | BranchExists
    | ActiveBranchMissing
    | UnknownSource
    | UnknownTarget
    | MergeConflicts(ids: seq<string>)

  /** A mutation either saves a new state with a result, or fails and saves nothing. */
  datatype Mutation = Saved(state: BrainState, count: nat) | Failed(error: BrainError)

  // The effect of each mutation on a loaded state.

  function BranchEffect(active: string, st: BrainState, newBranch: string): Mutation {
    if newBranch in st.branches then Failed(BranchExists)
    else if active !in st.branches then Failed(ActiveBranchMissing)
    else Saved(st.(branches := st.branches[newBranch := st.branches[active].(name := newBranch)],
                   audit := st.audit + [Branched(active, newBranch)]), 0)
  }

  /** What a merge compares: the value and the suppression flag. */
  predicate Differs(a: MemoryObject, b: MemoryObject) {
    a.value != b.value || a.suppressed != b.suppressed
  }

  /** The target's objects after a merge. */
  function MergedObjects(src: map<string, MemoryObject>, dst: map<string, MemoryObject>, strategy: MergeStrategy): map<string, MemoryObject> {
    map k | k in src.Keys + dst.Keys ::
      if k !in dst || (k in src && strategy == Theirs && Differs(dst[k], src[k])) then src[k] else dst[k]
  }

  /** The ids a merge inserts or replaces. */
  function MergedIds(src: map<string, MemoryObject>, dst: map<string, MemoryObject>, strategy: MergeStrategy): set<string> {
    set k | k in src && (k !in dst || (strategy == Theirs && Differs(dst[k], src[k])))
  }

  function ConflictIds(src: map<string, MemoryObject>, dst: map<string, MemoryObject>, strategy: MergeStrategy): set<string> {
    set k | k in src && k in dst && strategy == Manual && Differs(dst[k], src[k])
  }

  function MergeEffect(st: BrainState, source: string, target: string, strategy: MergeStrategy): Mutation {
    if source !in st.branches then Failed(UnknownSource)
    else if target !in st.branches then Failed(UnknownTarget)
    else
      var src, dst := st.branches[source].objects, st.branches[target].objects;
      var conflicts := ConflictIds(src, dst, strategy);
      if conflicts != {} then Failed(MergeConflicts(SortedKeys(conflicts)))
      else
        var merged := |MergedIds(src, dst, strategy)|;
        Saved(st.(branches := st.branches[target := st.branches[target].(objects := MergedObjects(src, dst, strategy))],
                  audit := st.audit + [MergedBranches(source, target, merged)]), merged)
  }

  predicate ToSuppress(o: MemoryObject, subject: string, relation: string) {
    o.subject == subject && o.relation == relation && !o.suppressed
  }

  function SuppressedIds(objects: map<string, MemoryObject>, subject: string, relation: string): set<string> {
    set k | k in objects && ToSuppress(objects[k], subject, relation)
  }

  function SuppressIn(objects: map<string, MemoryObject>, ids: set<string>): map<string, MemoryObject> {
    map k | k in objects :: if k in ids then objects[k].(suppressed := true) else objects[k]
  }

  function ForgetEffect(active: string, st: BrainState, subject: string, relation: string, scope: string, reason: string): Mutation {
    if active !in st.branches then Failed(ActiveBranchMissing)
    else
      var branch := st.branches[active];
      var ids := SuppressedIds(branch.objects, subject, relation);
      Saved(st.(branches := st.branches[active := branch.(
                  objects := SuppressIn(branch.objects, ids),
                  suppressions := branch.suppressions + [SuppressionRecord(subject, relation, scope, reason, |ids|)])],
                audit := st.audit + [ForgotSubject(subject, relation, scope, |ids|)]), |ids|)
  }

  predicate SameHolder(a: AttachmentGrant, agent: string, model: Option<string>) {
    a.agentId == agent && (model.Some? ==> a.modelId == model.value)
  }

  /** `retain`: the grants not held by the given agent and model. */
  function Others(grants: seq<AttachmentGrant>, agent: string, model: Option<string>): (r: seq<AttachmentGrant>)
    ensures |r| <= |grants|
  {
    if grants == [] then []
    else
      var init, last := Others(grants[..|grants| - 1], agent, model), grants[|grants| - 1];
      if SameHolder(last, agent, model) then init else init + [last]
  }

  function AttachEffect(st: BrainState, grant: AttachmentGrant): Mutation {
    Saved(st.(attachments := Others(st.attachments, grant.agentId, Some(grant.modelId)) + [grant],
              audit := st.audit + [Attached(grant.agentId, grant.modelId)]), 0)
  }

  function DetachEffect(st: BrainState, agent: string, model: Option<string>): Mutation {
    var kept := Others(st.attachments, agent, model);
    var removed := |st.attachments| - |kept|;
    Saved(st.(attachments := kept, audit := st.audit + [Detached(agent, model, removed)]), removed)
  }

  // Merge laws.

  /** Equal in all a merge looks at. */
  predicate SameContent(a: map<string, MemoryObject>, b: map<string, MemoryObject>) {
    a.Keys == b.Keys && forall k | k in a :: !Differs(a[k], b[k])
  }

  /** Merging a into b with Theirs and b into a with Ours agree on keys, values and suppression. */
  lemma TheirsMirrorsOurs(a: map<string, MemoryObject>, b: map<string, MemoryObject>)
    ensures SameContent(MergedObjects(a, b, Theirs), MergedObjects(b, a, Ours))
  {
  }

  /** The same on stored brains: the target of one merge holds what the target of the other would. */
  lemma MergeDirectionsAgree(st: BrainState, a: string, b: string)
    requires a in st.branches && b in st.branches
    ensures MergeEffect(st, a, b, Theirs).Saved? && MergeEffect(st, b, a, Ours).Saved?
    ensures SameContent(MergeEffect(st, a, b, Theirs).state.branches[b].objects, MergeEffect(st, b, a, Ours).state.branches[a].objects)
  {
    assert ConflictIds(st.branches[a].objects, st.branches[b].objects, Theirs) == {};
    assert ConflictIds(st.branches[b].objects, st.branches[a].objects, Ours) == {};
    TheirsMirrorsOurs(st.branches[a].objects, st.branches[b].objects);
  }

  /** `merged` counts exactly the ids whose object was inserted or replaced; all others keep theirs. */
  lemma MergeCountsChanges(src: map<string, MemoryObject>, dst: map<string, MemoryObject>, strategy: MergeStrategy, k: string)
    ensures var r := MergedObjects(src, dst, strategy);
            && (k in MergedIds(src, dst, strategy) <==> k in r && (k !in dst || Differs(r[k], dst[k])))
            && (k in MergedIds(src, dst, strategy) ==> k in src && r[k] == src[k])
            && (k in dst && k !in MergedIds(src, dst, strategy) ==> k in r && r[k] == dst[k])
  {
  }

  /** A merge that succeeded and is run again merges nothing and leaves the branches as they are. */
  lemma MergeIdempotent(st: BrainState, source: string, target: string, strategy: MergeStrategy)
    requires MergeEffect(st, source, target, strategy).Saved?
    ensures var once := MergeEffect(st, source, target, strategy).state;
            var twice := MergeEffect(once, source, target, strategy);
            && twice.Saved? && twice.count == 0
            && twice.state.branches == once.branches && twice.state.attachments == once.attachments
  {
    var src, dst := st.branches[source].objects, st.branches[target].objects;
    var once := MergeEffect(st, source, target, strategy).state;
    var src', dst' := once.branches[source].objects, once.branches[target].objects;
    assert dst' == MergedObjects(src, dst, strategy);
    if source == target {
      assert src' == src;
    }
    assert ConflictIds(src', dst', strategy) == {} by {
      forall k | k in src' && k in dst' && strategy == Manual ensures !Differs(dst'[k], src'[k]) {
        assert k !in ConflictIds(src, dst, strategy);
      }
    }
    assert MergedIds(src', dst', strategy) == {};
    assert MergedObjects(src', dst', strategy) == dst';
    assert once.branches[target].(objects := dst') == once.branches[target];
    assert once.branches[target := once.branches[target]] == once.branches;
  }

  /** A manual merge fails exactly on a difference between common ids, and then names them all in order. */
  lemma ManualConflictsExactly(st: BrainState, source: string, target: string)
    requires source in st.branches && target in st.branches
    ensures var src, dst := st.branches[source].objects, st.branches[target].objects;
            var r := MergeEffect(st, source, target, Manual);
            && (r.Failed? <==> exists k :: k in src && k in dst && Differs(dst[k], src[k]))
            && (r.Failed? ==> r.error.MergeConflicts? && Ascending(r.error.ids)
                              && forall k :: k in r.error.ids <==> k in src && k in dst && Differs(dst[k], src[k]))
  {
    var src, dst := st.branches[source].objects, st.branches[target].objects;
    SortedKeysAscend(ConflictIds(src, dst, Manual));
    if k :| k in src && k in dst && Differs(dst[k], src[k]) {
      assert k in ConflictIds(src, dst, Manual);
    }
  }

  /** A fresh branch merges back without effect, under every strategy. */
  lemma BranchThenMergeBack(active: string, st: BrainState, newBranch: string, strategy: MergeStrategy)
    requires BranchEffect(active, st, newBranch).Saved?
    ensures var forked := BranchEffect(active, st, newBranch).state;
            var back := MergeEffect(forked, newBranch, active, strategy);
            back.Saved? && back.count == 0 && back.state.branches == forked.branches
  {
    var forked := BranchEffect(active, st, newBranch).state;
    var objects := st.branches[active].objects;
    assert ConflictIds(objects, objects, strategy) == {};
    assert MergedIds(objects, objects, strategy) == {};
    assert MergedObjects(objects, objects, strategy) == objects;
    assert forked.branches[active].(objects := objects) == forked.branches[active];
    assert forked.branches[active := forked.branches[active]] == forked.branches;
  }

  /** Forgetting touches the active branch only, and a second time it suppresses nothing. */
  lemma ForgetIsLocalAndFinal(active: string, st: BrainState, subject: string, relation: string, scope: string, reason: string)
    requires active in st.branches
    ensures var r := ForgetEffect(active, st, subject, relation, scope, reason);
            && r.Saved?
            && (forall b :: b in st.branches && b != active ==> b in r.state.branches && r.state.branches[b] == st.branches[b])
            && SuppressedIds(r.state.branches[active].objects, subject, relation) == {}
            && ForgetEffect(active, r.state, subject, relation, scope, reason).count == 0
  {
    var objects := st.branches[active].objects;
    var ids := SuppressedIds(objects, subject, relation);
    var after := SuppressIn(objects, ids);
    assert SuppressedIds(after, subject, relation) == {} by {
      forall k | k in after ensures !ToSuppress(after[k], subject, relation) {
        assert k in objects;
      }
    }
  }

  // Attachments.

  lemma {:induction false} OthersMembers(grants: seq<AttachmentGrant>, agent: string, model: Option<string>, g: AttachmentGrant)
    ensures g in Others(grants, agent, model) <==> g in grants && !SameHolder(g, agent, model)
  {
    if grants != [] {
      OthersMembers(grants[..|grants| - 1], agent, model, g);
      assert grants == grants[..|grants| - 1] + [grants[|grants| - 1]];
    }
  }

  /** One grant at most per agent and model. */
  ghost predicate OneGrantEach(grants: seq<AttachmentGrant>) {
    forall i, j :: 0 <= i < j < |grants| ==> !(grants[i].agentId == grants[j].agentId && grants[i].modelId == grants[j].modelId)
  }

  lemma {:induction false} OthersKeepOneEach(grants: seq<AttachmentGrant>, agent: string, model: Option<string>)
    requires OneGrantEach(grants)
    ensures OneGrantEach(Others(grants, agent, model))
  {
    if grants != [] {
      var init, last := grants[..|grants| - 1], grants[|grants| - 1];
      OthersKeepOneEach(init, agent, model);
      var r := Others(init, agent, model);
      forall i | 0 <= i < |r| ensures !(r[i].agentId == last.agentId && r[i].modelId == last.modelId) {
        OthersMembers(init, agent, model, r[i]);
        var j :| 0 <= j < |init| && init[j] == r[i];
        assert grants[j] == r[i];
      }
    }
  }

  /** Attaching replaces: afterwards the holder has exactly the new grant, and everyone else keeps theirs. */
  lemma AttachReplaces(st: BrainState, grant: AttachmentGrant, g: AttachmentGrant)
    requires OneGrantEach(st.attachments)
    ensures var after := AttachEffect(st, grant).state.attachments;
            && OneGrantEach(after)
            && (g in after <==> g == grant || (g in st.attachments && !(g.agentId == grant.agentId && g.modelId == grant.modelId)))
  {
    var kept := Others(st.attachments, grant.agentId, Some(grant.modelId));
    OthersKeepOneEach(st.attachments, grant.agentId, Some(grant.modelId));
    OthersMembers(st.attachments, grant.agentId, Some(grant.modelId), g);
    forall i | 0 <= i < |kept| ensures !(kept[i].agentId == grant.agentId && kept[i].modelId == grant.modelId) {
      OthersMembers(st.attachments, grant.agentId, Some(grant.modelId), kept[i]);
    }
  }

  // Histories of mutations.

  datatype Command =
    | DoBranch(newBranch: string)
    | DoMerge(source: string, target: string, strategy: MergeStrategy)
    | DoForget(subject: string, relation: string, scope: string, reason: string)
    | DoAttach(grant: AttachmentGrant)
    | DoDetach(agent: string, model: Option<string>)

  function Effect(active: string, st: BrainState, c: Command): Mutation {
    match c
    case DoBranch(b) => BranchEffect(active, st, b)
    case DoMerge(s, t, strategy) => MergeEffect(st, s, t, strategy)
    case DoForget(s, p, scope, reason) => ForgetEffect(active, st, s, p, scope, reason)
    case DoAttach(g) => AttachEffect(st, g)
    case DoDetach(a, m) => DetachEffect(st, a, m)
  }

  /** The stored state after a mutation: the new one if it was saved, the old one otherwise. */
  function Stored(st: BrainState, r: Mutation): BrainState {
    if r.Saved? then r.state else st
  }

  function Replay(active: string, st: BrainState, cs: seq<Command>, n: nat): BrainState
    requires n <= |cs|
  {
    if n == 0 then st
    else
      var prev := Replay(active, st, cs, n - 1);
      Stored(prev, Effect(active, prev, cs[n - 1]))
  }

  /** How many of the first `n` commands were saved. */
  function Successes(active: string, st: BrainState, cs: seq<Command>, n: nat): nat
    requires n <= |cs|
  {
    if n == 0 then 0
    else Successes(active, st, cs, n - 1) + if Effect(active, Replay(active, st, cs, n - 1), cs[n - 1]).Saved? then 1 else 0
  }

  lemma EffectLogsOnce(active: string, st: BrainState, c: Command)
    ensures var r := Effect(active, st, c);
            r.Saved? ==> |r.state.audit| == |st.audit| + 1 && st.audit <= r.state.audit
  {
  }

  /** The audit log only grows, by one entry for each mutation that was saved; failures leave no trace. */
  lemma {:induction false} AuditGrowsBySuccesses(active: string, st: BrainState, cs: seq<Command>, n: nat)
    requires n <= |cs|
    ensures st.audit <= Replay(active, st, cs, n).audit
    ensures |Replay(active, st, cs, n).audit| == |st.audit| + Successes(active, st, cs, n)
  {
    if n > 0 {
      AuditGrowsBySuccesses(active, st, cs, n - 1);
      EffectLogsOnce(active, Replay(active, st, cs, n - 1), cs[n - 1]);
    }
  }

  /** Over any history there is at most one grant per agent and model, and no branch is ever lost. */
  lemma {:induction false} ReplayInvariants(active: string, st: BrainState, cs: seq<Command>, n: nat)
    requires n <= |cs| && OneGrantEach(st.attachments)
    ensures OneGrantEach(Replay(active, st, cs, n).attachments)
    ensures st.branches.Keys <= Replay(active, st, cs, n).branches.Keys
  {
    if n > 0 {
      ReplayInvariants(active, st, cs, n - 1);
      var prev, c := Replay(active, st, cs, n - 1), cs[n - 1];
      if c.DoAttach? {
        AttachReplaces(prev, c.grant, c.grant);
      } else if c.DoDetach? {
        OthersKeepOneEach(prev.attachments, c.agent, c.model);
      }
    }
  }

  // The store object.

  class Store {
    const activeBranch: string
    var stored: BrainState

    constructor (activeBranch: string, state: BrainState)
      ensures this.activeBranch == activeBranch && stored == state
    {
      this.activeBranch := activeBranch;
      stored := state;
    }

    method Branch(newBranch: string) returns (error: Option<BrainError>)
      modifies this
      ensures var r := BranchEffect(activeBranch, old(stored), newBranch);
              stored == Stored(old(stored), r) && error == if r.Failed? then Some(r.error) else None
    {
      var state := stored;
      if newBranch in state.branches {
        return Some(BranchExists);
      }
      if activeBranch !in state.branches {
        return Some(ActiveBranchMissing);
      }
      var cloned := state.branches[activeBranch].(name := newBranch);
      state := state.(branches := state.branches[newBranch := cloned]);
      state := state.(audit := state.audit + [Branched(activeBranch, newBranch)]);
      stored := state;
      error := None;
    }

    method Merge(source: string, target: string, strategy: MergeStrategy) returns (merged: nat, error: Option<BrainError>)
      modifies this
      ensures var r := MergeEffect(old(stored), source, target, strategy);
              && stored == Stored(old(stored), r)
              && error == (if r.Failed? then Some(r.error) else None)
              && (r.Saved? ==> merged == r.count)
    {
      var state := stored;
      merged := 0;
      if source !in state.branches {
        return merged, Some(UnknownSource);
      }
      if target !in state.branches {
        return merged, Some(UnknownTarget);
      }
      var src := state.branches[source].objects;
      var objects, count, conflicts := MergeLoop(src, state.branches[target].objects, strategy);
      merged := count;
      if conflicts != [] {
        assert conflicts[0] in conflicts;
        return merged, Some(MergeConflicts(conflicts));
      }
      assert ConflictIds(src, state.branches[target].objects, strategy) == {};
      state := state.(branches := state.branches[target := state.branches[target].(objects := objects)]);
      state := state.(audit := state.audit + [MergedBranches(source, target, merged)]);
      stored := state;
      error := None;
    }

    method ForgetSuppress(subject: string, relation: string, scope: string, reason: string)
      returns (suppressed: nat, error: Option<BrainError>)
      modifies this
      ensures var r := ForgetEffect(activeBranch, old(stored), subject, relation, scope, reason);
              && stored == Stored(old(stored), r)
              && error == (if r.Failed? then Some(r.error) else None)
              && (r.Saved? ==> suppressed == r.count)
    {
      var state := stored;
      suppressed := 0;
      if activeBranch !in state.branches {
        return suppressed, Some(ActiveBranchMissing);
      }
      var branch := state.branches[activeBranch];
      var objects, count := SuppressLoop(branch.objects, subject, relation);
      suppressed := count;
      branch := branch.(objects := objects,
                        suppressions := branch.suppressions + [SuppressionRecord(subject, relation, scope, reason, suppressed)]);
      state := state.(branches := state.branches[activeBranch := branch]);
      state := state.(audit := state.audit + [ForgotSubject(subject, relation, scope, suppressed)]);
      stored := state;
      error := None;
    }

    method Attach(grant: AttachmentGrant)
      modifies this
      ensures stored == AttachEffect(old(stored), grant).state
    {
      var state := stored;
      var kept, _ := Retain(state.attachments, grant.agentId, Some(grant.modelId));
      state := state.(attachments := kept + [grant]);
      state := state.(audit := state.audit + [Attached(grant.agentId, grant.modelId)]);
      stored := state;
    }

    method Detach(agent: string, model: Option<string>) returns (removed: nat)
      modifies this
      ensures var r := DetachEffect(old(stored), agent, model);
              stored == r.state && removed == r.count
    {
      var state := stored;
      var kept, count := Retain(state.attachments, agent, model);
      removed := count;
      state := state.(attachments := kept);
      state := state.(audit := state.audit + [Detached(agent, model, removed)]);
      stored := state;
    }
  }

  /** The keys among the first `n` that satisfy a merge's or a forget's condition. */
  function Within(ids: set<string>, keys: seq<string>, n: nat): set<string>
    requires n <= |keys|
  {
    set i | 0 <= i < n && keys[i] in ids :: keys[i]
  }

  lemma WithinNext(all: set<string>, ids: set<string>, keys: seq<string>, n: nat)
    requires n < |keys| && keys == SortedKeys(all)
    ensures keys[n] !in Within(ids, keys, n)
    ensures Within(ids, keys, n + 1) == Within(ids, keys, n) + if keys[n] in ids then {keys[n]} else {}
  {
    SortedKeysAscend(all);
    forall i | 0 <= i < n ensures keys[i] != keys[n] {
      LessAsymmetric(keys[i], keys[n]);
    }
  }

  lemma WithinAll(ids: set<string>, keys: seq<string>)
    requires forall k :: k in ids ==> k in keys
    ensures Within(ids, keys, |keys|) == ids
  {
  }

  /** The target's objects once the first `n` source ids were handled. */
  ghost predicate PartlyMerged(objects: map<string, MemoryObject>, src: map<string, MemoryObject>, dst: map<string, MemoryObject>,
                               done: set<string>)
  {
    && objects.Keys == dst.Keys + done
    && (forall k :: k in done ==> k in src && objects[k] == src[k])
    && (forall k :: k in dst && k !in done ==> objects[k] == dst[k])
  }

  lemma MergeOneMore(objects: map<string, MemoryObject>, src: map<string, MemoryObject>, dst: map<string, MemoryObject>,
                     done: set<string>, id: string)
    requires PartlyMerged(objects, src, dst, done) && id in src && id !in done
    ensures PartlyMerged(objects[id := src[id]], src, dst, done + {id})
    ensures id in objects <==> id in dst
    ensures id in dst ==> objects[id] == dst[id]
  {
  }

  lemma MergeDone(objects: map<string, MemoryObject>, src: map<string, MemoryObject>, dst: map<string, MemoryObject>, strategy: MergeStrategy)
    requires PartlyMerged(objects, src, dst, MergedIds(src, dst, strategy))
    ensures objects == MergedObjects(src, dst, strategy)
  {
    assert objects.Keys == MergedObjects(src, dst, strategy).Keys;
  }

  /** The ids collected so far, in order. */
  ghost predicate Collected(ids: seq<string>, all: set<string>, keys: seq<string>, n: nat)
    requires n <= |keys|
  {
    Ascending(ids) && forall k :: k in ids <==> k in Within(all, keys, n)
  }

  lemma CollectNext(domain: set<string>, ids: seq<string>, all: set<string>, keys: seq<string>, n: nat)
    requires n < |keys| && keys == SortedKeys(domain) && Collected(ids, all, keys, n)
    ensures Collected(if keys[n] in all then ids + [keys[n]] else ids, all, keys, n + 1)
  {
    SortedKeysAscend(domain);
    WithinNext(domain, all, keys, n);
    forall j | 0 <= j < |ids| ensures Less(ids[j], keys[n]) {
      assert ids[j] in Within(all, keys, n);
    }
  }

  lemma CollectAll(ids: seq<string>, all: set<string>, keys: seq<string>)
    requires Collected(ids, all, keys, |keys|) && forall k :: k in all ==> k in keys
    ensures ids == SortedKeys(all)
  {
    WithinAll(all, keys);
    SortedKeysUnique(ids, all);
  }

  /** The state of the merge loop after `n` ids. */
  ghost predicate MergeState(src: map<string, MemoryObject>, dst: map<string, MemoryObject>, strategy: MergeStrategy, keys: seq<string>, n: nat,
                             objects: map<string, MemoryObject>, merged: nat, conflicts: seq<string>)
    requires n <= |keys|
  {
    && PartlyMerged(objects, src, dst, Within(MergedIds(src, dst, strategy), keys, n))
    && merged == |Within(MergedIds(src, dst, strategy), keys, n)|
    && Collected(conflicts, ConflictIds(src, dst, strategy), keys, n)
  }

  lemma MergeStart(src: map<string, MemoryObject>, dst: map<string, MemoryObject>, strategy: MergeStrategy, keys: seq<string>)
    ensures MergeState(src, dst, strategy, keys, 0, dst, 0, [])
  {
  }

  /** The ids still to come are untouched, so testing the target decides as testing the original would. */
  lemma MergeDecision(src: map<string, MemoryObject>, dst: map<string, MemoryObject>, strategy: MergeStrategy, keys: seq<string>, n: nat,
                      objects: map<string, MemoryObject>, id: string)
    requires keys == SortedKeys(src.Keys) && n < |keys| && keys[n] == id && id in src
    requires PartlyMerged(objects, src, dst, Within(MergedIds(src, dst, strategy), keys, n))
    ensures id !in objects || (Differs(objects[id], src[id]) && strategy == Theirs) <==> id in MergedIds(src, dst, strategy)
    ensures id in objects && Differs(objects[id], src[id]) && strategy == Manual <==> id in ConflictIds(src, dst, strategy)
  {
    WithinNext(src.Keys, MergedIds(src, dst, strategy), keys, n);
    MergeOneMore(objects, src, dst, Within(MergedIds(src, dst, strategy), keys, n), id);
  }

  lemma MergeStep(src: map<string, MemoryObject>, dst: map<string, MemoryObject>, strategy: MergeStrategy, keys: seq<string>, n: nat,
                  objects: map<string, MemoryObject>, merged: nat, conflicts: seq<string>)
    requires keys == SortedKeys(src.Keys) && n < |keys| && keys[n] in src
    requires MergeState(src, dst, strategy, keys, n, objects, merged, conflicts)
    ensures var id := keys[n];
            MergeState(src, dst, strategy, keys, n + 1,
                       if id in MergedIds(src, dst, strategy) then objects[id := src[id]] else objects,
                       merged + (if id in MergedIds(src, dst, strategy) then 1 else 0),
                       conflicts + if id in ConflictIds(src, dst, strategy) then [id] else [])
  {
    hide Within, MergedIds, ConflictIds, PartlyMerged, Collected, Differs;
    var changed, clashing := MergedIds(src, dst, strategy), ConflictIds(src, dst, strategy);
    var done := Within(changed, keys, n);
    WithinNext(src.Keys, changed, keys, n);
    assert keys[n] in changed ==> |done + {keys[n]}| == |done| + 1;
    assert done + {} == done;
    CollectNext(src.Keys, conflicts, clashing, keys, n);
    if keys[n] in changed {
      MergeOneMore(objects, src, dst, Within(changed, keys, n), keys[n]);
    }
    assert conflicts + [] == conflicts;
  }

  lemma MergeFinished(src: map<string, MemoryObject>, dst: map<string, MemoryObject>, strategy: MergeStrategy, keys: seq<string>,
                      objects: map<string, MemoryObject>, merged: nat, conflicts: seq<string>)
    requires keys == SortedKeys(src.Keys) && MergeState(src, dst, strategy, keys, |keys|, objects, merged, conflicts)
    ensures objects == MergedObjects(src, dst, strategy)
    ensures merged == |MergedIds(src, dst, strategy)|
    ensures conflicts == SortedKeys(ConflictIds(src, dst, strategy))
  {
    WithinAll(MergedIds(src, dst, strategy), keys);
    MergeDone(objects, src, dst, strategy);
    CollectAll(conflicts, ConflictIds(src, dst, strategy), keys);
  }

  /** What the merge loop does with one source object. */
  method MergeOne(target: map<string, MemoryObject>, id: string, srcObj: MemoryObject, strategy: MergeStrategy)
    returns (objects: map<string, MemoryObject>, merged: nat, conflicts: seq<string>)
    ensures var insert := id !in target || (Differs(target[id], srcObj) && strategy == Theirs);
            && objects == (if insert then target[id := srcObj] else target)
            && merged == (if insert then 1 else 0)
            && conflicts == if !insert && Differs(target[id], srcObj) && strategy == Manual then [id] else []
  {
    objects, merged, conflicts := target, 0, [];
    if id !in target {
      objects := objects[id := srcObj];
      merged := 1;
    } else if Differs(target[id], srcObj) {
      match strategy {
        case Ours =>
        case Theirs =>
          objects := objects[id := srcObj];
          merged := 1;
        case Manual =>
          conflicts := [id];
      }
    }
  }

  /** The loop of `merge` over the source's objects in id order. */
  method MergeLoop(src: map<string, MemoryObject>, dst: map<string, MemoryObject>, strategy: MergeStrategy)
    returns (objects: map<string, MemoryObject>, merged: nat, conflicts: seq<string>)
    ensures objects == MergedObjects(src, dst, strategy)
    ensures merged == |MergedIds(src, dst, strategy)|
    ensures conflicts == SortedKeys(ConflictIds(src, dst, strategy))
  {
    objects, merged, conflicts := dst, 0, [];
    var keys := SortedKeys(src.Keys);
    MergeStart(src, dst, strategy, keys);
    for i := 0 to |keys|
      invariant MergeState(src, dst, strategy, keys, i, objects, merged, conflicts)
    {
      assert keys[i] in src;
      MergeDecision(src, dst, strategy, keys, i, objects, keys[i]);
      MergeStep(src, dst, strategy, keys, i, objects, merged, conflicts);
      var newObjects, inserted, clash := MergeOne(objects, keys[i], src[keys[i]], strategy);
      objects, merged, conflicts := newObjects, merged + inserted, conflicts + clash;
    }
    MergeFinished(src, dst, strategy, keys, objects, merged, conflicts);
  }

  lemma SuppressOneMore(before: map<string, MemoryObject>, ids: set<string>, k: string)
    requires k in before && k !in ids
    ensures SuppressIn(before, ids)[k] == before[k]
    ensures SuppressIn(before, ids + {k}) == SuppressIn(before, ids)[k := before[k].(suppressed := true)]
  {
  }

  /** The state of the suppressing loop after `n` ids. */
  ghost predicate SuppressState(before: map<string, MemoryObject>, ids: set<string>, keys: seq<string>, n: nat,
                                objects: map<string, MemoryObject>, suppressed: nat)
    requires n <= |keys|
  {
    objects == SuppressIn(before, Within(ids, keys, n)) && suppressed == |Within(ids, keys, n)|
  }

  lemma SuppressStep(before: map<string, MemoryObject>, ids: set<string>, keys: seq<string>, n: nat,
                     objects: map<string, MemoryObject>, suppressed: nat)
    requires keys == SortedKeys(before.Keys) && n < |keys| && SuppressState(before, ids, keys, n, objects, suppressed)
    ensures keys[n] in objects && keys[n] in before && objects[keys[n]] == before[keys[n]]
    ensures if keys[n] in ids
            then SuppressState(before, ids, keys, n + 1, objects[keys[n] := objects[keys[n]].(suppressed := true)], suppressed + 1)
            else SuppressState(before, ids, keys, n + 1, objects, suppressed)
  {
    hide SuppressIn, Within;
    var done, k := Within(ids, keys, n), keys[n];
    assert k in keys;
    WithinNext(before.Keys, ids, keys, n);
    SuppressOneMore(before, done, k);
    assert SuppressIn(before, done).Keys == before.Keys by { SuppressKeepsKeys(before, done); }
    assert k in ids ==> |done + {k}| == |done| + 1;
    assert k !in ids ==> done + {} == done;
  }

  lemma SuppressKeepsKeys(before: map<string, MemoryObject>, ids: set<string>)
    ensures SuppressIn(before, ids).Keys == before.Keys
  {
  }

  lemma SuppressStart(before: map<string, MemoryObject>, ids: set<string>, keys: seq<string>)
    ensures SuppressState(before, ids, keys, 0, before, 0)
  {
    assert Within(ids, keys, 0) == {};
    assert SuppressIn(before, {}) == before;
  }

  /** The loop of `forget_suppress` over the branch's objects. */
  method SuppressLoop(before: map<string, MemoryObject>, subject: string, relation: string)
    returns (objects: map<string, MemoryObject>, suppressed: nat)
    ensures objects == SuppressIn(before, SuppressedIds(before, subject, relation))
    ensures suppressed == |SuppressedIds(before, subject, relation)|
  {
    objects, suppressed := before, 0;
    var keys := SortedKeys(before.Keys);
    ghost var ids := SuppressedIds(before, subject, relation);
    SuppressStart(before, ids, keys);
    for i := 0 to |keys|
      invariant SuppressState(before, ids, keys, i, objects, suppressed)
    {
      SuppressStep(before, ids, keys, i, objects, suppressed);
      hide SuppressState;
      if ToSuppress(objects[keys[i]], subject, relation) {
        objects := objects[keys[i] := objects[keys[i]].(suppressed := true)];
        suppressed := suppressed + 1;
      }
    }
    WithinAll(ids, keys);
  }

  /** `retain` with a count of what it drops. */
  method Retain(grants: seq<AttachmentGrant>, agent: string, model: Option<string>) returns (kept: seq<AttachmentGrant>, removed: nat)
    ensures kept == Others(grants, agent, model) && removed == |grants| - |kept|
  {
    kept, removed := [], 0;
    for i := 0 to |grants|
      invariant kept == Others(grants[..i], agent, model) && removed == i - |kept|
    {
      assert grants[..i + 1][..i] == grants[..i];
      if SameHolder(grants[i], agent, model) {
        removed := removed + 1;
      } else {
        kept := kept + [grants[i]];
      }
    }
    assert grants[..|grants|] == grants;
  }

  // Slugs.

  predicate IsSlugChar(c: char) {
    'a' <= c <= 'z' || '0' <= c <= '9'
  }

  function MapSlugChar(c: char): char {
    if IsSlugChar(c) then c
    else if 'A' <= c <= 'Z' then (c as int + 32) as char
    else '-'
  }

  /** The loop's output: mapped characters with runs of dashes collapsed. */
  function Collapse(s: string): string {
    if s == [] then []
    else
      var init, c := Collapse(s[..|s| - 1]), MapSlugChar(s[|s| - 1]);
      if c == '-' && init != [] && init[|init| - 1] == '-' then init else init + [c]
  }

  function TrimDashes(s: string): string {
    if s != [] && s[0] == '-' then TrimDashes(s[1..])
    else if s != [] && s[|s| - 1] == '-' then TrimDashes(s[..|s| - 1])
    else s
  }

  /** Lower-case letters and digits in groups joined by single dashes. */
  ghost predicate IsSlug(s: string) {
    && NoDoubleDash(s)
    && (s != [] ==> s[0] != '-' && s[|s| - 1] != '-')
  }

  ghost predicate NoDoubleDash(s: string) {
    && (forall i :: 0 <= i < |s| ==> IsSlugChar(s[i]) || s[i] == '-')
    && (forall i :: 0 <= i < |s| - 1 ==> !(s[i] == '-' && s[i + 1] == '-'))
  }

  lemma {:induction false} CollapseShape(s: string)
    ensures NoDoubleDash(Collapse(s))
  {
    if s != [] {
      CollapseShape(s[..|s| - 1]);
    }
  }

  lemma {:induction false} TrimDashesShape(s: string)
    requires NoDoubleDash(s)
    ensures IsSlug(TrimDashes(s))
  {
    if s != [] && s[0] == '-' {
      assert forall i :: 0 <= i < |s| - 1 ==> s[1..][i] == s[i + 1];
      TrimDashesShape(s[1..]);
    } else if s != [] && s[|s| - 1] == '-' {
      TrimDashesShape(s[..|s| - 1]);
    }
  }

  lemma {:induction false} CollapseFixed(s: string)
    requires NoDoubleDash(s)
    ensures Collapse(s) == s
  {
    if s != [] {
      var init := s[..|s| - 1];
      CollapseFixed(init);
      assert s == init + [s[|s| - 1]];
      assert init != [] ==> init[|init| - 1] == s[|s| - 2];
    }
  }

  function Slug(s: string): string {
    TrimDashes(Collapse(s))
  }

  /** The ASCII letters and digits of `s`, lower-cased, in order. */
  function Alphanumerics(s: string): string {
    if s == [] then []
    else
      var c := MapSlugChar(s[|s| - 1]);
      Alphanumerics(s[..|s| - 1]) + if c == '-' then [] else [c]
  }

  lemma {:induction false} CollapseKeepsAlphanumerics(s: string)
    ensures Alphanumerics(Collapse(s)) == Alphanumerics(s)
  {
    if s != [] {
      var init, c := Collapse(s[..|s| - 1]), MapSlugChar(s[|s| - 1]);
      CollapseKeepsAlphanumerics(s[..|s| - 1]);
      assert (init + [c])[..|init|] == init;
    }
  }

  lemma {:induction false} FirstDashDropped(s: string)
    requires s != [] && s[0] == '-'
    ensures Alphanumerics(s[1..]) == Alphanumerics(s)
  {
    if |s| > 1 {
      FirstDashDropped(s[..|s| - 1]);
      assert s[1..][..|s| - 2] == s[..|s| - 1][1..];
    }
  }

  lemma {:induction false} TrimDashesKeepsAlphanumerics(s: string)
    ensures Alphanumerics(TrimDashes(s)) == Alphanumerics(s)
  {
    if s != [] && s[0] == '-' {
      FirstDashDropped(s);
      TrimDashesKeepsAlphanumerics(s[1..]);
    } else if s != [] && s[|s| - 1] == '-' {
      TrimDashesKeepsAlphanumerics(s[..|s| - 1]);
    }
  }

  /**
    Slugs are exactly the names slugifying leaves alone, and slugifying always gives one, so it is
    idempotent. The letters and digits survive, lower-cased and in order.
   */
  lemma SlugsAreFixedPoints(s: string)
    ensures IsSlug(Slug(s))
    ensures Slug(s) == s <==> IsSlug(s)
    ensures Slug(Slug(s)) == Slug(s)
    ensures Alphanumerics(Slug(s)) == Alphanumerics(s)
  {
    CollapseKeepsAlphanumerics(s);
    TrimDashesKeepsAlphanumerics(Collapse(s));
    CollapseShape(s);
    TrimDashesShape(Collapse(s));
    if IsSlug(s) { CollapseFixed(s); }
    CollapseFixed(Slug(s));
  }

  /** `slugify` */
  method Slugify(input: string) returns (r: string)
    ensures r == Slug(input)
  {
    var out := "";
    var prevDash := false;
    for i := 0 to |input|
      invariant out == Collapse(input[..i])
      invariant prevDash <==> out != [] && out[|out| - 1] == '-'
    {
      assert input[..i + 1][..i] == input[..i];
      var mapped := MapSlugChar(input[i]);
      if mapped == '-' {
        if !prevDash {
          out := out + ['-'];
          prevDash := true;
        }
      } else {
        out := out + [mapped];
        prevDash := false;
      }
    }
    assert input[..|input|] == input;
    r := TrimDashes(out);
  }
}
