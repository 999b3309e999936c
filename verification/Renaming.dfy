/** Register names carry no meaning: an injective renaming that keeps blank names blank changes no result. */
module Renaming {
  import opened Wrappers
  import opened Proto
  import opened Text
  import opened Semantics
  import opened Runs

  type Renamer = string -> string

  function RenameOp(f: Renamer, op: Op): Op {
    match op
    case Resolve(inReg, policy) => Resolve(f(inReg), policy)
    case Filter(inReg, filterRef, params) => Filter(f(inReg), filterRef, params)
    case Project(inReg, paths) => Project(f(inReg), paths)
    case Join(l, r, edge) => Join(f(l), f(r), edge)
    case AssertOp(t, bindings, cites) => AssertOp(t, RenameBindings(f, bindings), cites)
    case _ => op
  }

  function RenameBindings(f: Renamer, bindings: map<string, ValueRef>): map<string, ValueRef> {
    map k | k in bindings :: ValueRef(f(bindings[k].reg), bindings[k].fieldPath)
  }

  function RenameStep(f: Renamer, s: Step): Step {
    Step(f(s.out), if s.op.Some? then Some(RenameOp(f, s.op.value)) else None)
  }

  function RenameSteps(f: Renamer, steps: seq<Step>): (r: seq<Step>)
    ensures |r| == |steps|
  {
    seq(|steps|, i requires 0 <= i < |steps| => RenameStep(f, steps[i]))
  }

  function RenamePlan(f: Renamer, plan: RmvmPlan): RmvmPlan {
    RmvmPlan(plan.requestId, RenameSteps(f, plan.steps), seq(|plan.outputs|, i requires 0 <= i < |plan.outputs| => f(plan.outputs[i])))
  }

  function StepNames(s: Step): set<string> {
    {s.out} + if s.op.Some? then Operands(s.op.value) else {}
  }

  /** Every register name a plan mentions. */
  function Names(plan: RmvmPlan): set<string> {
    (set i, r | 0 <= i < |plan.steps| && r in StepNames(plan.steps[i]) :: r) + (set r | r in plan.outputs)
  }

  ghost predicate InjectiveOn(f: Renamer, names: set<string>) {
    forall x, y :: x in names && y in names && f(x) == f(y) ==> x == y
  }

  /** The new name of an output is blank only if the old one was. */
  ghost predicate KeepsBlank(f: Renamer, steps: seq<Step>) {
    forall i :: 0 <= i < |steps| ==> (Blank(f(steps[i].out)) <==> Blank(steps[i].out))
  }

  // Execution.

  /** The two register files agree on `names` up to renaming. */
  ghost predicate Agree(f: Renamer, names: set<string>, regs: Registers, regs': Registers) {
    forall r :: r in names ==> Register(regs, r) == Register(regs', f(r))
  }

  lemma {:induction false} BindRenamed(f: Renamer, regs: Registers, regs': Registers, bindings: map<string, ValueRef>, keys: seq<string>, n: nat)
    requires n <= |keys| && forall k :: k in keys ==> k in bindings
    requires Agree(f, set k | k in bindings :: bindings[k].reg, regs, regs')
    ensures BindPrefix(regs, bindings, keys, n) == BindPrefix(regs', RenameBindings(f, bindings), keys, n)
  {
    if n > 0 {
      BindRenamed(f, regs, regs', bindings, keys, n - 1);
      assert bindings[keys[n - 1]].reg in (set k | k in bindings :: bindings[k].reg);
    }
  }

  lemma GatherRenamed(f: Renamer, regs: Registers, regs': Registers, bindings: map<string, ValueRef>)
    requires Agree(f, set k | k in bindings :: bindings[k].reg, regs, regs')
    ensures Gather(regs, bindings) == Gather(regs', RenameBindings(f, bindings))
  {
    assert RenameBindings(f, bindings).Keys == bindings.Keys;
    BindRenamed(f, regs, regs', bindings, SortedKeys(bindings.Keys), |SortedKeys(bindings.Keys)|);
  }

  lemma UnaryRenamed(env: Env, regs: Registers, regs': Registers, r: string, r': string)
    requires Register(regs, r) == Register(regs', r')
    ensures ExecResolve(regs, r) == ExecResolve(regs', r')
    ensures forall f, params :: ExecFilter(env, regs, r, f, params) == ExecFilter(env, regs', r', f, params)
    ensures forall paths :: ExecProject(regs, r, paths) == ExecProject(regs', r', paths)
  {
  }

  lemma JoinRenamed(env: Env, f: Renamer, regs: Registers, regs': Registers, op: Op)
    requires op.Join? && Agree(f, Operands(op), regs, regs')
    ensures ExecOp(env, regs, op) == ExecOp(env, regs', RenameOp(f, op))
  {
    assert op.leftReg in Operands(op) && op.rightReg in Operands(op);
    assert ExecJoin(env, regs, op.leftReg, op.rightReg, op.edgeType) == ExecJoin(env, regs', f(op.leftReg), f(op.rightReg), op.edgeType);
  }

  lemma AssertRenamed(env: Env, f: Renamer, regs: Registers, regs': Registers, op: Op)
    requires op.AssertOp? && Agree(f, Operands(op), regs, regs')
    ensures ExecOp(env, regs, op) == ExecOp(env, regs', RenameOp(f, op))
  {
    hide ExecAssert, Gather, Agree;
    assert Operands(op) == set k | k in op.bindings :: op.bindings[k].reg;
    GatherRenamed(f, regs, regs', op.bindings);
    SameGathered(env, regs, regs', op.assertionType, op.bindings, RenameBindings(f, op.bindings), op.citations);
  }

  lemma SameGathered(env: Env, regs: Registers, regs': Registers, t: int, b: map<string, ValueRef>, b': map<string, ValueRef>, cites: seq<CitationRef>)
    requires Gather(regs, b) == Gather(regs', b')
    ensures ExecAssert(env, regs, t, b, cites) == ExecAssert(env, regs', t, b', cites)
  {
    hide Gather, CanonicalizeCitations, IsBroken, HasUntrustedTaint, AssertTrust;
  }

  /** An operation depends on its operands only. */
  lemma ExecOpRenamed(env: Env, f: Renamer, regs: Registers, regs': Registers, op: Op)
    requires Agree(f, Operands(op), regs, regs')
    ensures ExecOp(env, regs, op) == ExecOp(env, regs', RenameOp(f, op))
  {
    if op.Join? {
      JoinRenamed(env, f, regs, regs', op);
    } else if op.AssertOp? {
      AssertRenamed(env, f, regs, regs', op);
    } else if op.Resolve? || op.Filter? || op.Project? {
      assert op.inReg in Operands(op);
      UnaryRenamed(env, regs, regs', op.inReg, f(op.inReg));
    }
  }

  ghost predicate MachinesAgree(f: Renamer, names: set<string>, m: Machine, m': Machine) {
    Agree(f, names, m.regs, m'.regs) && m.assertions == m'.assertions
  }

  lemma RunStepRenamed(env: Env, f: Renamer, names: set<string>, m: Machine, m': Machine, idx: nat, step: Step)
    requires InjectiveOn(f, names) && StepNames(step) <= names && MachinesAgree(f, names, m, m')
    ensures var r, r' := RunStep(env, m, idx, step), RunStep(env, m', idx, RenameStep(f, step));
            if r.Ok? then r'.Ok? && MachinesAgree(f, names, r.value, r'.value) else r' == r
  {
    if step.op.Some? {
      ExecOpRenamed(env, f, m.regs, m'.regs, step.op.value);
    }
  }

  lemma StartsAgree(f: Renamer, names: set<string>)
    ensures MachinesAgree(f, names, MACHINE_START, MACHINE_START)
  {
  }

  lemma {:induction false} RunRenamed(env: Env, f: Renamer, names: set<string>, steps: seq<Step>, n: nat)
    requires n <= |steps| && InjectiveOn(f, names) && forall i :: 0 <= i < |steps| ==> StepNames(steps[i]) <= names
    ensures var r, r' := RunPrefix(env, steps, n), RunPrefix(env, RenameSteps(f, steps), n);
            if r.Ok? then r'.Ok? && MachinesAgree(f, names, r.value, r'.value) else r' == r
  {
    hide RunStep, RunPrefix, Agree, StepNames, InjectiveOn;
    var steps' := RenameSteps(f, steps);
    if n == 0 {
      NothingRan(env, steps);
      NothingRan(env, steps');
      StartsAgree(f, names);
    } else {
      RunRenamed(env, f, names, steps, n - 1);
      RunOneMore(env, steps, n);
      RunOneMore(env, steps', n);
      assert steps'[n - 1] == RenameStep(f, steps[n - 1]);
      var r := RunPrefix(env, steps, n - 1);
      if r.Ok? {
        RunStepRenamed(env, f, names, r.value, RunPrefix(env, steps', n - 1).value, n - 1, steps[n - 1]);
      }
    }
  }

  // Static check.

  ghost predicate StaticAgree(f: Renamer, names: set<string>, s: StaticState, s': StaticState) {
    && s.totalCost == s'.totalCost
    && (forall r :: r in names ==> (r in s.declared <==> f(r) in s'.declared))
    && (forall r :: r in names ==> DepthIn(s.joinDepth, r) == DepthIn(s'.joinDepth, f(r)))
  }

  lemma OperandsRenamed(f: Renamer, op: Op)
    ensures Operands(RenameOp(f, op)) == set r | r in Operands(op) :: f(r)
  {
    if op.AssertOp? {
      var b := op.bindings;
      forall x ensures x in Operands(RenameOp(f, op)) <==> x in (set r | r in Operands(op) :: f(r)) {
        if x in Operands(RenameOp(f, op)) {
          var k :| k in b && x == f(b[k].reg);
          assert b[k].reg in Operands(op);
        }
        if x in (set r | r in Operands(op) :: f(r)) {
          var r :| r in Operands(op) && x == f(r);
          var k :| k in b && r == b[k].reg;
          assert RenameBindings(f, b)[k].reg == x;
        }
      }
    }
  }

  lemma CheckOpRenamed(env: Env, f: Renamer, op: Op, declared: set<string>, declared': set<string>, depths: map<string, nat>, depths': map<string, nat>)
    requires forall r :: r in Operands(op) ==> (r in declared <==> f(r) in declared')
    requires forall r :: r in Operands(op) ==> DepthIn(depths, r) == DepthIn(depths', f(r))
    ensures CheckOp(env, op, declared, depths) == CheckOp(env, RenameOp(f, op), declared', depths')
    ensures OutDepth(op, depths) == OutDepth(RenameOp(f, op), depths')
  {
    OperandsRenamed(f, op);
    assert Operands(op) <= declared <==> Operands(RenameOp(f, op)) <= declared' by {
      if Operands(RenameOp(f, op)) <= declared' {
        forall r | r in Operands(op) ensures r in declared {
          assert f(r) in Operands(RenameOp(f, op));
        }
      }
    }
    match op
    case Resolve(inReg, _) => assert inReg in Operands(op);
    case Filter(inReg, _, _) => assert inReg in Operands(op);
    case Project(inReg, _) => assert inReg in Operands(op);
    case Join(l, r, _) => assert l in Operands(op) && r in Operands(op);
    case _ =>
  }

  lemma StepCostRenamed(env: Env, power: nat -> real, f: Renamer, op: Op)
    ensures StepCost(env, power, RenameOp(f, op)) == StepCost(env, power, op)
  {
  }

  lemma CheckStepRenamed(env: Env, power: nat -> real, f: Renamer, names: set<string>, s: StaticState, s': StaticState, step: Step)
    requires InjectiveOn(f, names) && StepNames(step) <= names && StaticAgree(f, names, s, s')
    requires Blank(f(step.out)) <==> Blank(step.out)
    ensures var r, r' := CheckStep(env, power, s, step), CheckStep(env, power, s', RenameStep(f, step));
            if r.Ok? then r'.Ok? && StaticAgree(f, names, r.value, r'.value) else r' == r
  {
    assert step.out in names;
    if step.op.Some? {
      CheckOpRenamed(env, f, step.op.value, s.declared + {step.out}, s'.declared + {f(step.out)}, s.joinDepth, s'.joinDepth);
      StepCostRenamed(env, power, f, step.op.value);
    }
  }

  ghost predicate StepFits(f: Renamer, names: set<string>, s: Step) {
    StepNames(s) <= names && (Blank(f(s.out)) <==> Blank(s.out))
  }

  /** Two check outcomes that a renaming relates. */
  ghost predicate ChecksAlike(f: Renamer, names: set<string>, r: Outcome<StaticState>, r': Outcome<StaticState>) {
    if r.Ok? then r'.Ok? && StaticAgree(f, names, r.value, r'.value) else r' == r
  }

  lemma CheckNextRenamed(env: Env, power: nat -> real, f: Renamer, names: set<string>, r: Outcome<StaticState>, r': Outcome<StaticState>, step: Step)
    requires InjectiveOn(f, names) && StepNames(step) <= names && ChecksAlike(f, names, r, r')
    requires Blank(f(step.out)) <==> Blank(step.out)
    ensures ChecksAlike(f, names, CheckNext(env, power, r, step), CheckNext(env, power, r', RenameStep(f, step)))
  {
    if r.Ok? {
      CheckStepRenamed(env, power, f, names, r.value, r'.value, step);
    }
  }

  lemma CheckOneMoreRenamed(env: Env, power: nat -> real, f: Renamer, names: set<string>, steps: seq<Step>, n: nat)
    requires 0 < n <= |steps| && InjectiveOn(f, names) && StepFits(f, names, steps[n - 1])
    requires ChecksAlike(f, names, CheckPrefix(env, power, steps, n - 1), CheckPrefix(env, power, RenameSteps(f, steps), n - 1))
    ensures ChecksAlike(f, names, CheckPrefix(env, power, steps, n), CheckPrefix(env, power, RenameSteps(f, steps), n))
  {
    var r, r' := CheckPrefix(env, power, steps, n - 1), CheckPrefix(env, power, RenameSteps(f, steps), n - 1);
    CheckOneMore(env, power, steps, n);
    CheckOneMore(env, power, RenameSteps(f, steps), n);
    CheckNextRenamed(env, power, f, names, r, r', steps[n - 1]);
    assert RenameSteps(f, steps)[n - 1] == RenameStep(f, steps[n - 1]);
  }

  lemma {:induction false} CheckRenamed(env: Env, power: nat -> real, f: Renamer, names: set<string>, steps: seq<Step>, n: nat)
    requires n <= |steps| && InjectiveOn(f, names)
    requires forall i {:trigger StepFits(f, names, steps[i])} :: 0 <= i < |steps| ==> StepFits(f, names, steps[i])
    ensures ChecksAlike(f, names, CheckPrefix(env, power, steps, n), CheckPrefix(env, power, RenameSteps(f, steps), n))
  {
    if n > 0 {
      CheckRenamed(env, power, f, names, steps, n - 1);
      CheckOneMoreRenamed(env, power, f, names, steps, n);
    }
  }

  lemma ValidateRenamed(env: Env, power: nat -> real, f: Renamer, plan: RmvmPlan)
    requires InjectiveOn(f, Names(plan)) && KeepsBlank(f, plan.steps)
    ensures ValidateStatic(env, power, RenamePlan(f, plan)) == ValidateStatic(env, power, plan)
  {
    hide RenameStep, CheckStep, Blank;
    var names, outs, outs' := Names(plan), plan.outputs, RenamePlan(f, plan).outputs;
    forall i | 0 <= i < |plan.steps| ensures StepFits(f, names, plan.steps[i]) {
    }
    CheckRenamed(env, power, f, names, plan.steps, |plan.steps|);
    var r := CheckPrefix(env, power, plan.steps, |plan.steps|);
    if r.Ok? {
      var d, d' := r.value.declared, CheckPrefix(env, power, RenameSteps(f, plan.steps), |plan.steps|).value.declared;
      if x :| x in outs && x !in d {
        var i :| 0 <= i < |outs| && outs[i] == x;
        assert outs'[i] in outs' && outs'[i] !in d';
      }
      if x :| x in outs' && x !in d' {
        var i :| 0 <= i < |outs'| && outs'[i] == x;
        assert outs[i] in outs && outs[i] !in d;
      }
    }
  }

  /** What two outcomes must share for a renaming to be invisible. */
  ghost predicate SameResults(r: Outcome<Success>, r': Outcome<Success>) {
    if r.Stop? then r' == r
    else
      && r'.Ok?
      && r'.value.assertions == r.value.assertions
      && r'.value.proof.semanticRoot == r.value.proof.semanticRoot
      && r'.value.proof.inclusion == r.value.proof.inclusion
      && r'.value.rendered.narrativeBlocks == r.value.rendered.narrativeBlocks
      && (r.value.assertions != [] ==> r'.value.rendered == r.value.rendered)
  }

  /**
    Renaming registers keeps the status, the error or stall, the assertions, the semantic root, the
    inclusion proofs and the rendering of assertions; only the trace and the listing of bare output
    registers, which spell register names, may change.
   */
  lemma RenamingPreservesMeaning(p: Primitives, m: PublicManifest, plan: RmvmPlan, opts: ExecuteOptions, f: Renamer)
    requires InjectiveOn(f, Names(plan)) && KeepsBlank(f, plan.steps)
    ensures SameResults(ExecutePlan(p, m, plan, opts), ExecutePlan(p, m, RenamePlan(f, plan), opts))
  {
    var env := MakeEnv(m, opts);
    ValidateRenamed(env, p.power, f, plan);
    RunRenamed(env, f, Names(plan), plan.steps, |plan.steps|);
  }
}
