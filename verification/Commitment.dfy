/** What the proof inside a response commits to: the assertions by the semantic root, the steps by the trace root. */
module Commitment {
  import opened Wrappers
  import opened Proto
  import opened Text
  import opened Semantics
  import opened Runs
  import Merkle

  // The semantic root.

  /** In an OK request the inclusion proof of each assertion carries its index and folds from its digest to the semantic root. */
  lemma ResponseProofsCheck(p: Primitives, m: PublicManifest, plan: RmvmPlan, opts: ExecuteOptions, k: nat)
    requires ExecutePlan(p, m, plan, opts).Ok? && k < |ExecutePlan(p, m, plan, opts).value.assertions|
    ensures var r := ExecutePlan(p, m, plan, opts).value;
            && |r.proof.inclusion| == |r.assertions| && r.proof.inclusion[k].assertionIndex == k
            && Merkle.Fold(p.hashPair, k, AssertionLeaf(p, r.assertions[k]), r.proof.inclusion[k].siblingHashes) == r.proof.semanticRoot
  {
    var machine, rendered := OkFinishes(p, m, plan, opts);
    FinishedRun(p, m, plan, opts, machine, rendered);
    hide ExecutePlan, Finishes;
    Merkle.ProofsComplete(p.hashPair, Leaves(p, machine.assertions), k);
  }

  /** Equal semantic roots of equally many assertions: the digests agree one by one, or two different pairs hash alike. */
  lemma SemanticRootBinds(p: Primitives, xs: seq<VerifiedAssertion>, ys: seq<VerifiedAssertion>)
    requires |xs| == |ys| > 0 && SemanticRoot(p, xs) == SemanticRoot(p, ys)
    ensures var k := Merkle.Height(|xs|);
            && |xs| <= Merkle.Pow2(k)
            && ((forall i :: 0 <= i < |xs| ==> AssertionLeaf(p, xs[i]) == AssertionLeaf(p, ys[i]))
                || Merkle.TreesCollide(p.hashPair, Leaves(p, xs), Leaves(p, ys), k))
  {
    hide AssertionLeaf;
    var a, b := Leaves(p, xs), Leaves(p, ys);
    Merkle.RootBinds(p.hashPair, a, b);
    if a == b {
      forall i | 0 <= i < |xs| ensures AssertionLeaf(p, xs[i]) == AssertionLeaf(p, ys[i]) {
        assert a[i] == b[i];
      }
    }
  }

  // The trace root.

  /** The trace of a plan whose steps all ran. */
  function Tokens(steps: seq<Step>): (r: seq<string>)
    requires HasOps(steps)
    ensures |r| == |steps|
  {
    seq(|steps|, i requires 0 <= i < |steps| => TraceToken(i, steps[i].out, steps[i].op.value))
  }

  /** A run traces exactly its steps, in order. */
  lemma {:induction false} TraceSpellsSteps(env: Env, steps: seq<Step>, n: nat)
    requires n <= |steps| && RunPrefix(env, steps, n).Ok?
    ensures forall i :: 0 <= i < n ==> steps[i].op.Some?
    ensures MachineAt(env, steps, n).trace == Tokens(steps[..n])
  {
    hide ExecOp, TraceToken;
    if n > 0 {
      StepRan(env, steps, n - 1);
      TraceSpellsSteps(env, steps, n - 1);
      assert Tokens(steps[..n]) == Tokens(steps[..n - 1]) + [TraceToken(n - 1, steps[n - 1].out, steps[n - 1].op.value)];
    }
  }

  predicate OneLine(s: string) {
    '\n' !in s
  }

  predicate OneLineOuts(steps: seq<Step>) {
    forall i :: 0 <= i < |steps| ==> OneLine(steps[i].out)
  }

  /** The same outputs and opcodes. */
  ghost predicate SameShape(steps: seq<Step>, steps': seq<Step>) {
    |steps| == |steps'| && forall i :: 0 <= i < |steps| ==>
      && steps[i].op.Some? && steps'[i].op.Some?
      && steps[i].out == steps'[i].out && SameOpcode(steps[i].op.value, steps'[i].op.value)
  }

  predicate SameOpcode(a: Op, b: Op) {
    || (a.Fetch? && b.Fetch?) || (a.ApplySelector? && b.ApplySelector?) || (a.Resolve? && b.Resolve?)
    || (a.Filter? && b.Filter?) || (a.Join? && b.Join?) || (a.Project? && b.Project?) || (a.AssertOp? && b.AssertOp?)
  }

  /** A text determines what stands before and after the first `c`. */
  lemma {:induction false} FirstBreak(c: char, a: string, s: string, b: string, t: string)
    requires c !in a && c !in b && a + [c] + s == b + [c] + t
    ensures a == b && s == t
  {
    var u := a + [c] + s;
    assert u[|a|] == c && u[|b|] == c;
    assert forall i :: 0 <= i < |a| ==> u[i] == a[i];
    assert forall i :: 0 <= i < |b| ==> u[i] == b[i];
    assert |a| == |b|;
    assert a == u[..|a|] && b == u[..|b|];
    assert s == u[|a| + 1..] && t == u[|b| + 1..];
  }

  /** And what stands before and after the last one. */
  lemma {:induction false} LastBreak(c: char, a: string, s: string, b: string, t: string)
    requires c !in s && c !in t && a + [c] + s == b + [c] + t
    ensures a == b && s == t
  {
    var u := a + [c] + s;
    assert u[|a|] == c && u[|b|] == c;
    assert forall i :: |a| < i < |u| ==> u[i] == s[i - |a| - 1];
    assert forall i :: |b| < i < |u| ==> u[i] == t[i - |b| - 1];
    assert |a| == |b|;
    assert a == u[..|a|] && b == u[..|b|];
    assert s == u[|a| + 1..] && t == u[|b| + 1..];
  }

  ghost predicate Lines(xs: seq<string>) {
    forall x :: x in xs ==> x != [] && OneLine(x)
  }

  lemma LinesShow(xs: seq<string>)
    requires Lines(xs)
    ensures JoinText(xs, "\n") == [] <==> xs == []
    ensures '\n' in JoinText(xs, "\n") <==> |xs| > 1
  {
    if xs != [] {
      assert xs[0] in xs;
      if |xs| > 1 {
        assert JoinText(xs, "\n")[|xs[0]|] == '\n';
      }
    }
  }

  /** Non-empty lines can be told apart in the joined text. */
  lemma {:induction false} LinesInjective(xs: seq<string>, ys: seq<string>)
    requires Lines(xs) && Lines(ys) && JoinText(xs, "\n") == JoinText(ys, "\n")
    ensures xs == ys
    decreases |xs|
  {
    LinesShow(xs);
    LinesShow(ys);
    if |xs| > 1 {
      assert xs[0] in xs && ys[0] in ys;
      FirstBreak('\n', xs[0], JoinText(xs[1..], "\n"), ys[0], JoinText(ys[1..], "\n"));
      assert forall x :: x in xs[1..] ==> x in xs;
      assert forall y :: y in ys[1..] ==> y in ys;
      LinesInjective(xs[1..], ys[1..]);
      assert xs == [xs[0]] + xs[1..] && ys == [ys[0]] + ys[1..];
    }
  }

  lemma {:induction false} DecimalIsDigits(n: nat)
    ensures forall c :: c in Decimal(n) ==> '0' <= c <= '9'
  {
    if n >= 10 {
      DecimalIsDigits(n / 10);
    }
  }

  lemma OpNamesDiffer(a: Op, b: Op)
    ensures ':' !in OpName(a) && OneLine(OpName(a)) && OpName(a) != []
    ensures OpName(a) == OpName(b) ==> SameOpcode(a, b)
  {
    if OpName(a) == OpName(b) {
      assert OpName(a)[0] == OpName(b)[0] && |OpName(a)| == |OpName(b)|;
    }
  }

  lemma TokenIsLine(i: nat, out: string, op: Op)
    requires OneLine(out)
    ensures TraceToken(i, out, op) != [] && OneLine(TraceToken(i, out, op))
  {
    hide OpName, Decimal;
    DecimalIsDigits(i);
    OpNamesDiffer(op, op);
  }

  lemma TokensAreLines(steps: seq<Step>)
    requires OneLineOuts(steps) && HasOps(steps)
    ensures Lines(Tokens(steps))
  {
    hide TraceToken, OneLine;
    var xs := Tokens(steps);
    forall x | x in xs ensures x != [] && OneLine(x) {
      var i :| 0 <= i < |xs| && xs[i] == x;
      TokenIsLine(i, steps[i].out, steps[i].op.value);
    }
  }

  /** The token of a known index determines the output and the opcode. */
  lemma TokenDetermines(i: nat, out: string, op: Op, out': string, op': Op)
    requires TraceToken(i, out, op) == TraceToken(i, out', op')
    ensures out == out' && SameOpcode(op, op')
  {
    hide OpName, Decimal, SameOpcode;
    DecimalIsDigits(i);
    OpNamesDiffer(op, op');
    OpNamesDiffer(op', op);
    var d, a, b := Decimal(i), out + ":" + OpName(op), out' + ":" + OpName(op');
    assert TraceToken(i, out, op) == d + [':'] + a && TraceToken(i, out', op') == d + [':'] + b;
    FirstBreak(':', d, a, d, b);
    LastBreak(':', out, OpName(op), out', OpName(op'));
  }

  /** Two plans whose output names contain no line break and which share a trace text have the same outputs and opcodes. */
  lemma TraceTextDetermines(steps: seq<Step>, steps': seq<Step>)
    requires OneLineOuts(steps) && OneLineOuts(steps')
    requires HasOps(steps) && HasOps(steps') && TraceText(steps) == TraceText(steps')
    ensures SameShape(steps, steps')
  {
    hide TraceToken, JoinText, OneLine, SameOpcode;
    var xs, ys := Tokens(steps), Tokens(steps');
    TokensAreLines(steps);
    TokensAreLines(steps');
    LinesInjective(xs, ys);
    forall i | 0 <= i < |steps| ensures steps[i].out == steps'[i].out && SameOpcode(steps[i].op.value, steps'[i].op.value) {
      assert xs[i] == ys[i];
      TokenDetermines(i, steps[i].out, steps[i].op.value, steps'[i].out, steps'[i].op.value);
    }
  }

  function TraceText(steps: seq<Step>): string
    requires HasOps(steps)
  {
    JoinText(Tokens(steps), "\n")
  }

  /** Among all plans, only those of the same outputs and opcodes have this trace text. */
  ghost predicate TextDetermines(steps: seq<Step>)
    requires HasOps(steps)
  {
    forall steps' :: HasOps(steps') && TraceText(steps') == TraceText(steps) ==> SameShape(steps, steps')
  }

  /** An output name that spells the rest of one trace line and the start of the next. */
  ghost predicate SpansLines(out: string) {
    exists u, op, v :: out == SpanningName(u, op, v)
  }

  function SpanningName(u: string, op: Op, v: string): string {
    u + ":" + OpName(op) + "\n1:" + v
  }

  lemma {:induction false} JoinStarts(xs: seq<string>)
    requires xs != []
    ensures xs[0] <= JoinText(xs, "\n")
  {
  }

  lemma {:induction false} JoinEnds(xs: seq<string>)
    requires |xs| >= 2
    ensures JoinText(xs, "\n") == JoinText(xs[..|xs| - 1], "\n") + "\n" + xs[|xs| - 1]
  {
    var init, last := xs[..|xs| - 1], xs[|xs| - 1];
    if |xs| == 2 {
      assert xs[1..] == [last] && init == [xs[0]];
    } else {
      var tail := xs[1..];
      JoinEnds(tail);
      assert tail[..|tail| - 1] == init[1..] && init[0] == xs[0];
      var a, b := xs[0] + "\n", JoinText(init[1..], "\n");
      assert JoinText(init, "\n") == a + b;
      assert a + (b + "\n" + last) == (a + b) + "\n" + last;
    }
  }

  lemma JoinedEdges(xs: seq<string>, head: string, z: string, name: string) returns (y: string)
    requires xs != [] && head <= xs[0] && xs[|xs| - 1] == z + ":" + name && (|xs| == 1 ==> head <= z)
    ensures JoinText(xs, "\n") == head + y + ":" + name
    ensures |xs| == 1 ==> z == head + y
  {
    if |xs| == 1 {
      y := z[|head|..];
    } else {
      JoinEnds(xs);
      var init := xs[..|xs| - 1];
      JoinStarts(init);
      var text := JoinText(init, "\n");
      assert head <= text;
      y := text[|head|..] + "\n" + z;
      assert text == head + text[|head|..];
      assert text + "\n" + (z + ":" + name) == head + y + ":" + name;
    }
  }

  /** Every trace text of a step or more reads "0:", some name, ":" and the last operation. */
  lemma TextOfLast(steps: seq<Step>) returns (y: string)
    requires HasOps(steps) && steps != []
    ensures TraceText(steps) == "0:" + y + ":" + OpName(steps[|steps| - 1].op.value)
    ensures |steps| == 1 ==> y == steps[0].out
  {
    hide OpName, JoinText;
    var xs, n := Tokens(steps), |steps|;
    assert Decimal(0) == "0";
    assert xs[0] == "0:" + (steps[0].out + ":" + OpName(steps[0].op.value));
    y := JoinedEdges(xs, "0:", Decimal(n - 1) + ":" + steps[n - 1].out, OpName(steps[n - 1].op.value));
    if n == 1 {
      assert steps[0].out == ("0:" + steps[0].out)[2..] == ("0:" + y)[2..];
    }
  }

  /** So every plan shares its trace text with a plan of one step. */
  lemma OneStepTwin(steps: seq<Step>) returns (twin: Step)
    requires HasOps(steps) && steps != []
    ensures HasOps([twin]) && TraceText([twin]) == TraceText(steps)
  {
    var y := TextOfLast(steps);
    twin := Step(y, steps[|steps| - 1].op);
    var z := TextOfLast([twin]);
  }

  /** A name that spans lines lets one step pass for two. */
  lemma TwoStepTwin(u: string, op: Op, v: string, last: Op)
    ensures var one := [Step(SpanningName(u, op, v), Some(last))];
            var two := [Step(u, Some(op)), Step(v, Some(last))];
            HasOps(one) && HasOps(two) && TraceText(one) == TraceText(two)
  {
    hide OpName;
    var one := [Step(SpanningName(u, op, v), Some(last))];
    var two := [Step(u, Some(op)), Step(v, Some(last))];
    assert Decimal(0) == "0" && Decimal(1) == "1";
    assert Tokens(two)[1..] == [Tokens(two)[1]];
    var a, b := u + ":" + OpName(op), v + ":" + OpName(last);
    assert TraceToken(0, u, op) == "0:" + a && TraceToken(1, v, last) == "1:" + b;
    assert JoinText([TraceToken(1, v, last)], "\n") == "1:" + b;
    assert TraceText(two) == TraceToken(0, u, op) + "\n" + JoinText(Tokens(two)[1..], "\n");
    assert TraceText(one) == "0:" + (a + "\n1:" + v) + ":" + OpName(last);
    assert "0:" + (a + "\n1:" + v) + ":" + OpName(last) == "0:" + a + "\n" + ("1:" + b);
  }

  /** The lines after the first read "1:", some name, ":" and the last operation. */
  lemma LastOfTail(steps: seq<Step>) returns (y: string)
    requires HasOps(steps) && |steps| >= 2
    ensures JoinText(Tokens(steps)[1..], "\n") == "1:" + y + ":" + OpName(steps[|steps| - 1].op.value)
  {
    hide OpName, JoinText;
    var xs, n := Tokens(steps)[1..], |steps|;
    assert Decimal(1) == "1";
    assert xs[0] == "1:" + (steps[1].out + ":" + OpName(steps[1].op.value));
    y := JoinedEdges(xs, "1:", Decimal(n - 1) + ":" + steps[n - 1].out, OpName(steps[n - 1].op.value));
  }

  /** A text that a single step and a longer plan share makes the step's name span lines. */
  lemma LongTwinSpans(step: Step, steps': seq<Step>)
    requires step.op.Some? && HasOps(steps') && |steps'| >= 2 && TraceText([step]) == TraceText(steps')
    ensures SpansLines(step.out)
  {
    hide OpName;
    var tail := Tokens(steps')[1..];
    var y := LastOfTail(steps');
    var n := |steps'|;
    var u, op, name := steps'[0].out, steps'[0].op.value, OpName(steps'[n - 1].op.value);
    var out, mine := step.out, OpName(step.op.value);
    assert Decimal(0) == "0";
    var a := u + ":" + OpName(op);
    assert Tokens(steps')[0] == "0:" + a;
    assert TraceText(steps') == "0:" + a + "\n" + ("1:" + y + ":" + name);
    assert TraceText(steps') == ("0:" + (a + "\n1:" + y)) + [':'] + name;
    assert TraceText([step]) == ("0:" + out) + [':'] + mine;
    OpNamesDiffer(step.op.value, steps'[n - 1].op.value);
    OpNamesDiffer(steps'[n - 1].op.value, step.op.value);
    LastBreak(':', "0:" + out, mine, "0:" + (a + "\n1:" + y), name);
    assert out == ("0:" + out)[2..] == ("0:" + (a + "\n1:" + y))[2..] == a + "\n1:" + y;
    assert out == SpanningName(u, op, y);
  }

  /**
    Exactly which plans their trace text determines among all plans: the empty one, and those of one
    step whose output name does not span lines. Every longer plan has a one-step twin.
   */
  lemma TextDeterminesExactly(steps: seq<Step>)
    requires HasOps(steps)
    ensures TextDetermines(steps) <==> steps == [] || (|steps| == 1 && !SpansLines(steps[0].out))
  {
    hide OpName, SpansLines, TraceToken, JoinText;
    if steps == [] {
      forall steps' | HasOps(steps') && TraceText(steps') == TraceText(steps) ensures SameShape(steps, steps') {
        if steps' != [] { NonEmptyText(steps'); }
      }
    } else if |steps| == 1 {
      assert steps == [steps[0]];
      if SpansLines(steps[0].out) {
        SpanningIsForged(steps[0]);
      } else {
        forall steps' | HasOps(steps') && TraceText(steps') == TraceText(steps) ensures SameShape(steps, steps') {
          OneStepTexts(steps[0], steps');
        }
      }
    } else {
      var twin := OneStepTwin(steps);
      assert !SameShape(steps, [twin]);
    }
  }

  lemma NonEmptyText(steps: seq<Step>)
    requires HasOps(steps) && steps != []
    ensures TraceText(steps) != TraceText([])
  {
    var y := TextOfLast(steps);
  }

  lemma SpanningIsForged(step: Step)
    requires step.op.Some? && SpansLines(step.out)
    ensures !TextDetermines([step])
  {
    var u, op, v :| step.out == SpanningName(u, op, v);
    TwoStepTwin(u, op, v, step.op.value);
    hide SpanningName, TraceToken, JoinText;
    var two := [Step(u, Some(op)), Step(v, step.op)];
    assert [step] == [Step(SpanningName(u, op, v), Some(step.op.value))];
    assert HasOps(two) && TraceText(two) == TraceText([step]) && !SameShape([step], two);
  }

  lemma OneStepTexts(step: Step, steps': seq<Step>)
    requires step.op.Some? && !SpansLines(step.out) && HasOps(steps') && TraceText(steps') == TraceText([step])
    ensures SameShape([step], steps')
  {
    hide SpansLines, TraceToken, OpName;
    if steps' == [] {
      NonEmptyText([step]);
    } else if |steps'| >= 2 {
      LongTwinSpans(step, steps');
    } else {
      assert Tokens([step])[0] == TraceToken(0, step.out, step.op.value);
      assert Tokens(steps')[0] == TraceToken(0, steps'[0].out, steps'[0].op.value);
      TokenDetermines(0, step.out, step.op.value, steps'[0].out, steps'[0].op.value);
    }
  }

  /** The text hashed into the trace root of an OK request. */
  lemma TraceRootIs(p: Primitives, m: PublicManifest, plan: RmvmPlan, opts: ExecuteOptions)
    requires ExecutePlan(p, m, plan, opts).Ok?
    ensures HasOps(plan.steps)
    ensures ExecutePlan(p, m, plan, opts).value.proof.traceRoot == p.sha256(TraceText(plan.steps))
  {
    var machine, rendered := OkFinishes(p, m, plan, opts);
    FinishedRun(p, m, plan, opts, machine, rendered);
    TraceSpellsSteps(MakeEnv(m, opts), plan.steps, |plan.steps|);
    assert plan.steps[..|plan.steps|] == plan.steps;
    hide ExecutePlan, ExecOp, TraceToken, JoinText;
  }

  /**
    Equal trace roots of two OK requests whose output names contain no line break: the plans have the
    same outputs and opcodes, or their two trace texts differ and have the same digest.
   */
  lemma TraceRootBinds(p: Primitives, m: PublicManifest, plan: RmvmPlan, opts: ExecuteOptions,
                       m': PublicManifest, plan': RmvmPlan, opts': ExecuteOptions)
    requires ExecutePlan(p, m, plan, opts).Ok? && ExecutePlan(p, m', plan', opts').Ok?
    requires OneLineOuts(plan.steps) && OneLineOuts(plan'.steps)
    requires ExecutePlan(p, m, plan, opts).value.proof.traceRoot == ExecutePlan(p, m', plan', opts').value.proof.traceRoot
    ensures HasOps(plan.steps)
    ensures HasOps(plan'.steps)
    ensures var s, t := TraceText(plan.steps), TraceText(plan'.steps);
            SameShape(plan.steps, plan'.steps) || (s != t && p.sha256(s) == p.sha256(t))
  {
    hide ExecutePlan, TraceToken, JoinText, SameShape;
    TraceRootIs(p, m, plan, opts);
    TraceRootIs(p, m', plan', opts');
    var s, t := TraceText(plan.steps), TraceText(plan'.steps);
    if s == t {
      TraceTextDetermines(plan.steps, plan'.steps);
    }
  }

}
