/**
  Narrative templates: the grammar guard and the renderer. The two regular expressions are replaced
  by a scanner that finds leftmost, non-overlapping matches; both patterns can match in at most one
  way at a given position, so greedy and leftmost agree.
 */
module Narrative {
  import opened Wrappers
  import opened Proto
  import opened Text

  /** Decimal digits outside ASCII: the regex `\d` accepts them, integer parsing does not. */
  type ForeignDigits = char -> bool

  predicate IsDigit(nd: ForeignDigits, c: char) {
    '0' <= c <= '9' || (c as int >= 128 && nd(c))
  }

  predicate IsIdentStart(c: char) {
    'a' <= c <= 'z' || 'A' <= c <= 'Z' || c == '_'
  }

  predicate IsIdent(c: char) {
    IsIdentStart(c) || '0' <= c <= '9'
  }

  /** The repeated character classes of the two patterns. */
  datatype CharClass = Digits | Ident | MacroName

  predicate InClass(nd: ForeignDigits, k: CharClass, c: char) {
    match k
    case Digits => IsDigit(nd, c)
    case Ident => IsIdent(c)
    case MacroName => IsIdent(c) || c == '.' || c == '-'
  }

  /** `[a-z\s\.,!\?]` */
  predicate IsProse(c: char) {
    'a' <= c <= 'z' || IsWhitespace(c) || c == '.' || c == ',' || c == '!' || c == '?'
  }

  /** How many characters of the class the text starts with. */
  function Run(nd: ForeignDigits, k: CharClass, t: string): (n: nat)
    ensures n <= |t|
  {
    if t != [] && InClass(nd, k, t[0]) then 1 + Run(nd, k, t[1..]) else 0
  }

  lemma {:induction false} RunInClass(nd: ForeignDigits, k: CharClass, t: string)
    ensures forall i :: 0 <= i < Run(nd, k, t) ==> InClass(nd, k, t[i])
  {
    if t != [] && InClass(nd, k, t[0]) {
      RunInClass(nd, k, t[1..]);
      forall i | 0 < i < Run(nd, k, t) ensures InClass(nd, k, t[i]) {
        assert t[i] == t[1..][i - 1];
      }
    }
  }

  /** A match at the front of the text: an assertion index, a field, and the number of characters used. */
  datatype Binding = Binding(index: string, field: string, length: nat)

  function MatchBinding(nd: ForeignDigits, t: string): (m: Option<Binding>)
    ensures m.Some? ==> 1 < m.value.length <= |t|
  {
    if |t| < 3 || t[..3] != "{A[" then None
    else
      var digits := Run(nd, Digits, t[3..]);
      var rest := t[3 + digits..];
      if digits == 0 || |rest| < 3 || rest[..2] != "]." || !IsIdentStart(rest[2]) then None
      else
        var ident := Run(nd, Ident, rest[2..]);
        if |rest| <= 2 + ident || rest[2 + ident] != '}' then None
        else Some(Binding(t[3..3 + digits], rest[2..2 + ident], 3 + digits + 3 + ident))
  }

  function BindingText(index: string, field: string): string {
    "{A[" + index + "]." + field + "}"
  }

  datatype Segment = Lit(c: char) | Bound(index: string, field: string)

  /** The first segment of a non-empty text. */
  function HeadSegment(nd: ForeignDigits, t: string): Segment
    requires t != []
  {
    var m := MatchBinding(nd, t);
    if m.Some? then Bound(m.value.index, m.value.field) else Lit(t[0])
  }

  function HeadLength(nd: ForeignDigits, t: string): (n: nat)
    requires t != []
    ensures 0 < n <= |t|
  {
    var m := MatchBinding(nd, t);
    if m.Some? then m.value.length else 1
  }

  /** The template split at its binding matches. */
  function Scan(nd: ForeignDigits, t: string): seq<Segment>
    decreases |t|
  {
    if t == [] then []
    else [HeadSegment(nd, t)] + Scan(nd, t[HeadLength(nd, t)..])
  }

  function SegmentText(g: Segment): string {
    match g
    case Lit(c) => [c]
    case Bound(index, field) => BindingText(index, field)
  }

  function Source(gs: seq<Segment>): string {
    if gs == [] then [] else SegmentText(gs[0]) + Source(gs[1..])
  }

  /** The text left when every binding is replaced by nothing. */
  function Literals(gs: seq<Segment>): string {
    if gs == [] then []
    else (if gs[0].Lit? then [gs[0].c] else []) + Literals(gs[1..])
  }

  /** The length of a `{{macro.name}}` match at the front of the text, or 0. */
  function MacroLength(nd: ForeignDigits, t: string): (n: nat)
    ensures n <= |t|
    ensures n > 0 ==> n >= 2 && t[..2] == "{{"
  {
    if |t| < 9 || t[..8] != "{{macro." || !IsIdentStart(t[8]) then 0
    else
      var name := Run(nd, MacroName, t[8..]);
      if |t| < 8 + name + 2 || t[8 + name..8 + name + 2] != "}}" then 0
      else
        assert t[..8][..2] == t[..2];
        8 + name + 2
  }

  function RemoveMacros(nd: ForeignDigits, t: string): string
    decreases |t|
  {
    if t == [] then []
    else if MacroLength(nd, t) > 0 then RemoveMacros(nd, t[MacroLength(nd, t)..])
    else [t[0]] + RemoveMacros(nd, t[1..])
  }

  /** `valid_narrative_template` */
  predicate ValidTemplate(nd: ForeignDigits, t: string) {
    forall c | c in RemoveMacros(nd, Literals(Scan(nd, t))) :: IsProse(c)
  }

  function ParseDigits(s: string): Option<nat> {
    if s == [] then Some(0)
    else
      var init := ParseDigits(s[..|s| - 1]);
      var c := s[|s| - 1];
      if init.None? || !('0' <= c <= '9') then None
      else Some(10 * init.value + (c as int - '0' as int))
  }

  const USIZE_LIMIT: nat := 0x1_0000_0000_0000_0000

  function ValueToString(showFloat: real -> string, v: Value): string {
    match v
    case Null => "<null>"
    case S(s) => s
    case B(b) => if b then "true" else "false"
    case I64(i) => SignedDecimal(i)
    case F64(f) => showFloat(f)
    case Ts(ts) => SignedDecimal(ts.seconds) + ":" + SignedDecimal(ts.nanos)
    case E(e) => e
  }

  /** The value a binding stands for: the cited field of the cited assertion. */
  function BoundValue(index: string, field: string, assertions: seq<VerifiedAssertion>): Outcome<Value> {
    var n := ParseDigits(index);
    if n.None? || n.value >= USIZE_LIMIT then Reject(SchemaViolation)
    else if n.value < |assertions| && field in assertions[n.value].fields then Ok(assertions[n.value].fields[field])
    else Reject(FieldRedacted)
  }

  function RenderSegment(showFloat: real -> string, g: Segment, assertions: seq<VerifiedAssertion>): Outcome<string> {
    match g
    case Lit(c) => Ok([c])
    case Bound(index, field) =>
      var v :- BoundValue(index, field, assertions);
      Ok(ValueToString(showFloat, v))
  }

  function RenderPrefix(showFloat: real -> string, gs: seq<Segment>, n: nat, assertions: seq<VerifiedAssertion>): Outcome<string>
    requires n <= |gs|
  {
    if n == 0 then Ok("")
    else
      var init :- RenderPrefix(showFloat, gs, n - 1, assertions);
      var part :- RenderSegment(showFloat, gs[n - 1], assertions);
      Ok(init + part)
  }

  /** `render_narrative_template` */
  function RenderTemplate(nd: ForeignDigits, showFloat: real -> string, t: string, assertions: seq<VerifiedAssertion>): Outcome<string> {
    var gs := Scan(nd, t);
    RenderPrefix(showFloat, gs, |gs|, assertions)
  }

  // What the guard guarantees.

  predicate HasDoubleBrace(t: string) {
    exists i :: 0 <= i < |t| - 1 && t[i] == '{' && t[i + 1] == '{'
  }

  lemma HeadText(nd: ForeignDigits, t: string)
    requires t != []
    ensures SegmentText(HeadSegment(nd, t)) == t[..HeadLength(nd, t)]
  {
    var m := MatchBinding(nd, t);
    if m.Some? {
      var digits := Run(nd, Digits, t[3..]);
      var rest := t[3 + digits..];
      var ident := Run(nd, Ident, rest[2..]);
      assert t[..3 + digits] == "{A[" + t[3..3 + digits];
      assert rest[..3 + ident] == "]." + rest[2..2 + ident] + "}";
      assert t[..m.value.length] == t[..3 + digits] + rest[..3 + ident];
    }
  }

  /** Scanning loses nothing: the segments spell the template. */
  lemma {:induction false} ScanSpellsTemplate(nd: ForeignDigits, t: string)
    ensures Source(Scan(nd, t)) == t
    decreases |t|
  {
    hide HeadSegment, HeadLength, SegmentText;
    if t != [] {
      var n := HeadLength(nd, t);
      ScanSpellsTemplate(nd, t[n..]);
      HeadText(nd, t);
      assert t == t[..n] + t[n..];
    }
  }

  lemma MacroHasDoubleBrace(nd: ForeignDigits, t: string)
    requires MacroLength(nd, t) > 0
    ensures HasDoubleBrace(t)
  {
    assert t[..2][0] == t[0] && t[..2][1] == t[0 + 1];
  }

  lemma TailDoubleBrace(t: string)
    requires t != [] && HasDoubleBrace(t[1..])
    ensures HasDoubleBrace(t)
  {
    assert t == [t[0]] + t[1..];
    AppendDoubleBrace([t[0]], t[1..]);
  }

  lemma {:induction false} RemoveMacrosIdle(nd: ForeignDigits, t: string)
    requires !HasDoubleBrace(t)
    ensures RemoveMacros(nd, t) == t
  {
    if t != [] {
      if MacroLength(nd, t) > 0 { MacroHasDoubleBrace(nd, t); }
      if HasDoubleBrace(t[1..]) { TailDoubleBrace(t); }
      RemoveMacrosIdle(nd, t[1..]);
    }
  }

  predicate StartsWithBrace(t: string) {
    t != [] && t[0] == '{'
  }

  lemma ConsDoubleBrace(c: char, t: string)
    ensures HasDoubleBrace([c] + t) <==> HasDoubleBrace(t) || (c == '{' && StartsWithBrace(t))
  {
    var u := [c] + t;
    if HasDoubleBrace(t) {
      var i :| 0 <= i < |t| - 1 && t[i] == '{' && t[i + 1] == '{';
      assert u[i + 1] == '{' && u[i + 1 + 1] == '{';
    }
    if c == '{' && StartsWithBrace(t) {
      assert u[0] == '{' && u[0 + 1] == '{';
    }
    if HasDoubleBrace(u) {
      var i :| 0 <= i < |u| - 1 && u[i] == '{' && u[i + 1] == '{';
      if i > 0 {
        assert t[i - 1] == '{' && t[i - 1 + 1] == '{';
      }
    }
  }

  lemma {:induction false} AppendDoubleBrace(s: string, t: string)
    requires HasDoubleBrace(t)
    ensures HasDoubleBrace(s + t)
  {
    var i :| 0 <= i < |t| - 1 && t[i] == '{' && t[i + 1] == '{';
    assert (s + t)[|s| + i] == '{' && (s + t)[|s| + i + 1] == '{';
  }

  /** Removing bindings cannot bring two braces together that were not already adjacent in the template. */
  lemma {:induction false} LiteralsKeepBraces(gs: seq<Segment>)
    requires HasDoubleBrace(Literals(gs))
    ensures HasDoubleBrace(Source(gs))
  {
    if gs != [] {
      var g := gs[0];
      match g {
        case Lit(c) =>
          ConsDoubleBrace(c, Literals(gs[1..]));
          ConsDoubleBrace(c, Source(gs[1..]));
          if HasDoubleBrace(Literals(gs[1..])) {
            LiteralsKeepBraces(gs[1..]);
          } else {
            FirstLiteral(gs[1..]);
          }
        case Bound(index, field) =>
          assert Literals(gs) == Literals(gs[1..]);
          LiteralsKeepBraces(gs[1..]);
          AppendDoubleBrace(BindingText(index, field), Source(gs[1..]));
      }
    }
  }

  lemma {:induction false} FirstLiteral(gs: seq<Segment>)
    requires StartsWithBrace(Literals(gs))
    ensures StartsWithBrace(Source(gs))
  {
  }

  /** A literal of the scan is a character of `Literals`, and conversely. */
  lemma {:induction false} LiteralMembers(gs: seq<Segment>, c: char)
    ensures c in Literals(gs) <==> Lit(c) in gs
  {
    if gs != [] {
      LiteralMembers(gs[1..], c);
    }
  }

  /** Every literal character outside the bindings is prose. */
  ghost predicate ProseOnly(nd: ForeignDigits, t: string) {
    forall c :: Lit(c) in Scan(nd, t) ==> IsProse(c)
  }

  /** The guard on a template without "{{": it accepts exactly prose with bindings. */
  lemma GuardAcceptsExactly(nd: ForeignDigits, t: string)
    requires !HasDoubleBrace(t)
    ensures ValidTemplate(nd, t) <==> ProseOnly(nd, t)
  {
    var gs := Scan(nd, t);
    ScanSpellsTemplate(nd, t);
    if HasDoubleBrace(Literals(gs)) {
      LiteralsKeepBraces(gs);
    }
    RemoveMacrosIdle(nd, Literals(gs));
    forall c ensures c in Literals(gs) <==> Lit(c) in gs {
      LiteralMembers(gs, c);
    }
  }

  /** An accepted template is prose with bindings exactly when it has no "{{". */
  lemma GuardAdmitsOnlyProse(nd: ForeignDigits, t: string)
    requires ValidTemplate(nd, t)
    ensures ProseOnly(nd, t) <==> !HasDoubleBrace(t)
  {
    if HasDoubleBrace(t) {
      DoubleBraceIsLiteral(nd, t);
    } else {
      GuardAcceptsExactly(nd, t);
    }
  }

  /** A text without braces is accepted exactly when all of it is prose. */
  lemma PlainTextExactly(nd: ForeignDigits, t: string)
    requires '{' !in t
    ensures ValidTemplate(nd, t) <==> forall c :: c in t ==> IsProse(c)
  {
    hide ValidTemplate, Scan, IsProse;
    assert !HasDoubleBrace(t);
    NoBindingScan(nd, t);
    LettersScan(t);
    GuardAcceptsExactly(nd, t);
    forall c ensures c in t <==> Lit(c) in Scan(nd, t) {
      LiteralMembers(Scan(nd, t), c);
    }
  }

  /** A capital is refused although the documented class has it; empty prose is accepted although it asks for a character. */
  lemma UpperCaseRefused(nd: ForeignDigits)
    ensures !ValidTemplate(nd, "Tea.") && ValidTemplate(nd, "tea.") && ValidTemplate(nd, "")
  {
    hide ValidTemplate;
    assert 'T' in "Tea." && !IsProse('T') by { assert "Tea."[0] == 'T'; }
    PlainTextExactly(nd, "Tea.");
    PlainTextExactly(nd, "tea.");
    PlainTextExactly(nd, "");
  }

  lemma {:induction false} DoubleBraceIsLiteral(nd: ForeignDigits, t: string)
    requires HasDoubleBrace(t)
    ensures Lit('{') in Scan(nd, t)
    decreases |t|
  {
    var m := MatchBinding(nd, t);
    if m.Some? {
      BindingHasNoDoubleBrace(nd, t);
      DoubleBraceIsLiteral(nd, t[m.value.length..]);
    } else if t[0] != '{' {
      ConsDoubleBrace(t[0], t[1..]);
      assert t == [t[0]] + t[1..];
      DoubleBraceIsLiteral(nd, t[1..]);
    }
  }

  lemma BindingHasNoDoubleBrace(nd: ForeignDigits, t: string)
    requires HasDoubleBrace(t) && MatchBinding(nd, t).Some?
    ensures HasDoubleBrace(t[MatchBinding(nd, t).value.length..])
  {
    var m := MatchBinding(nd, t).value;
    BindingHasOneBrace(nd, t);
    var i :| 0 <= i < |t| - 1 && t[i] == '{' && t[i + 1] == '{';
    var tail := t[m.length..];
    assert tail[i - m.length] == '{' && tail[i - m.length + 1] == '{';
  }

  lemma BindingHasOneBrace(nd: ForeignDigits, t: string)
    requires MatchBinding(nd, t).Some?
    ensures forall i :: 1 <= i < MatchBinding(nd, t).value.length ==> t[i] != '{'
  {
    var m := MatchBinding(nd, t).value;
    var digits := Run(nd, Digits, t[3..]);
    var rest := t[3 + digits..];
    RunInClass(nd, Digits, t[3..]);
    RunInClass(nd, Ident, rest[2..]);
    assert t[..3][1] == t[1] && t[..3][2] == t[2];
    assert rest[..2][0] == rest[0] && rest[..2][1] == rest[1];
    forall i | 1 <= i < m.length ensures t[i] != '{' {
      var inRest := i - 3 - digits;
      if 3 <= i < 3 + digits {
        assert t[i] == t[3..][i - 3];
      } else if 0 <= inRest {
        assert t[i] == rest[inRest];
        if 2 <= inRest < m.length - 4 - digits {
          assert rest[2..][inRest - 2] == t[i];
        }
      }
    }
  }

  /** A rendered template is its literals, in order, with the cited field value for each binding and nothing else. */
  lemma {:induction false} RenderingIsSubstitution(showFloat: real -> string, gs: seq<Segment>, n: nat, assertions: seq<VerifiedAssertion>)
    requires n <= |gs| && RenderPrefix(showFloat, gs, n, assertions).Ok?
    ensures RenderPrefix(showFloat, gs, n, assertions).value == Substituted(showFloat, gs[..n], assertions)
    ensures forall i :: 0 <= i < n && gs[i].Bound? ==> BoundValue(gs[i].index, gs[i].field, assertions).Ok?
  {
    hide BoundValue, ValueToString;
    if n > 0 {
      RenderingIsSubstitution(showFloat, gs, n - 1, assertions);
      assert gs[..n] == gs[..n - 1] + [gs[n - 1]];
      SubstitutedAppend(showFloat, gs[..n - 1], [gs[n - 1]], assertions);
    } else {
      assert gs[..0] == [];
    }
  }

  /** The reference rendering: values for bindings, characters for literals. */
  function Substituted(showFloat: real -> string, gs: seq<Segment>, assertions: seq<VerifiedAssertion>): string {
    if gs == [] then []
    else (match gs[0]
          case Lit(c) => [c]
          case Bound(index, field) =>
            var v := BoundValue(index, field, assertions);
            if v.Ok? then ValueToString(showFloat, v.value) else [])
         + Substituted(showFloat, gs[1..], assertions)
  }

  lemma {:induction false} SubstitutedAppend(showFloat: real -> string, xs: seq<Segment>, ys: seq<Segment>, assertions: seq<VerifiedAssertion>)
    ensures Substituted(showFloat, xs + ys, assertions) == Substituted(showFloat, xs, assertions) + Substituted(showFloat, ys, assertions)
  {
    if xs == [] {
      assert xs + ys == ys;
    } else {
      assert (xs + ys)[1..] == xs[1..] + ys;
      SubstitutedAppend(showFloat, xs[1..], ys, assertions);
    }
  }

  /** The narrative theorem: what an accepted, macro-free template renders to. */
  lemma NarrativeTheorem(nd: ForeignDigits, showFloat: real -> string, t: string, assertions: seq<VerifiedAssertion>)
    requires ValidTemplate(nd, t) && !HasDoubleBrace(t)
    requires RenderTemplate(nd, showFloat, t, assertions).Ok?
    ensures var gs := Scan(nd, t);
            && Source(gs) == t
            && (forall c :: Lit(c) in gs ==> IsProse(c))
            && (forall i :: 0 <= i < |gs| && gs[i].Bound? ==> BoundValue(gs[i].index, gs[i].field, assertions).Ok?)
            && RenderTemplate(nd, showFloat, t, assertions).value == Substituted(showFloat, gs, assertions)
  {
    var gs := Scan(nd, t);
    ScanSpellsTemplate(nd, t);
    GuardAcceptsExactly(nd, t);
    RenderingIsSubstitution(showFloat, gs, |gs|, assertions);
    assert gs[..|gs|] == gs;
  }

  /** A lone macro passes the guard and is rendered verbatim, braces included. */
  lemma MacroIsVerbatim(nd: ForeignDigits, showFloat: real -> string, t: string)
    requires MacroLength(nd, t) == |t| > 0
    requires forall i :: 0 <= i < |t| - 1 ==> !(t[i] == '{' && t[i + 1] == 'A')
    ensures ValidTemplate(nd, t) && RenderTemplate(nd, showFloat, t, []) == Ok(t)
  {
    hide Scan, Literals, RenderPrefix, MacroLength;
    NoBindingScan(nd, t);
    LettersScan(t);
    MacroIsRemoved(nd, t);
    RenderLetters(showFloat, t, |t|);
    assert t[..|t|] == t;
  }

  lemma MacroIsRemoved(nd: ForeignDigits, t: string)
    requires MacroLength(nd, t) == |t| > 0
    ensures RemoveMacros(nd, t) == []
  {
    hide MacroLength;
    assert t[|t|..] == [];
  }

  /** Why "{{" must be excluded from the narrative theorem. */
  lemma MacroPassesVerbatim(nd: ForeignDigits, showFloat: real -> string)
    ensures ValidTemplate(nd, "{{macro.x}}") && HasDoubleBrace("{{macro.x}}")
    ensures RenderTemplate(nd, showFloat, "{{macro.x}}", []) == Ok("{{macro.x}}")
  {
    var t := "{{macro.x}}";
    assert t[8..] == "x}}";
    assert Run(nd, MacroName, t[8..]) == 1 by {
      assert "x}}"[1..] == "}}";
      assert Run(nd, MacroName, "}}") == 0;
    }
    assert t[9..11] == "}}";
    assert t[..8] == "{{macro.";
    assert MacroLength(nd, t) == 11;
    MacroHasDoubleBrace(nd, t);
    MacroIsVerbatim(nd, showFloat, t);
  }

  function Letters(t: string): seq<Segment> {
    seq(|t|, i requires 0 <= i < |t| => Lit(t[i]))
  }

  lemma BindingStart(t: string)
    requires |t| >= 3 && t[..3] == "{A["
    ensures t[0] == '{' && t[0 + 1] == 'A'
  {
    assert t[0] == t[..3][0] && t[1] == t[..3][1];
  }

  lemma {:induction false} NoBindingScan(nd: ForeignDigits, t: string)
    requires forall i :: 0 <= i < |t| - 1 ==> !(t[i] == '{' && t[i + 1] == 'A')
    ensures Scan(nd, t) == Letters(t)
  {
    if t != [] {
      if |t| >= 3 && t[..3] == "{A[" { BindingStart(t); }
      NoBindingScan(nd, t[1..]);
      assert Letters(t) == [Lit(t[0])] + Letters(t[1..]);
    }
  }

  lemma {:induction false} LettersScan(t: string)
    ensures Literals(Letters(t)) == t
  {
    if t != [] {
      LettersScan(t[1..]);
      assert Letters(t) == [Lit(t[0])] + Letters(t[1..]);
    }
  }

  lemma {:induction false} RenderLetters(showFloat: real -> string, t: string, n: nat)
    requires n <= |t|
    ensures RenderPrefix(showFloat, Letters(t), n, []) == Ok(t[..n])
  {
    if n > 0 {
      RenderLetters(showFloat, t, n - 1);
      assert t[..n] == t[..n - 1] + [t[n - 1]];
    }
  }

  // The loop of the renderer.

  /** `render_narrative_template` as the kernel runs it: walk the matches, copying the text in between. */
  method RenderNarrativeTemplate(nd: ForeignDigits, showFloat: real -> string, template: string, assertions: seq<VerifiedAssertion>)
    returns (r: Outcome<string>)
    ensures r == RenderTemplate(nd, showFloat, template, assertions)
  {
    var rendered := "";
    var rest := template;
    ghost var gs := Scan(nd, template);
    ghost var done: seq<Segment> := [];
    assert gs == done + Scan(nd, rest);
    while rest != []
      invariant gs == done + Scan(nd, rest)
      invariant RenderPrefix(showFloat, gs, |done|, assertions) == Ok(rendered)
      decreases |rest|
    {
      var head := HeadSegment(nd, rest);
      var part := RenderSegment(showFloat, head, assertions);
      rest := rest[HeadLength(nd, rest)..];
      RenderExtends(showFloat, gs, done, head, Scan(nd, rest), assertions);
      if part.Stop? {
        RenderStops(showFloat, gs, |done| + 1, |gs|, assertions);
        return part;
      }
      rendered := rendered + part.value;
      done := done + [head];
    }
    assert gs == done;
    r := Ok(rendered);
  }

  lemma RenderExtends(showFloat: real -> string, gs: seq<Segment>, done: seq<Segment>, head: Segment, rest: seq<Segment>,
                      assertions: seq<VerifiedAssertion>)
    requires gs == done + ([head] + rest) && RenderPrefix(showFloat, gs, |done|, assertions).Ok?
    ensures gs == (done + [head]) + rest
    ensures var part := RenderSegment(showFloat, head, assertions);
            RenderPrefix(showFloat, gs, |done| + 1, assertions)
            == if part.Ok? then Ok(RenderPrefix(showFloat, gs, |done|, assertions).value + part.value) else part
  {
    assert gs[|done|] == head;
  }

  lemma {:induction false} RenderStops(showFloat: real -> string, gs: seq<Segment>, n: nat, m: nat, assertions: seq<VerifiedAssertion>)
    requires n <= m <= |gs| && RenderPrefix(showFloat, gs, n, assertions).Stop?
    ensures RenderPrefix(showFloat, gs, m, assertions) == Stop(RenderPrefix(showFloat, gs, n, assertions).reason)
  {
    if n < m {
      RenderStops(showFloat, gs, n, m - 1, assertions);
    }
  }
}
