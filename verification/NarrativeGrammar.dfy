/**
  The documented narrative grammar against the guard: prose, assertion bindings and macros. The guard
  deletes bindings, then macros, and looks at what is left, so it is stricter than the grammar on
  capitals and laxer where deleting a binding completes a macro.
 */
module NarrativeGrammar {
  import opened Wrappers
  import opened Narrative

  predicate IsUpper(c: char) {
    'A' <= c <= 'Z'
  }

  /** The documented prose class, `[a-zA-Z\s.,!?]`. */
  predicate IsDocumentedProse(c: char) {
    IsProse(c) || IsUpper(c)
  }

  datatype Token = Char(c: char) | Bind(index: string, field: string) | Macro(name: string)

  predicate AllIn(nd: ForeignDigits, k: CharClass, s: string) {
    forall i :: 0 <= i < |s| ==> InClass(nd, k, s[i])
  }

  predicate IsName(nd: ForeignDigits, k: CharClass, s: string) {
    s != [] && IsIdentStart(s[0]) && AllIn(nd, k, s)
  }

  /** A binding with an index and a field name, a macro with a name, or any character. */
  predicate Spelled(nd: ForeignDigits, t: Token) {
    match t
    case Char(_) => true
    case Bind(index, field) => index != [] && AllIn(nd, Digits, index) && IsName(nd, Ident, field)
    case Macro(name) => IsName(nd, MacroName, name)
  }

  /** A token of the documented grammar. */
  predicate WellFormed(nd: ForeignDigits, t: Token) {
    Spelled(nd, t) && (t.Char? ==> IsDocumentedProse(t.c))
  }

  function MacroText(name: string): string {
    "{{macro." + name + "}}"
  }

  function TokenText(t: Token): string {
    match t
    case Char(c) => [c]
    case Bind(index, field) => BindingText(index, field)
    case Macro(name) => MacroText(name)
  }

  function Spell(ts: seq<Token>): string {
    if ts == [] then [] else TokenText(ts[0]) + Spell(ts[1..])
  }

  ghost predicate AllWellFormed(nd: ForeignDigits, ts: seq<Token>) {
    forall t :: t in ts ==> WellFormed(nd, t)
  }

  /** The template is in the documented grammar. */
  ghost predicate InGrammar(nd: ForeignDigits, t: string) {
    exists ts :: AllWellFormed(nd, ts) && Spell(ts) == t
  }

  // How the patterns match spelled tokens.

  lemma {:induction false} RunExactly(nd: ForeignDigits, k: CharClass, s: string, stop: char, rest: string)
    requires AllIn(nd, k, s) && !InClass(nd, k, stop)
    ensures Run(nd, k, s + [stop] + rest) == |s|
  {
    var t := s + [stop] + rest;
    if s == [] {
      assert t[0] == stop;
    } else {
      assert t[0] == s[0] && t[1..] == s[1..] + [stop] + rest;
      assert forall i :: 0 <= i < |s| - 1 ==> s[1..][i] == s[i + 1];
      RunExactly(nd, k, s[1..], stop, rest);
    }
  }

  lemma BindingMatches(nd: ForeignDigits, index: string, field: string, rest: string)
    requires Spelled(nd, Bind(index, field))
    ensures MatchBinding(nd, BindingText(index, field) + rest) == Some(Binding(index, field, |BindingText(index, field)|))
  {
    hide Run, InClass;
    var t := BindingText(index, field) + rest;
    var tail := field + ['}'] + rest;
    assert t[..3] == "{A[";
    assert t[3..] == index + [']'] + ("." + tail);
    assert !InClass(nd, Digits, ']') && !InClass(nd, Ident, '}') by { StopsAreOutside(nd); }
    RunExactly(nd, Digits, index, ']', "." + tail);
    var after := t[3 + |index|..];
    assert after == "]." + tail;
    assert after[..2] == "]." && after[2] == field[0] && after[2..] == tail;
    RunExactly(nd, Ident, field, '}', rest);
    assert after[2 + |field|] == '}';
    assert t[3..3 + |index|] == index && after[2..2 + |field|] == field;
  }

  lemma StopsAreOutside(nd: ForeignDigits)
    ensures !InClass(nd, Digits, ']') && !InClass(nd, Ident, '}') && !InClass(nd, MacroName, '}')
  {
  }

  lemma MacroMatches(nd: ForeignDigits, name: string, rest: string)
    requires Spelled(nd, Macro(name))
    ensures MacroLength(nd, MacroText(name) + rest) == |MacroText(name)|
  {
    hide Run, InClass;
    var t := MacroText(name) + rest;
    assert t[..8] == "{{macro.";
    assert t[8..] == name + ['}'] + ("}" + rest);
    assert !InClass(nd, MacroName, '}') by { StopsAreOutside(nd); }
    RunExactly(nd, MacroName, name, '}', "}" + rest);
    assert t[8] == name[0];
    assert t[8 + |name|..8 + |name| + 2] == "}}";
  }

  lemma NotABrace(nd: ForeignDigits, t: string)
    requires t != [] && t[0] != '{'
    ensures MatchBinding(nd, t).None? && MacroLength(nd, t) == 0
  {
    if |t| >= 3 { assert t[0] == t[..3][0]; }
    if |t| >= 8 { assert t[0] == t[..8][0]; }
  }

  /** No binding starts inside `s`. */
  predicate NoBindingIn(s: string) {
    forall i :: 0 <= i < |s| && s[i] == '{' ==> i + 1 < |s| && s[i + 1] != 'A'
  }

  lemma {:induction false} ScanPlain(nd: ForeignDigits, s: string, rest: string)
    requires NoBindingIn(s)
    ensures Scan(nd, s + rest) == Letters(s) + Scan(nd, rest)
  {
    hide MatchBinding, NoBindingIn, HeadSegment, HeadLength;
    if s == [] {
      assert s + rest == rest;
    } else {
      var t := s + rest;
      assert t[0] == s[0] && t[1..] == s[1..] + rest;
      PlainHead(nd, s, rest);
      ScanStep(nd, t);
      ScanPlain(nd, s[1..], rest);
      assert Letters(s) == [Lit(s[0])] + Letters(s[1..]);
    }
  }

  lemma PlainHead(nd: ForeignDigits, s: string, rest: string)
    requires s != [] && NoBindingIn(s)
    ensures MatchBinding(nd, s + rest).None? && NoBindingIn(s[1..])
  {
    var t := s + rest;
    assert t[0] == s[0];
    if s[0] == '{' {
      assert t[1] == s[1] != 'A';
      if |t| >= 3 { assert t[..3][1] == t[1]; }
    } else {
      NotABrace(nd, t);
    }
    assert forall i :: 0 <= i < |s| - 1 ==> s[1..][i] == s[i + 1];
  }

  lemma ScanStep(nd: ForeignDigits, t: string)
    requires t != [] && MatchBinding(nd, t).None?
    ensures Scan(nd, t) == [Lit(t[0])] + Scan(nd, t[1..])
  {
    hide MatchBinding;
  }

  lemma MacroHasNoBinding(nd: ForeignDigits, name: string)
    requires Spelled(nd, Macro(name))
    ensures NoBindingIn(MacroText(name))
  {
    var t := MacroText(name);
    assert t[0] == '{' && t[1] == '{' && t[2] == 'm';
    assert t[..8] == "{{macro.";
    forall i | 2 <= i < |t| ensures t[i] != '{' {
      if i < 8 {
        assert t[i] == "{{macro."[i];
      } else if i < 8 + |name| {
        assert t[i] == name[i - 8] && InClass(nd, MacroName, name[i - 8]);
      }
    }
  }

  lemma {:induction false} LiteralsAppend(xs: seq<Segment>, ys: seq<Segment>)
    ensures Literals(xs + ys) == Literals(xs) + Literals(ys)
  {
    if xs == [] {
      assert xs + ys == ys;
    } else {
      var head, a, b := if xs[0].Lit? then [xs[0].c] else [], Literals(xs[1..]), Literals(ys);
      assert (xs + ys)[0] == xs[0] && (xs + ys)[1..] == xs[1..] + ys;
      LiteralsAppend(xs[1..], ys);
      assert Literals(xs + ys) == head + (a + b) && Literals(xs) == head + a;
      assert head + (a + b) == (head + a) + b;
    }
  }

  /** What a spelled list of tokens leaves once its bindings are deleted. */
  function WithoutBindings(ts: seq<Token>): seq<Token> {
    if ts == [] then []
    else (if ts[0].Bind? then [] else [ts[0]]) + WithoutBindings(ts[1..])
  }

  /** Tokens that the scanners find again: no character token is a brace. */
  ghost predicate Plain(nd: ForeignDigits, ts: seq<Token>) {
    forall t :: t in ts ==> Spelled(nd, t) && (t.Char? ==> t.c != '{')
  }

  lemma PlainTail(nd: ForeignDigits, ts: seq<Token>)
    requires Plain(nd, ts) && ts != []
    ensures Plain(nd, ts[1..]) && Spelled(nd, ts[0]) && (ts[0].Char? ==> ts[0].c != '{')
  {
    assert ts[0] in ts;
    assert forall t :: t in ts[1..] ==> t in ts;
  }

  lemma {:induction false} LiteralsOfSpelled(nd: ForeignDigits, ts: seq<Token>)
    requires Plain(nd, ts)
    ensures Literals(Scan(nd, Spell(ts))) == Spell(WithoutBindings(ts))
  {
    hide Spelled, MatchBinding, BindingText, MacroText;
    if ts != [] {
      PlainTail(nd, ts);
      LiteralsOfSpelled(nd, ts[1..]);
      var rest := Spell(ts[1..]);
      assert Spell(ts) == TokenText(ts[0]) + rest;
      SpellCons(ts[0], WithoutBindings(ts[1..]));
      match ts[0] {
        case Char(c) => ScanChar(nd, c, rest);
        case Bind(index, field) =>
          ScanBinding(nd, index, field, rest);
          assert WithoutBindings(ts) == WithoutBindings(ts[1..]);
        case Macro(name) => ScanMacro(nd, name, rest);
      }
    }
  }

  lemma SpellCons(t: Token, ts: seq<Token>)
    ensures Spell([t] + ts) == TokenText(t) + Spell(ts)
  {
    assert ([t] + ts)[1..] == ts;
  }

  lemma ScanChar(nd: ForeignDigits, c: char, rest: string)
    requires c != '{'
    ensures Literals(Scan(nd, [c] + rest)) == [c] + Literals(Scan(nd, rest))
  {
    ScanPlain(nd, [c], rest);
    LiteralsAppend(Letters([c]), Scan(nd, rest));
    LettersScan([c]);
  }

  lemma ScanBinding(nd: ForeignDigits, index: string, field: string, rest: string)
    requires Spelled(nd, Bind(index, field))
    ensures Literals(Scan(nd, BindingText(index, field) + rest)) == Literals(Scan(nd, rest))
  {
    hide Spelled, MatchBinding;
    var t := BindingText(index, field) + rest;
    BindingMatches(nd, index, field, rest);
    assert t[|BindingText(index, field)|..] == rest;
    assert Scan(nd, t) == [Bound(index, field)] + Scan(nd, rest);
    LiteralsAppend([Bound(index, field)], Scan(nd, rest));
    assert Literals([Bound(index, field)]) == [];
  }

  lemma ScanMacro(nd: ForeignDigits, name: string, rest: string)
    requires Spelled(nd, Macro(name))
    ensures Literals(Scan(nd, MacroText(name) + rest)) == MacroText(name) + Literals(Scan(nd, rest))
  {
    hide Spelled, MatchBinding;
    MacroHasNoBinding(nd, name);
    ScanPlain(nd, MacroText(name), rest);
    LiteralsAppend(Letters(MacroText(name)), Scan(nd, rest));
    LettersScan(MacroText(name));
  }

  /** The characters of a list of tokens. */
  function CharsOf(ts: seq<Token>): string {
    if ts == [] then [] else (if ts[0].Char? then [ts[0].c] else []) + CharsOf(ts[1..])
  }

  lemma {:induction false} CharMembers(ts: seq<Token>, c: char)
    ensures c in CharsOf(ts) <==> Char(c) in ts
  {
    if ts != [] {
      CharMembers(ts[1..], c);
    }
  }

  lemma {:induction false} CharsWithoutBindings(ts: seq<Token>)
    ensures CharsOf(WithoutBindings(ts)) == CharsOf(ts)
    ensures forall t :: t in WithoutBindings(ts) <==> t in ts && !t.Bind?
  {
    if ts != [] {
      CharsWithoutBindings(ts[1..]);
      assert ts == [ts[0]] + ts[1..];
      if ts[0].Bind? {
        assert WithoutBindings(ts) == WithoutBindings(ts[1..]);
      } else {
        assert ([ts[0]] + WithoutBindings(ts[1..]))[1..] == WithoutBindings(ts[1..]);
      }
    }
  }

  lemma {:induction false} MacrosOfSpelled(nd: ForeignDigits, ts: seq<Token>)
    requires Plain(nd, ts) && forall t :: t in ts ==> !t.Bind?
    ensures RemoveMacros(nd, Spell(ts)) == CharsOf(ts)
  {
    hide Spelled, MacroLength, MacroText;
    if ts != [] {
      PlainTail(nd, ts);
      assert ts[0] in ts && forall t :: t in ts[1..] ==> t in ts;
      MacrosOfSpelled(nd, ts[1..]);
      var rest := Spell(ts[1..]);
      match ts[0] {
        case Char(c) =>
          NotABrace(nd, [c] + rest);
          assert ([c] + rest)[1..] == rest;
        case Macro(name) =>
          MacroMatches(nd, name, rest);
          MacroNotEmpty(name);
          assert (MacroText(name) + rest)[|MacroText(name)|..] == rest;
      }
    }
  }

  lemma MacroNotEmpty(name: string)
    ensures |MacroText(name)| > 0
  {
  }

  /** The guard on spelled tokens looks at their characters only. */
  lemma GuardOnSpelled(nd: ForeignDigits, ts: seq<Token>)
    requires Plain(nd, ts)
    ensures ValidTemplate(nd, Spell(ts)) <==> forall c :: Char(c) in ts ==> IsProse(c)
  {
    LiteralsOfSpelled(nd, ts);
    CharsWithoutBindings(ts);
    MacrosOfSpelled(nd, WithoutBindings(ts));
    hide IsProse, Scan, Literals, RemoveMacros, Spell;
    forall c ensures c in CharsOf(ts) <==> Char(c) in ts {
      CharMembers(ts, c);
    }
  }

  /**
    On the documented grammar, bindings and macros included, the guard refuses exactly the templates
    with a capital outside bindings and macros.
   */
  lemma GuardRefusesCapitalsExactly(nd: ForeignDigits, ts: seq<Token>)
    requires AllWellFormed(nd, ts)
    ensures ValidTemplate(nd, Spell(ts)) <==> forall c :: Char(c) in ts ==> !IsUpper(c)
  {
    assert Plain(nd, ts);
    GuardOnSpelled(nd, ts);
    assert forall c :: Char(c) in ts ==> WellFormed(nd, Char(c));
  }

  // Which templates the guard accepts, and which of them are in the grammar.

  /** The text split into macros and single characters, as the guard's second pass sees it. */
  function MacroTokens(nd: ForeignDigits, t: string): seq<Token>
    decreases |t|
  {
    if t == [] then []
    else
      var n := MacroLength(nd, t);
      if n > 0 then [Macro(t[8..n - 2])] + MacroTokens(nd, t[n..])
      else [Char(t[0])] + MacroTokens(nd, t[1..])
  }

  lemma MacroSpelled(nd: ForeignDigits, t: string)
    requires MacroLength(nd, t) > 0
    ensures var n := MacroLength(nd, t);
            10 < n <= |t| && Spelled(nd, Macro(t[8..n - 2])) && MacroText(t[8..n - 2]) == t[..n]
  {
    var name := Run(nd, MacroName, t[8..]);
    RunInClass(nd, MacroName, t[8..]);
    assert t[8] == t[8..][0] && InClass(nd, MacroName, t[8]);
    assert name > 0;
    assert t[8..8 + name] == t[8..][..name];
    assert t[..8 + name + 2] == t[..8] + t[8..8 + name] + t[8 + name..8 + name + 2];
  }

  lemma {:induction false} MacroTokensSpell(nd: ForeignDigits, t: string)
    ensures Spell(MacroTokens(nd, t)) == t && CharsOf(MacroTokens(nd, t)) == RemoveMacros(nd, t)
    ensures forall k :: k in MacroTokens(nd, t) ==> Spelled(nd, k) && !k.Bind?
    decreases |t|
  {
    hide MacroLength, Spelled, MacroText;
    if t != [] {
      var n := MacroLength(nd, t);
      if n > 0 {
        MacroSpelled(nd, t);
        MacroTokensSpell(nd, t[n..]);
        TokensCons(Macro(t[8..n - 2]), MacroTokens(nd, t[n..]));
        assert t == t[..n] + t[n..];
      } else {
        MacroTokensSpell(nd, t[1..]);
        TokensCons(Char(t[0]), MacroTokens(nd, t[1..]));
        assert t == [t[0]] + t[1..];
        assert Spelled(nd, Char(t[0])) by { CharSpelled(nd, t[0]); }
      }
    }
  }

  lemma CharSpelled(nd: ForeignDigits, c: char)
    ensures Spelled(nd, Char(c))
  {
  }

  lemma TokensCons(k: Token, ts: seq<Token>)
    ensures Spell([k] + ts) == TokenText(k) + Spell(ts)
    ensures CharsOf([k] + ts) == (if k.Char? then [k.c] else []) + CharsOf(ts)
  {
    assert ([k] + ts)[1..] == ts;
  }

  /** `t` is a sequence of prose characters and whole macros. */
  ghost predicate ProseAndMacros(nd: ForeignDigits, t: string) {
    exists ts :: Spell(ts) == t && forall k :: k in ts ==> Spelled(nd, k) && !k.Bind? && (k.Char? ==> IsProse(k.c))
  }

  /** Which templates the guard accepts: those that without their bindings are prose and whole macros. */
  lemma GuardAcceptsAll(nd: ForeignDigits, t: string)
    ensures ValidTemplate(nd, t) <==> ProseAndMacros(nd, Literals(Scan(nd, t)))
  {
    var l := Literals(Scan(nd, t));
    var ts := MacroTokens(nd, l);
    MacroTokensSpell(nd, l);
    hide Spelled, Scan, Literals, RemoveMacros, Spell, MacroTokens;
    forall c ensures c in RemoveMacros(nd, l) <==> Char(c) in ts {
      CharMembers(ts, c);
    }
    if ValidTemplate(nd, t) {
      assert forall k :: k in ts ==> Spelled(nd, k) && !k.Bind? && (k.Char? ==> IsProse(k.c));
    }
    if ProseAndMacros(nd, l) {
      var us :| Spell(us) == l && forall k :: k in us ==> Spelled(nd, k) && !k.Bind? && (k.Char? ==> IsProse(k.c));
      MacrosOfSpelled(nd, us);
      forall c | c in RemoveMacros(nd, l) ensures IsProse(c) {
        CharMembers(us, c);
      }
    }
  }

  /** The template split into bindings, macros and single characters, leftmost first. */
  function Parse(nd: ForeignDigits, t: string): seq<Token>
    decreases |t|
  {
    if t == [] then []
    else
      var b := MatchBinding(nd, t);
      var n := MacroLength(nd, t);
      if b.Some? then [Bind(b.value.index, b.value.field)] + Parse(nd, t[b.value.length..])
      else if n > 0 then [Macro(t[8..n - 2])] + Parse(nd, t[n..])
      else [Char(t[0])] + Parse(nd, t[1..])
  }

  lemma RunIsIn(nd: ForeignDigits, k: CharClass, t: string)
    ensures AllIn(nd, k, t[..Run(nd, k, t)])
  {
    RunInClass(nd, k, t);
  }

  lemma BindingSpelled(nd: ForeignDigits, t: string)
    requires MatchBinding(nd, t).Some?
    ensures var b := MatchBinding(nd, t).value;
            Spelled(nd, Bind(b.index, b.field)) && BindingText(b.index, b.field) == t[..b.length]
  {
    hide Run, InClass, AllIn, BindingText, IsIdentStart;
    HeadText(nd, t);
    var digits := Run(nd, Digits, t[3..]);
    var rest := t[3 + digits..];
    RunIsIn(nd, Digits, t[3..]);
    RunIsIn(nd, Ident, rest[2..]);
    StartRuns(nd, rest[2..]);
    assert t[3..3 + digits] == t[3..][..digits];
    assert rest[2..2 + Run(nd, Ident, rest[2..])] == rest[2..][..Run(nd, Ident, rest[2..])];
  }

  lemma StartRuns(nd: ForeignDigits, t: string)
    requires t != [] && IsIdentStart(t[0])
    ensures Run(nd, Ident, t) > 0
  {
  }

  /** Parsing loses nothing, and its bindings and macros are those of the grammar. */
  lemma {:induction false} ParseSpells(nd: ForeignDigits, t: string)
    ensures Spell(Parse(nd, t)) == t && forall k :: k in Parse(nd, t) ==> Spelled(nd, k)
    decreases |t|
  {
    hide MatchBinding, MacroLength, Spelled, MacroText, BindingText;
    if t != [] {
      var b, n := MatchBinding(nd, t), MacroLength(nd, t);
      if b.Some? {
        BindingSpelled(nd, t);
        ParseSpells(nd, t[b.value.length..]);
        TokensCons(Bind(b.value.index, b.value.field), Parse(nd, t[b.value.length..]));
        assert t == t[..b.value.length] + t[b.value.length..];
      } else if n > 0 {
        MacroSpelled(nd, t);
        ParseSpells(nd, t[n..]);
        TokensCons(Macro(t[8..n - 2]), Parse(nd, t[n..]));
        assert t == t[..n] + t[n..];
      } else {
        ParseSpells(nd, t[1..]);
        TokensCons(Char(t[0]), Parse(nd, t[1..]));
        CharSpelled(nd, t[0]);
        assert t == [t[0]] + t[1..];
      }
    }
  }

  lemma NothingParsed(nd: ForeignDigits)
    ensures Parse(nd, "") == []
  {
  }

  /** The only way to spell a text without brace characters is the parsed one. */
  lemma {:induction false} ParseUnique(nd: ForeignDigits, ts: seq<Token>)
    requires Plain(nd, ts)
    ensures Parse(nd, Spell(ts)) == ts
  {
    hide Parse, Spelled, MacroText, BindingText;
    if ts == [] {
      NothingParsed(nd);
    } else {
      PlainTail(nd, ts);
      ParseUnique(nd, ts[1..]);
      var rest := Spell(ts[1..]);
      assert ts == [ts[0]] + ts[1..];
      match ts[0] {
        case Char(c) => ParseChar(nd, c, rest);
        case Bind(index, field) => ParseBinding(nd, index, field, rest);
        case Macro(name) => ParseMacro(nd, name, rest);
      }
    }
  }

  lemma ParseChar(nd: ForeignDigits, c: char, rest: string)
    requires c != '{'
    ensures Parse(nd, [c] + rest) == [Char(c)] + Parse(nd, rest)
  {
    hide MatchBinding, MacroLength;
    NotABrace(nd, [c] + rest);
    assert ([c] + rest)[1..] == rest;
  }

  lemma ParseBinding(nd: ForeignDigits, index: string, field: string, rest: string)
    requires Spelled(nd, Bind(index, field))
    ensures Parse(nd, BindingText(index, field) + rest) == [Bind(index, field)] + Parse(nd, rest)
  {
    hide MatchBinding, MacroLength, Spelled;
    BindingMatches(nd, index, field, rest);
    assert (BindingText(index, field) + rest)[|BindingText(index, field)|..] == rest;
  }

  lemma ParseMacro(nd: ForeignDigits, name: string, rest: string)
    requires Spelled(nd, Macro(name))
    ensures Parse(nd, MacroText(name) + rest) == [Macro(name)] + Parse(nd, rest)
  {
    hide MatchBinding, MacroLength, Spelled;
    var t := MacroText(name) + rest;
    MacroHasNoBinding(nd, name);
    PlainHead(nd, MacroText(name), rest);
    MacroMatches(nd, name, rest);
    assert t[|MacroText(name)|..] == rest && t[8..|MacroText(name)| - 2] == name;
  }

  /** A template is in the documented grammar exactly when every character outside its bindings and macros is of the documented class. */
  lemma InGrammarExactly(nd: ForeignDigits, t: string)
    ensures InGrammar(nd, t) <==> forall c :: Char(c) in Parse(nd, t) ==> IsDocumentedProse(c)
  {
    ParseSpells(nd, t);
    if InGrammar(nd, t) {
      var ts :| AllWellFormed(nd, ts) && Spell(ts) == t;
      assert Plain(nd, ts);
      ParseUnique(nd, ts);
      assert forall c :: Char(c) in ts ==> WellFormed(nd, Char(c));
    }
    if forall c :: Char(c) in Parse(nd, t) ==> IsDocumentedProse(c) {
      assert AllWellFormed(nd, Parse(nd, t));
    }
  }

  /** When a template is both accepted and in the grammar: when every character outside its bindings and macros is prose. */
  lemma AcceptedInGrammarExactly(nd: ForeignDigits, t: string)
    ensures ValidTemplate(nd, t) && InGrammar(nd, t) <==> forall c :: Char(c) in Parse(nd, t) ==> IsProse(c)
  {
    hide ValidTemplate, Parse, Spell, Spelled;
    var ts := Parse(nd, t);
    InGrammarExactly(nd, t);
    ParseSpells(nd, t);
    if forall c :: Char(c) in ts ==> IsDocumentedProse(c) {
      forall k | k in ts ensures k.Char? ==> k.c != '{' {
        if k.Char? { assert IsDocumentedProse(k.c); }
      }
      GuardOnSpelled(nd, ts);
    }
  }

  /** A macro text with a binding after its first brace. */
  function SplitMacro(index: string, field: string, name: string): string {
    "{" + BindingText(index, field) + MacroText(name)[1..]
  }

  lemma SplitMacroHead(nd: ForeignDigits, index: string, field: string, name: string)
    ensures var t := SplitMacro(index, field, name);
            && t != [] && MatchBinding(nd, t).None? && MacroLength(nd, t) == 0
            && t[0] == '{' && t[1..] == BindingText(index, field) + MacroText(name)[1..]
  {
    var t := SplitMacro(index, field, name);
    var b := BindingText(index, field);
    assert b[0] == '{' && b[1] == 'A';
    assert t[1] == b[0] && t[2] == b[1];
    assert t[..3][1] == t[1];
    if |t| >= 8 { assert t[..8][2] == t[2]; }
    assert t[1..] == b + MacroText(name)[1..];
  }

  lemma SplitMacroLiterals(nd: ForeignDigits, index: string, field: string, name: string)
    requires Spelled(nd, Bind(index, field)) && Spelled(nd, Macro(name))
    ensures Literals(Scan(nd, SplitMacro(index, field, name))) == MacroText(name)
  {
    var t, tail := SplitMacro(index, field, name), MacroText(name)[1..];
    MacroHasNoBinding(nd, name);
    PlainHead(nd, MacroText(name), "");
    SplitMacroHead(nd, index, field, name);
    ScanStep(nd, t);
    ScanBinding(nd, index, field, tail);
    ScanPlain(nd, tail, "");
    LettersScan(tail);
    assert MacroText(name)[0] == '{' && MacroText(name) == ['{'] + tail;
    assert tail + "" == tail && Scan(nd, "") == [] && Letters(tail) + [] == Letters(tail);
    hide SplitMacro, MacroText, Spelled, MatchBinding, Letters;
    assert Literals(Scan(nd, t)) == ['{'] + Literals(Scan(nd, t[1..])) by { LiteralsAppend([Lit('{')], Scan(nd, t[1..])); LoneLiteral('{'); }
  }

  lemma LoneLiteral(c: char)
    ensures Literals([Lit(c)]) == [c]
  {
  }

  lemma LoneMacro(nd: ForeignDigits, name: string)
    requires Spelled(nd, Macro(name))
    ensures ProseAndMacros(nd, MacroText(name))
  {
    TokensCons(Macro(name), []);
    assert [Macro(name)] + [] == [Macro(name)];
    assert Spell([Macro(name)]) == MacroText(name);
  }

  /** The guard also accepts templates outside the grammar: deleting the binding here completes a macro. */
  lemma ForgedMacroAccepted(nd: ForeignDigits, index: string, field: string, name: string)
    requires Spelled(nd, Bind(index, field)) && Spelled(nd, Macro(name))
    ensures var t := SplitMacro(index, field, name);
            ValidTemplate(nd, t) && !InGrammar(nd, t)
  {
    hide Spelled, Scan, Literals, ValidTemplate, MacroText, SplitMacro, MatchBinding, MacroLength, IsProse;
    var t := SplitMacro(index, field, name);
    SplitMacroLiterals(nd, index, field, name);
    LoneMacro(nd, name);
    GuardAcceptsAll(nd, t);
    SplitMacroHead(nd, index, field, name);
    InGrammarExactly(nd, t);
    assert Char('{') in Parse(nd, t) by { assert Parse(nd, t)[0] == Char('{'); }
    assert !IsDocumentedProse('{') by { BraceIsNotProse(); }
  }

  lemma BraceIsNotProse()
    ensures !IsDocumentedProse('{')
  {
  }

  lemma ForgedMacroExample(nd: ForeignDigits)
    ensures ValidTemplate(nd, "{{A[0].f}{macro.x}}") && !InGrammar(nd, "{{A[0].f}{macro.x}}")
  {
    hide ValidTemplate, InGrammar;
    ForgedMacroAccepted(nd, "0", "f", "x");
    assert MacroText("x")[1..] == "{macro.x}}";
    assert SplitMacro("0", "f", "x") == "{{A[0].f}{macro.x}}";
  }
}
