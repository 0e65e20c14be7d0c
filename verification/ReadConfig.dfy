/** From the text of a configuration file to its tree, and back.

    A list of declarations is written out as tokens and the tokens are laid out as text with any
    spelling of the strings, any white space and any comments. Lexing and parsing that text gives
    the declarations back without a complaint. */
module ReadConfig {
  import opened Wrappers
  import opened Lexing
  import opened Layouts
  import opened LexingTheorems
  import opened LexingExactly
  import opened ConfigLexer
  import opened Parsing
  import opened ParsingTheorems
  import opened ConfigParser

  // ---- Writing trees ---------------------------------------------------------------------

  /** No part of the tree is missing. */
  predicate Whole(v: Value) {
    match v
    case StructNode(_, ps) => forall i :: 0 <= i < |ps| ==> WholeProperty(ps[i])
    case _ => true
  }

  predicate WholeProperty(p: Property) { p.value.Some? && Whole(p.value.value) }

  function ValueTokens(v: Value): seq<Token>
    requires Whole(v)
  {
    match v
    case IntegerNode(n) => [IntegerLiteral(n)]
    case StringNode(x) => [StringLiteral(x)]
    case BooleanNode(b) => [if b then TrueKeyword else FalseKeyword]
    case PseudoIdentifierNode(x) => [Identifier(x)]
    case StructNode(tag, ps) => [Identifier(tag), LBrace] + (PropertiesTokens(ps) + [RBrace])
  }

  function PropertyTokens(p: Property): seq<Token>
    requires WholeProperty(p)
  {
    [Identifier(p.key), Equals] + ValueTokens(p.value.value)
  }

  function PropertiesTokens(ps: seq<Property>): seq<Token>
    requires forall i :: 0 <= i < |ps| ==> WholeProperty(ps[i])
  {
    if ps == [] then []
    else if |ps| == 1 then PropertyTokens(ps[0])
    else PropertyTokens(ps[0]) + ([Comma] + PropertiesTokens(ps[1..]))
  }

  function NamesTokens(ids: seq<string>): seq<Token> {
    if ids == [] then []
    else if |ids| == 1 then [Identifier(ids[0])]
    else [Identifier(ids[0]), Comma] + NamesTokens(ids[1..])
  }

  predicate WholeDeclaration(d: Declaration) {
    match d
    case TaskDeclaration(n) => n.value.Some? && Whole(n.value.value)
    case DependencyDeclaration(n) => n.dependencies != []
    case RunLevelDeclaration(n) => n.name.Some? && n.dependencies != []
  }

  function DeclarationTokens(d: Declaration): seq<Token>
    requires WholeDeclaration(d)
  {
    match d
    case TaskDeclaration(n) =>
      [TaskKeyword, Identifier(n.name), Equals] + (ValueTokens(n.value.value) + [Semicolon])
    case DependencyDeclaration(n) =>
      [Identifier(n.dependant), DependsKeyword] + (NamesTokens(n.dependencies) + [Semicolon])
    case RunLevelDeclaration(n) =>
      [RunLevelKeyword, Identifier(n.name.value), Colon] + (NamesTokens(n.dependencies) + [Semicolon])
  }

  predicate WholeFile(ds: seq<Declaration>) { forall i :: 0 <= i < |ds| ==> WholeDeclaration(ds[i]) }

  function FileTokens(ds: seq<Declaration>): seq<Token>
    requires WholeFile(ds)
  {
    if ds == [] then [] else DeclarationTokens(ds[0]) + FileTokens(ds[1..])
  }

  // ---- Written tokens derive their tree --------------------------------------------------

  predicate Stands(ts: seq<Token>, i: nat, u: seq<Token>) {
    i + |u| <= |ts| && ts[i..i + |u|] == u
  }

  lemma StandsParts(ts: seq<Token>, i: nat, a: seq<Token>, b: seq<Token>)
    requires Stands(ts, i, a + b)
    ensures Stands(ts, i, a) && Stands(ts, i + |a|, b)
  {
    assert ts[i..i + |a|] == (a + b)[..|a|];
    assert ts[i + |a|..i + |a| + |b|] == (a + b)[|a|..];
  }

  lemma StandsOne(ts: seq<Token>, i: nat, t: Token)
    requires Stands(ts, i, [t])
    ensures NextIs(ts, i, t)
  {
    assert ts[i..i + 1][0] == t;
  }

  lemma StandsFirst(ts: seq<Token>, i: nat, t: Token, u: seq<Token>)
    requires Stands(ts, i, [t] + u)
    ensures NextIs(ts, i, t) && Stands(ts, i + 1, u)
  {
    StandsParts(ts, i, [t], u);
    StandsOne(ts, i, t);
  }

  lemma StandsSecond(ts: seq<Token>, i: nat, s: Token, t: Token, u: seq<Token>)
    requires Stands(ts, i, [s, t] + u)
    ensures NextIs(ts, i, s) && NextIs(ts, i + 1, t) && Stands(ts, i + 2, u)
  {
    hide Stands;
    assert [s, t] + u == [s] + ([t] + u);
    StandsFirst(ts, i, s, [t] + u);
    StandsFirst(ts, i + 1, t, u);
  }

  lemma StandsThird(ts: seq<Token>, i: nat, s: Token, t: Token, t': Token, u: seq<Token>)
    requires Stands(ts, i, [s, t, t'] + u)
    ensures NextIs(ts, i, s) && NextIs(ts, i + 1, t)
    ensures NextIs(ts, i + 2, t') && Stands(ts, i + 3, u)
  {
    hide Stands;
    assert [s, t, t'] + u == [s, t] + ([t'] + u);
    StandsSecond(ts, i, s, t, [t'] + u);
    StandsFirst(ts, i + 2, t', u);
  }

  lemma StandsLast(ts: seq<Token>, i: nat, u: seq<Token>, t: Token)
    requires Stands(ts, i, u + [t])
    ensures Stands(ts, i, u) && NextIs(ts, i + |u|, t)
  {
    hide Stands;
    StandsParts(ts, i, u, [t]);
    StandsOne(ts, i + |u|, t);
  }

  lemma {:induction false} ValueDerived(ts: seq<Token>, i: nat, v: Value)
    requires Whole(v) && Stands(ts, i, ValueTokens(v))
    ensures IsValue(ts, i, i + |ValueTokens(v)|, v)
    decreases v
  {
    hide Stands;
    if v.StructNode? {
      var body := PropertiesTokens(v.properties);
      StandsSecond(ts, i, Identifier(v.tag), LBrace, body + [RBrace]);
      StandsLast(ts, i + 2, body, RBrace);
      BodyDerived(ts, i + 2, v.properties);
    } else {
      StandsOne(ts, i, ValueTokens(v)[0]);
    }
  }

  lemma {:induction false} PropertyDerived(ts: seq<Token>, i: nat, p: Property)
    requires WholeProperty(p) && Stands(ts, i, PropertyTokens(p))
    ensures IsProperty(ts, i, i + |PropertyTokens(p)|, p)
    decreases p
  {
    hide Stands, ValueTokens, IsValue;
    StandsSecond(ts, i, Identifier(p.key), Equals, ValueTokens(p.value.value));
    ValueDerived(ts, i + 2, p.value.value);
  }

  lemma {:induction false} BodyDerived(ts: seq<Token>, i: nat, ps: seq<Property>)
    requires forall k :: 0 <= k < |ps| ==> WholeProperty(ps[k])
    requires Stands(ts, i, PropertiesTokens(ps))
    ensures IsBody(ts, i, i + |PropertiesTokens(ps)|, ps)
    decreases ps
  {
    hide Stands, PropertyTokens, IsProperty, WholeProperty;
    if |ps| == 1 {
      PropertyDerived(ts, i, ps[0]);
      var m := i + |PropertyTokens(ps[0])|;
      assert IsProperty(ts, i, m, ps[0]) && IsBodyTail(ts, m, m, ps[1..]);
    } else if |ps| > 1 {
      var first, rest := PropertyTokens(ps[0]), PropertiesTokens(ps[1..]);
      StandsParts(ts, i, first, [Comma] + rest);
      var m := i + |first|;
      StandsFirst(ts, m, Comma, rest);
      PropertyDerived(ts, i, ps[0]);
      BodyDerived(ts, m + 1, ps[1..]);
      assert IsProperty(ts, i, m, ps[0]) && IsBodyTail(ts, m, m + 1 + |rest|, ps[1..]);
    }
  }

  lemma {:induction false} NamesDerived(ts: seq<Token>, i: nat, ids: seq<string>)
    requires ids != [] && Stands(ts, i, NamesTokens(ids))
    ensures IsNames(ts, i, i + |NamesTokens(ids)|, ids)
    decreases |ids|
  {
    hide Stands;
    if |ids| == 1 {
      StandsOne(ts, i, Identifier(ids[0]));
    } else {
      StandsSecond(ts, i, Identifier(ids[0]), Comma, NamesTokens(ids[1..]));
      NamesDerived(ts, i + 2, ids[1..]);
    }
  }

  lemma DeclarationDerived(ts: seq<Token>, i: nat, d: Declaration)
    requires WholeDeclaration(d) && Stands(ts, i, DeclarationTokens(d))
    ensures IsDeclaration(ts, i, i + |DeclarationTokens(d)|, d)
  {
    hide Stands, IsValue, IsNames, ValueTokens, NamesTokens;
    match d
    case TaskDeclaration(n) =>
      var value := ValueTokens(n.value.value);
      StandsThird(ts, i, TaskKeyword, Identifier(n.name), Equals, value + [Semicolon]);
      StandsLast(ts, i + 3, value, Semicolon);
      ValueDerived(ts, i + 3, n.value.value);
    case DependencyDeclaration(n) =>
      var names := NamesTokens(n.dependencies);
      StandsSecond(ts, i, Identifier(n.dependant), DependsKeyword, names + [Semicolon]);
      StandsLast(ts, i + 2, names, Semicolon);
      NamesDerived(ts, i + 2, n.dependencies);
    case RunLevelDeclaration(n) =>
      var names := NamesTokens(n.dependencies);
      StandsThird(ts, i, RunLevelKeyword, Identifier(n.name.value), Colon, names + [Semicolon]);
      StandsLast(ts, i + 3, names, Semicolon);
      NamesDerived(ts, i + 3, n.dependencies);
  }

  lemma {:induction false} FileDerived(ts: seq<Token>, i: nat, ds: seq<Declaration>)
    requires WholeFile(ds) && Stands(ts, i, FileTokens(ds)) && i + |FileTokens(ds)| == |ts|
    ensures IsFile(ts, i, ds)
    decreases |ds|
  {
    hide Stands, IsDeclaration, DeclarationTokens, WholeDeclaration;
    if ds != [] {
      var first := DeclarationTokens(ds[0]);
      StandsParts(ts, i, first, FileTokens(ds[1..]));
      DeclarationDerived(ts, i, ds[0]);
      FileDerived(ts, i + |first|, ds[1..]);
    }
  }

  // ---- Reading texts ---------------------------------------------------------------------

  /** The text reads as `ds` with no complaint of the parser. */
  ghost predicate Reads(text: string, ds: seq<Declaration>)
    requires Lexable(text, 0)
  {
    var ls := Lexemes(text, 0);
    ParseDeclarations(Tokens(ls), START) == (State(|ls|, []), ds)
  }

  /** Whatever the layout, the text of a list of declarations reads as that list, with complaints
      of the lexer only if the layout is damaged. */
  lemma RoundTrip(ds: seq<Declaration>, items: seq<Item>, tail: Tail)
    requires WholeFile(ds) && LayoutOk(items, tail) && ItemTokens(items) == FileTokens(ds)
    ensures var text := Render(items, tail);
      && Lexable(text, 0) && Reads(text, ds)
      && (Complaints(text, 0) == [] <==> Clean(items, tail))
  {
    hide Render, LayoutOk, Lexable, Lexemes, ParseDeclarations, WholeDeclaration, LaidErrors, Clean;
    RenderLexes(items, tail);
    Cleanly(items, tail, 0);
    var ts := FileTokens(ds);
    assert ts[0..|ts|] == ts;
    FileDerived(ts, 0, ds);
    DeclarationsComplete(ts, START, ds);
  }

  /** A text that the lexer reads to the end is read without any complaint exactly when it is a
      layout, with nothing damaged, of a row of tokens that derives a list of declarations. */
  lemma FileExactly(text: string)
    requires Readable(text)
    ensures Complaints(text, 0) == [] && (exists ds :: Reads(text, ds)) <==>
      exists items, tail, ds :: IsLayout(text, items, tail) && Clean(items, tail) && Derives(ItemTokens(items), ds)
  {
    hide Render, LayoutOk, Lexemes, ParseDeclarations, LaidErrors, Clean, Complaints, NumbersFit, Derives;
    CleanExactly(text);
    if ds :| Complaints(text, 0) == [] && Reads(text, ds) {
      var items, tail :| IsLayout(text, items, tail) && Clean(items, tail);
      RenderLexes(items, tail);
      ReadsDerived(text, ds);
      assert Derives(ItemTokens(items), ds);
    }
    if items, tail, ds :| IsLayout(text, items, tail) && Clean(items, tail) && Derives(ItemTokens(items), ds) {
      RenderLexes(items, tail);
      ReadsDerived(text, ds);
    }
  }

  lemma ReadsDerived(text: string, ds: seq<Declaration>)
    requires Lexable(text, 0)
    ensures Reads(text, ds) <==> Derives(Tokens(Lexemes(text, 0)), ds)
  {
    hide Lexable, Lexemes, ParseDeclarations, IsFile;
    var ts := Tokens(Lexemes(text, 0));
    if Reads(text, ds) {
      DeclarationsSound(ts, START);
    }
    if Derives(ts, ds) {
      DerivedIsResult(ts, ds);
    }
  }

  // ---- Trees of files --------------------------------------------------------------------

  /** The text reads as the tree, without a complaint of lexer or parser. */
  ghost predicate ReadsTree(text: string, n: TopLevelNode) {
    Lexable(text, 0) && Complaints(text, 0) == [] && exists ds :: Interleaves(ds, n) && Reads(text, ds)
  }

  /** No part of the tree is missing. */
  predicate WholeTree(n: TopLevelNode) {
    && (forall i :: 0 <= i < |n.tasks| ==> WholeDeclaration(TaskDeclaration(n.tasks[i])))
    && (forall i :: 0 <= i < |n.dependencies| ==> WholeDeclaration(DependencyDeclaration(n.dependencies[i])))
    && (forall i :: 0 <= i < |n.runLevels| ==> WholeDeclaration(RunLevelDeclaration(n.runLevels[i])))
  }

  /** The declarations of a tree are whole however they are interleaved. */
  lemma {:induction false} InterleavedWhole(ds: seq<Declaration>, n: TopLevelNode)
    requires Interleaves(ds, n) && WholeTree(n)
    ensures WholeFile(ds)
    decreases |ds|
  {
    hide WholeDeclaration;
    if ds != [] {
      var rest;
      match ds[0] {
        case TaskDeclaration(_) => rest := n.(tasks := n.tasks[1..]);
        case DependencyDeclaration(_) => rest := n.(dependencies := n.dependencies[1..]);
        case RunLevelDeclaration(_) => rest := n.(runLevels := n.runLevels[1..]);
      }
      InterleavedWhole(ds[1..], rest);
      forall i | 0 <= i < |ds| ensures WholeDeclaration(ds[i]) {
        assert i > 0 ==> ds[i] == ds[1..][i - 1];
      }
    }
  }

  /** Whatever the interleaving of its three lists and whatever the layout, the text of a whole
      tree reads as that tree. */
  lemma TreeRoundTrip(n: TopLevelNode, ds: seq<Declaration>, items: seq<Item>, tail: Tail)
    requires WholeTree(n) && Interleaves(ds, n)
    ensures WholeFile(ds)
    ensures LayoutOk(items, tail) && Clean(items, tail) && ItemTokens(items) == FileTokens(ds) ==>
      ReadsTree(Render(items, tail), n)
  {
    hide WholeTree, Interleaves, LayoutOk, Clean, Render, Reads, Complaints, FileTokens;
    InterleavedWhole(ds, n);
    if LayoutOk(items, tail) && Clean(items, tail) && ItemTokens(items) == FileTokens(ds) {
      RoundTrip(ds, items, tail);
    }
  }

  // ---- Spellings -------------------------------------------------------------------------

  /** A character inside quotes, escaped where there is an escape for it. */
  function UnitOf(c: char): (u: Unit)
    ensures u.Ok() && u.Clean() && u.Value() == [c]
  {
    if c == 7 as char then Pair('a')
    else if c == 8 as char then Pair('b')
    else if c == 12 as char then Pair('f')
    else if c == '\n' then Pair('n')
    else if c == '\r' then Pair('r')
    else if c == '\t' then Pair('t')
    else if c == 11 as char then Pair('v')
    else if c == '\\' then Pair('\\')
    else if c == '\'' then Pair('\'')
    else if c == '\"' then Pair('\"')
    else Unit.Plain(c)
  }

  function UnitsOf(v: string): (units: seq<Unit>)
    ensures |units| == |v| && forall i :: 0 <= i < |v| ==> units[i] == UnitOf(v[i])
  {
    if v == "" then [] else [UnitOf(v[0])] + UnitsOf(v[1..])
  }

  /** The printer's escapes are the inverse of the lexer's table: every value has a spelling. */
  lemma {:induction false} UnescapeOfEscaped(v: string)
    ensures UnitsOk(UnitsOf(v)) && UnitsClean(UnitsOf(v)) && UnitsValue(UnitsOf(v)) == v
    decreases |v|
  {
    hide Unit.Ok, Unit.Clean, Unit.Value;
    if v != "" {
      UnescapeOfEscaped(v[1..]);
      assert [v[0]] + v[1..] == v;
    }
  }

  /** The plainest spelling of a token. */
  function FormOf(t: Token): Form {
    match t
    case Unknown => Symbol('?')
    case Identifier(x) => Word(x)
    case IntegerLiteral(n) => Digits(0, if n < 0 then 0 else n)
    case StringLiteral(v) => Quoted(UnitsOf(v), Closed)
    case LBrace => Symbol('{')
    case RBrace => Symbol('}')
    case Equals => Symbol('=')
    case Semicolon => Symbol(';')
    case Comma => Symbol(',')
    case Colon => Symbol(':')
    case TaskKeyword => Word("task")
    case TrueKeyword => Word("true")
    case FalseKeyword => Word("false")
    case DependsKeyword => Word("depends")
    case RunLevelKeyword => Word("run_level")
  }

  predicate SpellableToken(t: Token) { FormOf(t).Ok() && FormOf(t).Meaning() == t }

  /** Tokens that have a spelling. */
  predicate Spellable(ts: seq<Token>) {
    forall i :: 0 <= i < |ts| ==> SpellableToken(ts[i])
  }

  /** The plainest layout: one space before each token. */
  function Spaced(ts: seq<Token>): (items: seq<Item>)
    ensures |items| == |ts| && forall i :: 0 <= i < |ts| ==> items[i] == Item([Blank(' ')], FormOf(ts[i]))
  {
    if ts == [] then [] else [Item([Blank(' ')], FormOf(ts[0]))] + Spaced(ts[1..])
  }

  const NO_TAIL := Tail([], None)

  lemma FormOfClean(t: Token, rest: string)
    requires rest == "" || rest[0] == ' '
    ensures FormOf(t).Clean() && FormOf(t).Before(rest)
  {
    if t.StringLiteral? {
      UnescapeOfEscaped(t.value);
    }
  }

  lemma RestSpaced(ts: seq<Token>)
    ensures var rest := Render(Spaced(ts), NO_TAIL);
      rest == "" || rest[0] == ' '
  {
    hide Form.Text;
    if ts != [] {
      var items := Spaced(ts);
      assert items[0].gap == [Blank(' ')];
      assert GapText([Blank(' ')]) == [' '] + GapText([Blank(' ')][1..]);
    }
  }

  lemma SpacedClean(ts: seq<Token>)
    requires Spellable(ts)
    ensures ItemsOk(Spaced(ts), NO_TAIL) && Clean(Spaced(ts), NO_TAIL)
  {
    hide FormOf, Form.Ok, Form.Clean, Form.Meaning;
    forall i | 0 <= i < |ts| ensures Spaced(ts)[i].Ok() && Spaced(ts)[i].form.Clean() {
      assert SpellableToken(ts[i]);
      FormOfClean(ts[i], "");
    }
  }

  lemma {:induction false} SpacedSeams(ts: seq<Token>)
    ensures Seams(Spaced(ts), NO_TAIL)
    decreases |ts|
  {
    hide FormOf, Form.Before, Render;
    if ts != [] {
      SpacedSeams(ts[1..]);
      RestSpaced(ts[1..]);
      FormOfClean(ts[0], Render(Spaced(ts[1..]), NO_TAIL));
      assert Spaced(ts)[1..] == Spaced(ts[1..]);
    }
  }

  lemma HasLayout(ts: seq<Token>)
    requires Spellable(ts)
    ensures LayoutOk(Spaced(ts), NO_TAIL) && Clean(Spaced(ts), NO_TAIL) && ItemTokens(Spaced(ts)) == ts
  {
    hide FormOf, Form.Meaning, Spaced, Seams, ItemsOk, Clean;
    SpacedClean(ts);
    SpacedSeams(ts);
    forall i | 0 <= i < |ts| ensures ItemTokens(Spaced(ts))[i] == ts[i] {
      assert SpellableToken(ts[i]);
    }
  }

  // ---- Trees that have a text ------------------------------------------------------------

  /** A word that is not a keyword. */
  predicate SpellableName(x: string) { IsWord(x) && x !in KEYWORDS }

  predicate SpellableNames(ids: seq<string>) { forall i :: 0 <= i < |ids| ==> SpellableName(ids[i]) }

  predicate SpellableValue(v: Value)
    requires Whole(v)
  {
    match v
    case IntegerNode(n) => 0 <= n <= MAX_INT
    case StringNode(_) => true
    case BooleanNode(_) => true
    case PseudoIdentifierNode(x) => SpellableName(x)
    case StructNode(tag, ps) => SpellableName(tag) && SpellableProperties(ps)
  }

  predicate SpellableProperties(ps: seq<Property>)
    requires forall i :: 0 <= i < |ps| ==> WholeProperty(ps[i])
  {
    ps == [] ||
    (assert WholeProperty(ps[0]);
     SpellableName(ps[0].key) && SpellableValue(ps[0].value.value) && SpellableProperties(ps[1..]))
  }

  predicate SpellableDeclaration(d: Declaration)
    requires WholeDeclaration(d)
  {
    match d
    case TaskDeclaration(n) => SpellableName(n.name) && SpellableValue(n.value.value)
    case DependencyDeclaration(n) => SpellableName(n.dependant) && SpellableNames(n.dependencies)
    case RunLevelDeclaration(n) => SpellableName(n.name.value) && SpellableNames(n.dependencies)
  }

  /** All names of the tree are words and no keywords, all numbers fit in the program's `int`;
      strings are not limited. */
  predicate SpellableFile(ds: seq<Declaration>)
    requires WholeFile(ds)
  {
    forall i :: 0 <= i < |ds| ==> SpellableDeclaration(ds[i])
  }

  lemma SpellableParts(a: seq<Token>, b: seq<Token>)
    ensures Spellable(a + b) <==> Spellable(a) && Spellable(b)
  {
    hide SpellableToken;
    if Spellable(a + b) {
      forall i | 0 <= i < |a| ensures SpellableToken(a[i]) {
        assert SpellableToken((a + b)[i]);
      }
      forall i | 0 <= i < |b| ensures SpellableToken(b[i]) {
        assert SpellableToken((a + b)[|a| + i]);
      }
    }
  }

  lemma SpellableOne(t: Token)
    ensures Spellable([t]) <==> SpellableToken(t)
  {
    hide SpellableToken;
    assert Spellable([t]) ==> SpellableToken([t][0]);
  }

  lemma SpellableTwo(s: Token, t: Token)
    ensures Spellable([s, t]) <==> Spellable([s]) && Spellable([t])
  {
    hide Spellable;
    assert [s, t] == [s] + [t];
    SpellableParts([s], [t]);
  }

  lemma SpellableThree(r: Token, s: Token, t: Token)
    ensures Spellable([r, s, t]) <==> Spellable([r]) && Spellable([s]) && Spellable([t])
  {
    hide Spellable;
    assert [r, s, t] == [r, s] + [t];
    SpellableParts([r, s], [t]);
    SpellableTwo(r, s);
  }

  /** Punctuation and keywords. */
  predicate IsFixed(t: Token) {
    !t.Unknown? && !t.Identifier? && !t.IntegerLiteral? && !t.StringLiteral?
  }

  lemma FixedSpellable(t: Token)
    requires IsFixed(t)
    ensures SpellableToken(t)
  {
  }

  lemma SpellableFixed()
    ensures forall t :: IsFixed(t) ==> Spellable([t])
  {
    hide SpellableToken, Spellable;
    forall t | IsFixed(t) ensures Spellable([t]) {
      FixedSpellable(t);
      SpellableOne(t);
    }
  }

  lemma {:induction false} ValueSpellable(v: Value)
    requires Whole(v)
    ensures Spellable(ValueTokens(v)) <==> SpellableValue(v)
    decreases v
  {
    hide Spellable, SpellableProperties, PropertiesTokens, SpellableName;
    SpellableFixed();
    match v
    case IntegerNode(n) => SpellableOne(IntegerLiteral(n));
    case StringNode(x) =>
      UnescapeOfEscaped(x);
      SpellableOne(StringLiteral(x));
    case BooleanNode(_) =>
    case PseudoIdentifierNode(x) => NameSpellable(x);
    case StructNode(tag, ps) =>
      NameSpellable(tag);
      SpellableTwo(Identifier(tag), LBrace);
      SpellableParts([Identifier(tag), LBrace], PropertiesTokens(ps) + [RBrace]);
      SpellableParts(PropertiesTokens(ps), [RBrace]);
      PropertiesSpellable(ps);
  }

  lemma NameSpellable(x: string)
    ensures Spellable([Identifier(x)]) <==> SpellableName(x)
  {
    SpellableOne(Identifier(x));
  }

  lemma {:induction false} PropertySpellable(p: Property)
    requires WholeProperty(p)
    ensures Spellable(PropertyTokens(p)) <==> SpellableName(p.key) && SpellableValue(p.value.value)
    decreases p
  {
    hide Spellable, SpellableValue, ValueTokens, SpellableName;
    SpellableFixed();
    NameSpellable(p.key);
    SpellableTwo(Identifier(p.key), Equals);
    SpellableParts([Identifier(p.key), Equals], ValueTokens(p.value.value));
    ValueSpellable(p.value.value);
  }

  lemma {:induction false} PropertiesSpellable(ps: seq<Property>)
    requires forall i :: 0 <= i < |ps| ==> WholeProperty(ps[i])
    ensures Spellable(PropertiesTokens(ps)) <==> SpellableProperties(ps)
    decreases ps
  {
    hide Spellable, SpellableValue, PropertyTokens, SpellableName;
    if ps == [] {
      NothingSpellable();
    } else {
      assert WholeProperty(ps[0]);
      SpellableFixed();
      PropertySpellable(ps[0]);
      PropertiesSpellable(ps[1..]);
      if |ps| > 1 {
        SpellableParts(PropertyTokens(ps[0]), [Comma] + PropertiesTokens(ps[1..]));
        SpellableParts([Comma], PropertiesTokens(ps[1..]));
      }
    }
  }

  lemma NothingSpellable()
    ensures Spellable([])
  {
  }

  lemma {:induction false} NamesSpellable(ids: seq<string>)
    ensures Spellable(NamesTokens(ids)) <==> SpellableNames(ids)
    decreases |ids|
  {
    hide Spellable, SpellableName;
    if ids == [] {
      NothingSpellable();
    } else {
      SpellableFixed();
      NameSpellable(ids[0]);
      assert SpellableNames(ids) <==> SpellableName(ids[0]) && SpellableNames(ids[1..]) by {
        NamesRest(ids);
      }
      if |ids| > 1 {
        SpellableTwo(Identifier(ids[0]), Comma);
        SpellableParts([Identifier(ids[0]), Comma], NamesTokens(ids[1..]));
        NamesSpellable(ids[1..]);
      }
    }
  }

  lemma NamesRest(ids: seq<string>)
    requires ids != []
    ensures SpellableNames(ids) <==> SpellableName(ids[0]) && SpellableNames(ids[1..])
  {
    hide SpellableName;
    if SpellableName(ids[0]) && SpellableNames(ids[1..]) {
      forall i | 0 <= i < |ids| ensures SpellableName(ids[i]) {
        assert i > 0 ==> ids[i] == ids[1..][i - 1];
      }
    }
  }

  lemma DeclarationSpellable(d: Declaration)
    requires WholeDeclaration(d)
    ensures Spellable(DeclarationTokens(d)) <==> SpellableDeclaration(d)
  {
    hide Spellable, SpellableName, SpellableValue, ValueTokens, SpellableNames, NamesTokens;
    SpellableFixed();
    match d
    case TaskDeclaration(n) =>
      NameSpellable(n.name);
      SpellableThree(TaskKeyword, Identifier(n.name), Equals);
      SpellableParts([TaskKeyword, Identifier(n.name), Equals], ValueTokens(n.value.value) + [Semicolon]);
      SpellableParts(ValueTokens(n.value.value), [Semicolon]);
      ValueSpellable(n.value.value);
    case DependencyDeclaration(n) =>
      NameSpellable(n.dependant);
      SpellableTwo(Identifier(n.dependant), DependsKeyword);
      SpellableParts([Identifier(n.dependant), DependsKeyword], NamesTokens(n.dependencies) + [Semicolon]);
      SpellableParts(NamesTokens(n.dependencies), [Semicolon]);
      NamesSpellable(n.dependencies);
    case RunLevelDeclaration(n) =>
      NameSpellable(n.name.value);
      SpellableThree(RunLevelKeyword, Identifier(n.name.value), Colon);
      SpellableParts([RunLevelKeyword, Identifier(n.name.value), Colon], NamesTokens(n.dependencies) + [Semicolon]);
      SpellableParts(NamesTokens(n.dependencies), [Semicolon]);
      NamesSpellable(n.dependencies);
  }

  /** The tokens of a tree have spellings exactly when its names and numbers do. */
  lemma {:induction false} FileSpellable(ds: seq<Declaration>)
    requires WholeFile(ds)
    ensures Spellable(FileTokens(ds)) <==> SpellableFile(ds)
    decreases |ds|
  {
    hide Spellable, SpellableDeclaration, DeclarationTokens, WholeDeclaration;
    if ds == [] {
      NothingSpellable();
    } else {
      SpellableParts(DeclarationTokens(ds[0]), FileTokens(ds[1..]));
      DeclarationSpellable(ds[0]);
      FileSpellable(ds[1..]);
      if SpellableDeclaration(ds[0]) && SpellableFile(ds[1..]) {
        forall i | 0 <= i < |ds| ensures SpellableDeclaration(ds[i]) {
          assert i > 0 ==> ds[i] == ds[1..][i - 1];
        }
      }
      if SpellableFile(ds) {
        forall i | 0 <= i < |ds[1..]| ensures SpellableDeclaration(ds[1..][i]) {
          assert ds[1..][i] == ds[i + 1];
        }
      }
    }
  }

  /** Every list of whole declarations whose names are words and no keywords, and whose numbers
      fit, has a text that reads as the list. */
  lemma FileHasText(ds: seq<Declaration>)
    requires WholeFile(ds) && SpellableFile(ds)
    ensures exists text ::
      Lexable(text, 0) && Complaints(text, 0) == [] && Reads(text, ds)
  {
    hide Spellable, SpellableFile, WholeDeclaration, LayoutOk, Clean, Lexable, Complaints, Render;
    FileSpellable(ds);
    var items := Spaced(FileTokens(ds));
    HasLayout(FileTokens(ds));
    RoundTrip(ds, items, NO_TAIL);
    assert Reads(Render(items, NO_TAIL), ds);
  }

  predicate SpellableTree(n: TopLevelNode)
    requires WholeTree(n)
  {
    && (forall i :: 0 <= i < |n.tasks| ==> SpellableDeclaration(TaskDeclaration(n.tasks[i])))
    && (forall i :: 0 <= i < |n.dependencies| ==> SpellableDeclaration(DependencyDeclaration(n.dependencies[i])))
    && (forall i :: 0 <= i < |n.runLevels| ==> SpellableDeclaration(RunLevelDeclaration(n.runLevels[i])))
  }

  /** The declarations of a tree, one kind behind the other. */
  function DeclarationsOf(n: TopLevelNode): (ds: seq<Declaration>) {
    seq(|n.tasks|, i requires 0 <= i < |n.tasks| => TaskDeclaration(n.tasks[i])) +
    seq(|n.dependencies|, i requires 0 <= i < |n.dependencies| => DependencyDeclaration(n.dependencies[i])) +
    seq(|n.runLevels|, i requires 0 <= i < |n.runLevels| => RunLevelDeclaration(n.runLevels[i]))
  }

  lemma TaskComesFirst(n: TopLevelNode)
    requires n.tasks != []
    ensures var ds := DeclarationsOf(n);
      && ds != [] && ds[0] == TaskDeclaration(n.tasks[0])
      && ds[1..] == DeclarationsOf(n.(tasks := n.tasks[1..]))
  {
  }

  lemma DependencyComesFirst(n: TopLevelNode)
    requires n.tasks == [] && n.dependencies != []
    ensures var ds := DeclarationsOf(n);
      && ds != [] && ds[0] == DependencyDeclaration(n.dependencies[0])
      && ds[1..] == DeclarationsOf(n.(dependencies := n.dependencies[1..]))
  {
  }

  lemma RunLevelComesFirst(n: TopLevelNode)
    requires n.tasks == [] && n.dependencies == [] && n.runLevels != []
    ensures var ds := DeclarationsOf(n);
      && ds != [] && ds[0] == RunLevelDeclaration(n.runLevels[0])
      && ds[1..] == DeclarationsOf(n.(runLevels := n.runLevels[1..]))
  {
  }

  lemma {:induction false} DeclarationsInterleave(n: TopLevelNode)
    ensures Interleaves(DeclarationsOf(n), n)
    decreases |n.tasks| + |n.dependencies| + |n.runLevels|
  {
    if n.tasks != [] {
      TaskComesFirst(n);
      DeclarationsInterleave(n.(tasks := n.tasks[1..]));
    } else if n.dependencies != [] {
      DependencyComesFirst(n);
      DeclarationsInterleave(n.(dependencies := n.dependencies[1..]));
    } else if n.runLevels != [] {
      RunLevelComesFirst(n);
      DeclarationsInterleave(n.(runLevels := n.runLevels[1..]));
    }
  }

  lemma TreeSpellable(n: TopLevelNode)
    requires WholeTree(n) && SpellableTree(n)
    ensures WholeFile(DeclarationsOf(n)) && SpellableFile(DeclarationsOf(n))
  {
    hide WholeDeclaration, SpellableDeclaration;
    var ds, t, d := DeclarationsOf(n), |n.tasks|, |n.dependencies|;
    forall i | 0 <= i < |ds| ensures WholeDeclaration(ds[i]) && SpellableDeclaration(ds[i]) {
      if i < t {
        assert ds[i] == TaskDeclaration(n.tasks[i]);
      } else if i < t + d {
        assert ds[i] == DependencyDeclaration(n.dependencies[i - t]);
      } else {
        assert ds[i] == RunLevelDeclaration(n.runLevels[i - t - d]);
      }
    }
  }

  /** Every whole tree whose names are words and no keywords, and whose numbers fit, has a text
      that reads as the tree. */
  lemma TreeHasText(n: TopLevelNode)
    requires WholeTree(n) && SpellableTree(n)
    ensures exists text :: ReadsTree(text, n)
  {
    hide Reads, Complaints, Interleaves, DeclarationsOf, WholeTree, SpellableFile;
    DeclarationsInterleave(n);
    TreeSpellable(n);
    FileHasText(DeclarationsOf(n));
    var text :| Lexable(text, 0) && Complaints(text, 0) == [] && Reads(text, DeclarationsOf(n));
    assert ReadsTree(text, n);
  }

  /** The positions of the complaints increase, and there is at most one for each token and one
      for the end of the text. */
  lemma ErrorsIncrease(t: string, ls: seq<Lexeme>, log: seq<Complaint>, errors: seq<ErrorTag>)
    requires InOrder(t, 0, ls) && Placed(t, ls, log, errors) && Ordered(log)
    ensures forall i, j :: 0 <= i < j < |errors| ==> errors[i].place < errors[j].place
    ensures |errors| <= |ls| + 1
  {
    hide InOrder, Place;
    forall i, j | 0 <= i < j < |errors| ensures errors[i].place < errors[j].place {
      PlacesIncrease(t, ls, log[i].at, log[j].at);
    }
    if log != [] {
      OrderedBound(log, |log| - 1);
    }
  }

  lemma {:induction false} OrderedBound(log: seq<Complaint>, i: nat)
    requires Ordered(log) && i < |log|
    ensures i <= log[i].at
  {
    if i > 0 {
      OrderedBound(log, i - 1);
    }
  }

  lemma TreeIsOnly(text: string, tree: TopLevelNode, n: TopLevelNode)
    requires Lexable(text, 0) && ReadsTree(text, n)
    requires Interleaves(ParseDeclarations(Tokens(Lexemes(text, 0)), START).1, tree)
    ensures tree == n && ParseDeclarations(Tokens(Lexemes(text, 0)), START).0.errors == []
  {
    hide Interleaves, ParseDeclarations, Lexemes;
    var ds :| Interleaves(ds, n) && Reads(text, ds);
    CollectExactly(ds, n);
    CollectExactly(ds, tree);
  }

  /** Reads a whole file, as `read_descriptions` does before it looks at the tree. What
      `ExactAcceptance`, `FirstComplaintIsNotLate` and `RoundTrip` say about `ParseDeclarations`
      they say about this tree and these errors. */
  method ReadTree(text: string) returns (tree: TopLevelNode, lexErrors: seq<LexError>, errors: seq<ErrorTag>)
    requires Lexable(text, 0)
    ensures var ls := Lexemes(text, 0);
      var r := ParseDeclarations(Tokens(ls), START);
      && Interleaves(r.1, tree) && lexErrors == Complaints(text, 0)
      && InOrder(text, 0, ls) && Placed(text, ls, r.0.errors, errors)
    ensures forall i, j :: 0 <= i < j < |errors| ==> errors[i].place < errors[j].place
    ensures |errors| <= |Lexemes(text, 0)| + 1
    ensures forall n :: ReadsTree(text, n) ==> tree == n && lexErrors == [] && errors == []
  {
    hide Interleaves, ReadsTree, Lexable, Lexemes, Complaints, ParseDeclarations, InOrder, Placed, Ordered;
    hide ParserContext.Valid, ParserContext.View, ParserContext.Reading;
    TokensInOrder(text, 0);
    var lex := new Lexer(text);
    var parser := new ParserContext(lex);
    tree := parser.ParseFile();
    parser.AtTheEnd();
    lexErrors, errors := lex.errors, parser.errors;
    ErrorsIncrease(text, parser.input, parser.log, errors);
    forall n | ReadsTree(text, n) ensures tree == n && lexErrors == [] && errors == [] {
      TreeIsOnly(text, tree, n);
      NothingComplained(text, parser.input, parser.log, errors, n);
    }
  }

  lemma NothingComplained(t: string, ls: seq<Lexeme>, log: seq<Complaint>, errors: seq<ErrorTag>, n: TopLevelNode)
    requires InOrder(t, 0, ls) && Placed(t, ls, log, errors) && ReadsTree(t, n)
    ensures Complaints(t, 0) == [] && (log == [] ==> errors == [])
  {
    hide InOrder, Complaints, Interleaves, Reads;
  }
}
