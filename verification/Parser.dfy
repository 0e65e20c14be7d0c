/** The parser as a class over the lexer. It computes what `Parsing` says, and it places the
    complaint about a token at the end of the text that comes before the token. */
module ConfigParser {
  import opened Wrappers
  import opened Lexing
  import opened LexingTheorems
  import opened ConfigLexer
  import opened Parsing

  datatype ErrorTag = ErrorTag(place: nat, message: string)

  // ---- Places ----------------------------------------------------------------------------

  /** `p` moved back over white space. */
  function TrimmedBack(t: string, p: nat): (q: nat)
    requires p <= |t|
    ensures q <= p && (forall i :: q <= i < p ==> IsWhite(t[i])) && (q > 0 ==> !IsWhite(t[q - 1]))
  {
    if p > 0 && IsWhite(t[p - 1]) then TrimmedBack(t, p - 1) else p
  }

  /** Where token `k` begins; the number of tokens stands for the end of the text. */
  function StartOf(t: string, ls: seq<Lexeme>, k: nat): (p: nat)
    requires k <= |ls| && InOrder(t, 0, ls)
    ensures p <= |t|
  {
    if k == |ls| then |t| else ls[k].start
  }

  /** Where a complaint about token `k` is put: before the white space in front of it, and so
      behind a character that is not white or at the start of the text. */
  function Place(t: string, ls: seq<Lexeme>, k: nat): (q: nat)
    requires k <= |ls| && InOrder(t, 0, ls)
    ensures q <= StartOf(t, ls, k)
    ensures forall i :: q <= i < StartOf(t, ls, k) ==> t[i] <= ' '
    ensures q > 0 ==> t[q - 1] > ' '
  {
    TrimmedBack(t, StartOf(t, ls, k))
  }

  /** Different tokens have different places, in the same order. */
  lemma PlacesIncrease(t: string, ls: seq<Lexeme>, j: nat, k: nat)
    requires j < k <= |ls| && InOrder(t, 0, ls)
    ensures Place(t, ls, j) <= ls[j].start < Place(t, ls, k)
  {
    var p := if k == |ls| then |t| else ls[k].start;
    var q := Place(t, ls, k);
    assert ls[j].start < p;
    assert !IsWhite(t[ls[j].start]);
  }

  /** The complaints `log` as the program keeps them. */
  ghost predicate Placed(t: string, ls: seq<Lexeme>, log: seq<Complaint>, errors: seq<ErrorTag>)
    requires InOrder(t, 0, ls)
  {
    && |errors| == |log|
    && forall i :: 0 <= i < |log| ==>
      log[i].at <= |ls| && errors[i] == ErrorTag(Place(t, ls, log[i].at), log[i].message)
  }

  lemma PlacedOneMore(t: string, ls: seq<Lexeme>, log: seq<Complaint>, errors: seq<ErrorTag>, c: Complaint)
    requires InOrder(t, 0, ls) && Placed(t, ls, log, errors) && c.at <= |ls|
    ensures Placed(t, ls, log + [c], errors + [ErrorTag(Place(t, ls, c.at), c.message)])
  {
    hide InOrder, Place;
  }

  function LastPlaceOf(errors: seq<ErrorTag>): Option<nat> {
    if errors == [] then None else Some(errors[|errors| - 1].place)
  }

  /** The last complaint has the place of token `k` exactly when it is about that token. */
  lemma LastPlaceTells(t: string, ls: seq<Lexeme>, log: seq<Complaint>, errors: seq<ErrorTag>, k: nat)
    requires InOrder(t, 0, ls) && Placed(t, ls, log, errors) && k <= |ls|
    requires log != [] ==> log[|log| - 1].at <= k
    ensures LastPlaceOf(errors) == Some(Place(t, ls, k)) <==> log != [] && log[|log| - 1].at == k
  {
    hide InOrder, Place;
    if log != [] && log[|log| - 1].at < k {
      PlacesIncrease(t, ls, log[|log| - 1].at, k);
    }
  }

  // ---- The parser ------------------------------------------------------------------------

  class ParserContext {
    const lex: Lexer
    var errors: seq<ErrorTag>
    var lastErrorPlace: Option<nat>

    /** All tokens of the text, the lexer's complaints about it, and the parser's complaints
        with the tokens they are about. */
    ghost const input: seq<Lexeme>
    ghost const lexErrors: seq<LexError>
    ghost var log: seq<Complaint>

    ghost predicate Valid()
      reads this, lex
      ensures Valid() ==> Reading() && Ok(Ts(), View())
    {
      && Reading()
      && InOrder(lex.text, 0, input)
      && Ok(Ts(), View())
      && Placed(lex.text, input, log, errors)
      && lastErrorPlace == LastPlaceOf(errors)
    }

    /** The lexer still has the last tokens of the input to give. */
    ghost predicate Reading()
      reads lex
    {
      && lex.Valid()
      && lex.AllErrors() == lexErrors
      && |lex.Rest()| <= |input|
      && lex.Rest() == input[|input| - |lex.Rest()|..]
    }

    ghost function Position(): nat
      reads lex
      requires Reading()
    {
      |input| - |lex.Rest()|
    }

    ghost function Ts(): seq<Token> { Tokens(input) }

    ghost function View(): State
      reads this, lex
      requires Reading()
    {
      State(Position(), log)
    }

    constructor (lex: Lexer)
      requires lex.Valid() && InOrder(lex.text, 0, lex.Rest())
      ensures Valid() && this.lex == lex && errors == []
      ensures input == lex.Rest() && lexErrors == lex.AllErrors() && View() == START
    {
      this.lex := lex;
      errors := [];
      lastErrorPlace := None;
      input := lex.Rest();
      lexErrors := lex.AllErrors();
      log := [];
    }

    /** The type of the next token, with the token itself. */
    function Tt(): (t: Option<Token>)
      reads this, lex
      requires Valid()
      ensures t.None? <==> Eof(Ts(), View())
      ensures t.Some? ==> Sees(Ts(), View(), t.value)
    {
      if lex.EofToken() then None else Some(lex.PeekToken().token)
    }

    method ReadToken()
      requires Valid() && !Eof(Ts(), View())
      modifies lex
      ensures Valid() && View() == Advance(old(View())) && errors == old(errors)
    {
      var _ := lex.ReadToken();
    }

    method ErrorPlace() returns (pos: nat)
      requires Valid()
      ensures pos == Place(lex.text, input, Position())
    {
      if lex.EofToken() {
        pos := |lex.text|;
      } else {
        pos := lex.PeekToken().start;
      }
      ghost var start := pos;
      while pos > 0 && IsWhite(lex.text[pos - 1])
        invariant start <= |lex.text| && pos <= |lex.text|
        invariant TrimmedBack(lex.text, pos) == TrimmedBack(lex.text, start)
      {
        pos := pos - 1;
      }
    }

    method Error(message: string)
      requires Valid()
      modifies this
      ensures Valid() && View() == Report(old(View()), message)
    {
      hide InOrder, Place, Placed, Reading, Position;
      var pos := ErrorPlace();
      PositionInside();
      LastPlaceTells(lex.text, input, log, errors, Position());
      if lastErrorPlace != Some(pos) {
        PlacedOneMore(lex.text, input, log, errors, Complaint(Position(), message));
        errors := errors + [ErrorTag(pos, message)];
        log := log + [Complaint(Position(), message)];
        lastErrorPlace := Some(pos);
      }
    }

    lemma PositionInside()
      requires Reading()
      ensures Position() <= |input|
    {
    }

    /** What is left when all tokens have been read. */
    lemma AtTheEnd()
      requires Valid() && Eof(Ts(), View())
      ensures lex.errors == lexErrors && View().errors == log && Ordered(log)
      ensures Placed(lex.text, input, log, errors)
    {
      hide InOrder, Placed, Ordered;
      assert lex.Rest() == [];
    }

    // ---- Tokens --------------------------------------------------------------------------

    method ExpectToken(t: Token) returns (found: bool)
      requires Valid() && !t.Identifier?
      modifies this, lex
      ensures Valid() && (View(), found) == Expect(Ts(), old(View()), t)
    {
      hide Reading, Position, Placed, InOrder, Ok;
      if Tt() == Some(t) {
        ReadToken();
        found := true;
      } else {
        Error(Missing(t));
        found := false;
      }
    }

    method ExpectIdentifierToken(message: string) returns (name: Option<string>)
      requires Valid()
      modifies this, lex
      ensures Valid() && (View(), name) == ExpectIdentifier(Ts(), old(View()), message)
    {
      hide Reading, Position, Placed, InOrder, Ok;
      match Tt() {
        case Some(Identifier(text)) =>
          name := Some(text);
          ReadToken();
        case _ =>
          Error(message);
          name := None;
      }
    }

    // ---- Values --------------------------------------------------------------------------

    method ParseValue() returns (v: Option<Value>)
      requires Valid()
      modifies this, lex
      ensures Valid() && (View(), v) == Parsing.ParseValue(Ts(), old(View()))
      decreases |Ts()| - View().k, 0
    {
      hide Reading, Position, Placed, InOrder, Ok;
      match Tt() {
        case Some(IntegerLiteral(n)) =>
          ReadToken();
          v := Some(IntegerNode(n));
        case Some(StringLiteral(s)) =>
          ReadToken();
          v := Some(StringNode(s));
        case Some(TrueKeyword) =>
          ReadToken();
          v := Some(BooleanNode(true));
        case Some(FalseKeyword) =>
          ReadToken();
          v := Some(BooleanNode(false));
        case Some(Identifier(tag)) =>
          ReadToken();
          if Tt() != Some(LBrace) {
            return Some(PseudoIdentifierNode(tag));
          }
          ReadToken();
          var properties := ParsePropertyList();
          var _ := ExpectToken(RBrace);
          v := Some(StructNode(tag, properties));
        case _ =>
          Error("expected value");
          v := None;
      }
    }

    /** The loop of `parse_value` over the properties of a struct. */
    method ParsePropertyList() returns (properties: seq<Property>)
      requires Valid()
      modifies this, lex
      ensures Valid() && (View(), properties) == ParseProperties(Ts(), old(View()))
      decreases |Ts()| - View().k, 1
    {
      hide Valid, Tt, Reading, Position, View, Ok, ParseProperties, ParseProperty, Expect, Report;
      properties := [];
      OntoNothing(ParseProperties(Ts(), View()));
      while true
        invariant Valid() && old(View()).k <= View().k
        invariant Onto(properties, ParseProperties(Ts(), View())) == ParseProperties(Ts(), old(View()))
        decreases |Ts()| - View().k
      {
        PropertiesTurn(Ts(), View(), properties);
        match Tt() {
          case None => break;
          case Some(RBrace) => break;
          case Some(Identifier(_)) =>
            var p := ParseOneProperty();
            properties := properties + Listed(p);
            if Tt() != Some(RBrace) {
              var _ := ExpectToken(Comma);
            }
          case _ =>
            Error("expected property");
            ReadToken();
        }
      }
    }

    method ParseOneProperty() returns (p: Option<Property>)
      requires Valid() && SeesIdentifier(Ts(), View())
      modifies this, lex
      ensures Valid() && (View(), p) == ParseProperty(Ts(), old(View()))
      decreases |Ts()| - View().k, 0
    {
      hide Reading, Position, Placed, InOrder, Ok;
      var key := Tt().value.text;
      ReadToken();
      var eq := ExpectToken(Equals);
      var value := ParseValue();
      p := if eq then Some(Property(key, value)) else None;
    }

    // ---- Declarations --------------------------------------------------------------------

    method ParseTaskDeclaration() returns (task: Option<TaskNode>)
      requires Valid() && Sees(Ts(), View(), TaskKeyword)
      modifies this, lex
      ensures Valid() && (View(), task) == ParseTask(Ts(), old(View()))
    {
      hide Reading, Position, Placed, InOrder, Ok;
      ReadToken();
      var name := ExpectIdentifierToken("expected task name");
      var eq := ExpectToken(Equals);
      var value := ParseValue();
      var _ := ExpectToken(Semicolon);
      task := if name.None? || !eq then None else Some(TaskNode(name.value, value));
    }

    /** The loop that `parse_dependencies_declaration` and `parse_run_level` share. */
    method ParseNameList() returns (names: seq<string>)
      requires Valid()
      modifies this, lex
      ensures Valid() && (View(), names) == ParseNames(Ts(), old(View()))
    {
      hide Valid, Tt, Reading, Position, View, Ok, ParseNames, Report;
      names := [];
      OntoNothing(ParseNames(Ts(), View()));
      while true
        invariant Valid() && old(View()).k <= View().k
        invariant Onto(names, ParseNames(Ts(), View())) == ParseNames(Ts(), old(View()))
        decreases |Ts()| - View().k
      {
        NamesTurn(Ts(), View(), names);
        var id := ExpectIdentifierToken(IDENTIFIER_MISSING);
        names := names + Listed(id);
        match Tt() {
          case None => break;
          case Some(Semicolon) => break;
          case Some(Comma) => ReadToken();
          case _ =>
            if id.None? {
              break;
            }
            Error("expected ',' or ';'");
        }
      }
    }

    method ParseDependenciesDeclaration() returns (n: DependencyNode)
      requires Valid() && SeesIdentifier(Ts(), View())
      modifies this, lex
      ensures Valid() && (View(), n) == ParseDependencies(Ts(), old(View()))
    {
      hide Reading, Position, Placed, InOrder, Ok;
      var name := Tt().value.text;
      ReadToken();
      var _ := ExpectToken(DependsKeyword);
      var dependencies := ParseNameList();
      var _ := ExpectToken(Semicolon);
      n := DependencyNode(name, dependencies);
    }

    method ParseRunLevelDeclaration() returns (n: RunLevelNode)
      requires Valid() && Sees(Ts(), View(), RunLevelKeyword)
      modifies this, lex
      ensures Valid() && (View(), n) == ParseRunLevel(Ts(), old(View()))
    {
      hide Reading, Position, Placed, InOrder, Ok;
      ReadToken();
      var name := ExpectIdentifierToken(IDENTIFIER_MISSING);
      var _ := ExpectToken(Colon);
      var dependencies := ParseNameList();
      var _ := ExpectToken(Semicolon);
      n := RunLevelNode(name, dependencies);
    }

    method ParseFile() returns (tree: TopLevelNode)
      requires Valid()
      modifies this, lex
      ensures Valid() && Eof(Ts(), View())
      ensures var r := ParseDeclarations(Ts(), old(View()));
        View() == r.0 && tree == Collect(r.1) && Interleaves(r.1, tree)
    {
      hide Valid, Tt, Reading, Position, View, Ok, Report;
      hide ParseDeclarations, ParseTask, ParseDependencies, ParseRunLevel;
      hide FileOnto, Collect, TopLevelNode.Then, Interleaves;
      var tasks, dependencies, runLevels := [], [], [];
      ghost var r := ParseDeclarations(Ts(), View());
      FileOntoNothing(r);
      ghost var all := (r.0, Collect(r.1));
      while true
        invariant Valid() && old(View()).k <= View().k
        invariant FileOnto(TopLevelNode(tasks, dependencies, runLevels), ParseDeclarations(Ts(), View())) == all
        decreases |Ts()| - View().k
      {
        DeclarationsTurn(Ts(), View(), TopLevelNode(tasks, dependencies, runLevels));
        match Tt() {
          case None => break;
          case Some(TaskKeyword) =>
            var n := ParseTaskDeclaration();
            tasks := tasks + Listed(n);
          case Some(Identifier(_)) =>
            var n := ParseDependenciesDeclaration();
            dependencies := dependencies + [n];
          case Some(RunLevelKeyword) =>
            var n := ParseRunLevelDeclaration();
            runLevels := runLevels + [n];
          case _ =>
            Error("expected declaration");
            ReadToken();
        }
      }
      tree := TopLevelNode(tasks, dependencies, runLevels);
      CollectExactly(r.1, tree);
    }
  }
}
