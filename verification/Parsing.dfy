/** What the parser makes of a row of tokens, as functions.

    The parser looks one token ahead and never gives up: every function here returns the place
    it has come to, the complaints so far and whatever tree it could build. A complaint is about
    the token under the eye, or about the end of the text, and a second one about the same token
    is dropped. */
module Parsing {
  import opened Wrappers
  import opened Lexing

  // ---- Trees -----------------------------------------------------------------------------

  /** A node keeps the texts of its tokens. `None` stands for a null pointer, which is left
      where a value or a name could not be read. */
  datatype Value =
    | IntegerNode(number: int)
    | StringNode(text: string)
    | BooleanNode(flag: bool)
    | PseudoIdentifierNode(name: string)
    | StructNode(tag: string, properties: seq<Property>)

  datatype Property = Property(key: string, value: Option<Value>)

  datatype TaskNode = TaskNode(name: string, value: Option<Value>)

  datatype DependencyNode = DependencyNode(dependant: string, dependencies: seq<string>)

  datatype RunLevelNode = RunLevelNode(name: Option<string>, dependencies: seq<string>)

  datatype TopLevelNode = TopLevelNode(
    tasks: seq<TaskNode>,
    dependencies: seq<DependencyNode>,
    runLevels: seq<RunLevelNode>)
  {
    function Then(n: TopLevelNode): TopLevelNode {
      TopLevelNode(tasks + n.tasks, dependencies + n.dependencies, runLevels + n.runLevels)
    }

    function With(d: Declaration): TopLevelNode {
      match d
      case TaskDeclaration(task) => this.(tasks := tasks + [task])
      case DependencyDeclaration(dependency) => this.(dependencies := dependencies + [dependency])
      case RunLevelDeclaration(runLevel) => this.(runLevels := runLevels + [runLevel])
    }
  }

  // ---- State -----------------------------------------------------------------------------

  /** A complaint about token `at`; the number of tokens stands for the end of the text. */
  datatype Complaint = Complaint(at: nat, message: string)

  datatype State = State(k: nat, errors: seq<Complaint>)

  const START := State(0, [])

  /** Complaints come in the order of their tokens, at most one about each. */
  ghost predicate Ordered(es: seq<Complaint>) {
    forall i, j :: 0 <= i < j < |es| ==> es[i].at < es[j].at
  }

  ghost predicate Ok(ts: seq<Token>, s: State) {
    && s.k <= |ts|
    && Ordered(s.errors)
    && (forall i :: 0 <= i < |s.errors| ==> s.errors[i].at <= s.k)
  }

  /** From `s` to `s'` tokens are only consumed and complaints only added; the first new one, and
      so every new one, is about a token from `s` on. */
  ghost predicate Leads(ts: seq<Token>, s: State, s': State) {
    && Ok(ts, s')
    && s.k <= s'.k
    && s.errors <= s'.errors
    && (|s.errors| < |s'.errors| ==> s.k <= s'.errors[|s.errors|].at)
  }

  predicate Eof(ts: seq<Token>, s: State) { s.k >= |ts| }

  /** The next token is `t`. */
  predicate Sees(ts: seq<Token>, s: State, t: Token) { s.k < |ts| && ts[s.k] == t }

  predicate SeesIdentifier(ts: seq<Token>, s: State) { s.k < |ts| && ts[s.k].Identifier? }

  function Advance(s: State): State { s.(k := s.k + 1) }

  function Report(s: State, message: string): (r: State)
    ensures r.k == s.k
  {
    if s.errors != [] && s.errors[|s.errors| - 1].at == s.k then s
    else s.(errors := s.errors + [Complaint(s.k, message)])
  }

  lemma AdvanceLeads(ts: seq<Token>, s: State)
    requires Ok(ts, s) && !Eof(ts, s)
    ensures Leads(ts, s, Advance(s))
  {
  }

  lemma ReportLeads(ts: seq<Token>, s: State, message: string)
    requires Ok(ts, s)
    ensures Leads(ts, s, Report(s, message))
  {
  }

  // ---- Tokens ----------------------------------------------------------------------------

  /** The complaint when a simple token is missing. */
  function Missing(t: Token): string {
    match t
    case LBrace => "expected '{'"
    case RBrace => "expected '}'"
    case Equals => "expected '='"
    case Semicolon => "expected ';'"
    case Comma => "expected ','"
    case Colon => "expected ':'"
    case DependsKeyword => "expected 'depends' keyword"
    case _ => ""
  }

  function Expect(ts: seq<Token>, s: State, t: Token): (r: (State, bool))
    requires Ok(ts, s)
    ensures Leads(ts, s, r.0) && (r.1 <==> Sees(ts, s, t)) && (r.1 <==> r.0 == Advance(s))
  {
    if Sees(ts, s, t) then (Advance(s), true) else (Report(s, Missing(t)), false)
  }

  function ExpectIdentifier(ts: seq<Token>, s: State, message: string): (r: (State, Option<string>))
    requires Ok(ts, s)
    ensures Leads(ts, s, r.0)
    ensures (r.1.Some? <==> SeesIdentifier(ts, s)) && (r.1.Some? ==> r.0 == Advance(s))
  {
    if SeesIdentifier(ts, s) then (Advance(s), Some(ts[s.k].text)) else (Report(s, message), None)
  }

  const IDENTIFIER_MISSING := "expected identifier"

  // ---- Values ----------------------------------------------------------------------------

  function ParseValue(ts: seq<Token>, s: State): (r: (State, Option<Value>))
    requires Ok(ts, s)
    ensures Leads(ts, s, r.0)
    decreases |ts| - s.k, 0
  {
    if Eof(ts, s) then (Report(s, "expected value"), None)
    else match ts[s.k]
      case IntegerLiteral(n) => (Advance(s), Some(IntegerNode(n)))
      case StringLiteral(v) => (Advance(s), Some(StringNode(v)))
      case TrueKeyword => (Advance(s), Some(BooleanNode(true)))
      case FalseKeyword => (Advance(s), Some(BooleanNode(false)))
      case Identifier(x) =>
        var s1 := Advance(s);
        if !Sees(ts, s1, LBrace) then (s1, Some(PseudoIdentifierNode(x)))
        else
          var (s2, ps) := ParseProperties(ts, Advance(s1));
          (Expect(ts, s2, RBrace).0, Some(StructNode(x, ps)))
      case _ => (Report(s, "expected value"), None)
  }

  /** The loop inside the braces of a struct. */
  function ParseProperties(ts: seq<Token>, s: State): (r: (State, seq<Property>))
    requires Ok(ts, s)
    ensures Leads(ts, s, r.0) && (Eof(ts, r.0) || Sees(ts, r.0, RBrace))
    decreases |ts| - s.k, 1
  {
    if Eof(ts, s) || Sees(ts, s, RBrace) then (s, [])
    else if SeesIdentifier(ts, s) then
      var (s1, p) := ParseProperty(ts, s);
      var s2 := if Sees(ts, s1, RBrace) then s1 else Expect(ts, s1, Comma).0;
      var (s3, ps) := ParseProperties(ts, s2);
      (s3, Listed(p) + ps)
    else
      ParseProperties(ts, Advance(Report(s, "expected property")))
  }

  function ParseProperty(ts: seq<Token>, s: State): (r: (State, Option<Property>))
    requires Ok(ts, s) && SeesIdentifier(ts, s)
    ensures Leads(ts, s, r.0) && s.k < r.0.k
    decreases |ts| - s.k, 0
  {
    var (s1, eq) := Expect(ts, Advance(s), Equals);
    var (s2, v) := ParseValue(ts, s1);
    (s2, if eq then Some(Property(ts[s.k].text, v)) else None)
  }

  function Listed<T>(x: Option<T>): seq<T> {
    match x case None => [] case Some(v) => [v]
  }

  // ---- Declarations ----------------------------------------------------------------------

  function ParseTask(ts: seq<Token>, s: State): (r: (State, Option<TaskNode>))
    requires Ok(ts, s) && Sees(ts, s, TaskKeyword)
    ensures Leads(ts, s, r.0) && s.k < r.0.k
  {
    var (s1, name) := ExpectIdentifier(ts, Advance(s), "expected task name");
    var (s2, eq) := Expect(ts, s1, Equals);
    var (s3, v) := ParseValue(ts, s2);
    var (s4, _) := Expect(ts, s3, Semicolon);
    (s4, if name.Some? && eq then Some(TaskNode(name.value, v)) else None)
  }

  /** The loop over a list of names that a semicolon ends. */
  function ParseNames(ts: seq<Token>, s: State): (r: (State, seq<string>))
    requires Ok(ts, s)
    ensures Leads(ts, s, r.0)
    decreases |ts| - s.k
  {
    var (s1, id) := ExpectIdentifier(ts, s, IDENTIFIER_MISSING);
    if Eof(ts, s1) || Sees(ts, s1, Semicolon) then (s1, Listed(id))
    else if Sees(ts, s1, Comma) then
      var (s2, ids) := ParseNames(ts, Advance(s1));
      (s2, Listed(id) + ids)
    else if id.None? then (s1, [])
    else
      var (s2, ids) := ParseNames(ts, Report(s1, "expected ',' or ';'"));
      (s2, Listed(id) + ids)
  }

  function ParseDependencies(ts: seq<Token>, s: State): (r: (State, DependencyNode))
    requires Ok(ts, s) && SeesIdentifier(ts, s)
    ensures Leads(ts, s, r.0) && s.k < r.0.k
  {
    var (s1, _) := Expect(ts, Advance(s), DependsKeyword);
    var (s2, ids) := ParseNames(ts, s1);
    (Expect(ts, s2, Semicolon).0, DependencyNode(ts[s.k].text, ids))
  }

  function ParseRunLevel(ts: seq<Token>, s: State): (r: (State, RunLevelNode))
    requires Ok(ts, s) && Sees(ts, s, RunLevelKeyword)
    ensures Leads(ts, s, r.0) && s.k < r.0.k
  {
    var (s1, name) := ExpectIdentifier(ts, Advance(s), IDENTIFIER_MISSING);
    var (s2, _) := Expect(ts, s1, Colon);
    var (s3, ids) := ParseNames(ts, s2);
    (Expect(ts, s3, Semicolon).0, RunLevelNode(name, ids))
  }

  /** The loop over the declarations of a file, in the order they are made. */
  datatype Declaration =
    | TaskDeclaration(task: TaskNode)
    | DependencyDeclaration(dependency: DependencyNode)
    | RunLevelDeclaration(runLevel: RunLevelNode)
  {
    function Onto(n: TopLevelNode): TopLevelNode {
      match this
      case TaskDeclaration(task) => n.(tasks := [task] + n.tasks)
      case DependencyDeclaration(dependency) => n.(dependencies := [dependency] + n.dependencies)
      case RunLevelDeclaration(runLevel) => n.(runLevels := [runLevel] + n.runLevels)
    }
  }

  function ParseDeclarations(ts: seq<Token>, s: State): (r: (State, seq<Declaration>))
    requires Ok(ts, s)
    ensures Leads(ts, s, r.0) && Eof(ts, r.0)
    decreases |ts| - s.k
  {
    hide Ok, Report, ParseTask, ParseDependencies, ParseRunLevel;
    if Eof(ts, s) then (s, [])
    else if Sees(ts, s, TaskKeyword) then
      var (s1, n) := ParseTask(ts, s);
      var (s2, ds) := ParseDeclarations(ts, s1);
      (s2, (if n.Some? then [TaskDeclaration(n.value)] else []) + ds)
    else if SeesIdentifier(ts, s) then
      var (s1, n) := ParseDependencies(ts, s);
      var (s2, ds) := ParseDeclarations(ts, s1);
      (s2, [DependencyDeclaration(n)] + ds)
    else if Sees(ts, s, RunLevelKeyword) then
      var (s1, n) := ParseRunLevel(ts, s);
      var (s2, ds) := ParseDeclarations(ts, s1);
      (s2, [RunLevelDeclaration(n)] + ds)
    else
      ReportLeads(ts, s, "expected declaration");
      AdvanceLeads(ts, Report(s, "expected declaration"));
      ParseDeclarations(ts, Advance(Report(s, "expected declaration")))
  }

  /** The tree of a file keeps the three kinds of declarations apart. */
  function Collect(ds: seq<Declaration>): TopLevelNode {
    if ds == [] then TopLevelNode([], [], [])
    else ds[0].Onto(Collect(ds[1..]))
  }

  /** `ds` is made up of the three lists of the tree, in any interleaving: each kind keeps its order
      and nothing else is there. */
  predicate Interleaves(ds: seq<Declaration>, n: TopLevelNode)
    decreases |ds|
  {
    if ds == [] then n.tasks == [] && n.dependencies == [] && n.runLevels == []
    else match ds[0]
      case TaskDeclaration(task) =>
        n.tasks != [] && n.tasks[0] == task && Interleaves(ds[1..], n.(tasks := n.tasks[1..]))
      case DependencyDeclaration(dependency) =>
        n.dependencies != [] && n.dependencies[0] == dependency
        && Interleaves(ds[1..], n.(dependencies := n.dependencies[1..]))
      case RunLevelDeclaration(runLevel) =>
        n.runLevels != [] && n.runLevels[0] == runLevel
        && Interleaves(ds[1..], n.(runLevels := n.runLevels[1..]))
  }

  /** The tree of a file is the only one whose lists the declarations interleave. */
  lemma {:induction false} CollectExactly(ds: seq<Declaration>, n: TopLevelNode)
    ensures Interleaves(ds, n) <==> n == Collect(ds)
    decreases |ds|
  {
    if ds != [] {
      var rest := Collect(ds[1..]);
      match ds[0]
      case TaskDeclaration(task) =>
        if n.tasks != [] {
          CollectExactly(ds[1..], n.(tasks := n.tasks[1..]));
          assert n.tasks == [n.tasks[0]] + n.tasks[1..];
        }
        assert ([task] + rest.tasks)[1..] == rest.tasks;
      case DependencyDeclaration(dependency) =>
        if n.dependencies != [] {
          CollectExactly(ds[1..], n.(dependencies := n.dependencies[1..]));
          assert n.dependencies == [n.dependencies[0]] + n.dependencies[1..];
        }
        assert ([dependency] + rest.dependencies)[1..] == rest.dependencies;
      case RunLevelDeclaration(runLevel) =>
        if n.runLevels != [] {
          CollectExactly(ds[1..], n.(runLevels := n.runLevels[1..]));
          assert n.runLevels == [n.runLevels[0]] + n.runLevels[1..];
        }
        assert ([runLevel] + rest.runLevels)[1..] == rest.runLevels;
    }
  }

  lemma {:induction false} InterleavedSizes(ds: seq<Declaration>, n: TopLevelNode)
    requires Interleaves(ds, n)
    ensures |n.tasks| + |n.dependencies| + |n.runLevels| == |ds|
    decreases |ds|
  {
    if ds != [] {
      match ds[0]
      case TaskDeclaration(_) => InterleavedSizes(ds[1..], n.(tasks := n.tasks[1..]));
      case DependencyDeclaration(_) => InterleavedSizes(ds[1..], n.(dependencies := n.dependencies[1..]));
      case RunLevelDeclaration(_) => InterleavedSizes(ds[1..], n.(runLevels := n.runLevels[1..]));
    }
  }

  // ---- The loops, one turn at a time -----------------------------------------------------

  /** The result of a loop that has gathered `before` already. */
  function Onto<T>(before: seq<T>, r: (State, seq<T>)): (State, seq<T>) { (r.0, before + r.1) }

  lemma OntoNothing<T>(r: (State, seq<T>))
    ensures Onto([], r) == r
  {
    assert [] + r.1 == r.1;
  }

  lemma OntoNothingLeft<T>(before: seq<T>, r: (State, seq<T>))
    requires r.1 == []
    ensures Onto(before, r) == (r.0, before)
  {
    assert before + r.1 == before;
  }

  lemma OntoMore<T>(before: seq<T>, more: seq<T>, r: (State, seq<T>))
    ensures Onto(before, (r.0, more + r.1)) == Onto(before + more, r)
  {
    assert before + (more + r.1) == before + more + r.1;
  }

  lemma NamesTurn(ts: seq<Token>, s: State, before: seq<string>)
    requires Ok(ts, s)
    ensures Onto(before, ParseNames(ts, s)) ==
      var (s1, id) := ExpectIdentifier(ts, s, IDENTIFIER_MISSING);
      var now := before + Listed(id);
      if Eof(ts, s1) || Sees(ts, s1, Semicolon) then (s1, now)
      else if Sees(ts, s1, Comma) then Onto(now, ParseNames(ts, Advance(s1)))
      else if id.None? then (s1, now)
      else Onto(now, ParseNames(ts, Report(s1, "expected ',' or ';'")))
  {
    hide Ok, Report, SeesIdentifier;
    var (s1, id) := ExpectIdentifier(ts, s, IDENTIFIER_MISSING);
    ReportLeads(ts, s1, "expected ',' or ';'");
    if Eof(ts, s1) || Sees(ts, s1, Semicolon) {
    } else if Sees(ts, s1, Comma) {
      AdvanceLeads(ts, s1);
      OntoMore(before, Listed(id), ParseNames(ts, Advance(s1)));
    } else if id.None? {
      OntoNothingLeft(before, (s1, []));
      OntoNothingLeft(before, (s1, Listed(id)));
    } else {
      OntoMore(before, Listed(id), ParseNames(ts, Report(s1, "expected ',' or ';'")));
    }
  }

  lemma PropertiesTurn(ts: seq<Token>, s: State, before: seq<Property>)
    requires Ok(ts, s)
    ensures Onto(before, ParseProperties(ts, s)) ==
      if Eof(ts, s) || Sees(ts, s, RBrace) then (s, before)
      else if SeesIdentifier(ts, s) then
        var (s1, p) := ParseProperty(ts, s);
        var s2 := if Sees(ts, s1, RBrace) then s1 else Expect(ts, s1, Comma).0;
        Onto(before + Listed(p), ParseProperties(ts, s2))
      else Onto(before, ParseProperties(ts, Advance(Report(s, "expected property"))))
  {
    hide Ok, ParseProperty;
    if !Eof(ts, s) && !Sees(ts, s, RBrace) && SeesIdentifier(ts, s) {
      var (s1, p) := ParseProperty(ts, s);
      var s2 := if Sees(ts, s1, RBrace) then s1 else Expect(ts, s1, Comma).0;
      OntoMore(before, Listed(p), ParseProperties(ts, s2));
    } else if Eof(ts, s) || Sees(ts, s, RBrace) {
      OntoNothingLeft(before, (s, []));
    }
  }

  function FileOnto(before: TopLevelNode, r: (State, seq<Declaration>)): (State, TopLevelNode) {
    (r.0, before.Then(Collect(r.1)))
  }

  lemma ThenNothing(n: TopLevelNode)
    ensures TopLevelNode([], [], []).Then(n) == n && n.Then(Collect([])) == n
  {
    assert Collect([]) == TopLevelNode([], [], []);
    assert [] + n.tasks == n.tasks && [] + n.dependencies == n.dependencies && [] + n.runLevels == n.runLevels;
    assert n.tasks + [] == n.tasks && n.dependencies + [] == n.dependencies && n.runLevels + [] == n.runLevels;
  }

  lemma FileOntoNothing(r: (State, seq<Declaration>))
    ensures FileOnto(TopLevelNode([], [], []), r) == (r.0, Collect(r.1))
  {
    ThenNothing(Collect(r.1));
  }

  lemma ThenOnto(before: TopLevelNode, d: Declaration, ds: seq<Declaration>)
    ensures before.Then(Collect([d] + ds)) == before.With(d).Then(Collect(ds))
  {
    assert ([d] + ds)[1..] == ds;
    var n := Collect(ds);
    match d
    case TaskDeclaration(t) => assert before.tasks + ([t] + n.tasks) == before.tasks + [t] + n.tasks;
    case DependencyDeclaration(t) =>
      assert before.dependencies + ([t] + n.dependencies) == before.dependencies + [t] + n.dependencies;
    case RunLevelDeclaration(t) =>
      assert before.runLevels + ([t] + n.runLevels) == before.runLevels + [t] + n.runLevels;
  }

  lemma DeclarationsTurn(ts: seq<Token>, s: State, before: TopLevelNode)
    requires Ok(ts, s)
    ensures FileOnto(before, ParseDeclarations(ts, s)) ==
      if Eof(ts, s) then (s, before)
      else if Sees(ts, s, TaskKeyword) then
        var (s1, n) := ParseTask(ts, s);
        FileOnto(before.(tasks := before.tasks + Listed(n)), ParseDeclarations(ts, s1))
      else if SeesIdentifier(ts, s) then
        var (s1, n) := ParseDependencies(ts, s);
        FileOnto(before.With(DependencyDeclaration(n)), ParseDeclarations(ts, s1))
      else if Sees(ts, s, RunLevelKeyword) then
        var (s1, n) := ParseRunLevel(ts, s);
        FileOnto(before.With(RunLevelDeclaration(n)), ParseDeclarations(ts, s1))
      else FileOnto(before, ParseDeclarations(ts, Advance(Report(s, "expected declaration"))))
  {
    hide Ok, ParseTask, ParseDependencies, ParseRunLevel;
    if Eof(ts, s) {
      ThenNothing(before);
    } else if Sees(ts, s, TaskKeyword) {
      var (s1, n) := ParseTask(ts, s);
      var ds := ParseDeclarations(ts, s1).1;
      if n.Some? {
        ThenOnto(before, TaskDeclaration(n.value), ds);
      } else {
        assert [] + ds == ds && before.tasks + Listed(n) == before.tasks;
      }
    } else if SeesIdentifier(ts, s) {
      var (s1, n) := ParseDependencies(ts, s);
      ThenOnto(before, DependencyDeclaration(n), ParseDeclarations(ts, s1).1);
    } else if Sees(ts, s, RunLevelKeyword) {
      var (s1, n) := ParseRunLevel(ts, s);
      ThenOnto(before, RunLevelDeclaration(n), ParseDeclarations(ts, s1).1);
    }
  }
}
