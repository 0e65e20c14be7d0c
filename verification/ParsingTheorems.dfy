/** The language the parser accepts.

    The grammar is stated on spans: `IsValue(ts, i, j, v)` says that the tokens from `i` up to
    `j` derive the tree `v`. The parser makes no complaint about a row of tokens exactly when
    the row derives a list of declarations, and then that list is what it returns. */
module ParsingTheorems {
  import opened Wrappers
  import opened Lexing
  import opened Parsing

  // ---- Grammar ---------------------------------------------------------------------------

  predicate NextIs(ts: seq<Token>, i: nat, t: Token) { i < |ts| && ts[i] == t }

  ghost predicate IsValue(ts: seq<Token>, i: nat, j: nat, v: Value)
    decreases v
  {
    match v
    case IntegerNode(n) => j == i + 1 && NextIs(ts, i, IntegerLiteral(n))
    case StringNode(x) => j == i + 1 && NextIs(ts, i, StringLiteral(x))
    case BooleanNode(b) => j == i + 1 && NextIs(ts, i, if b then TrueKeyword else FalseKeyword)
    case PseudoIdentifierNode(x) => j == i + 1 && NextIs(ts, i, Identifier(x))
    case StructNode(tag, ps) =>
      && i + 3 <= j <= |ts|
      && ts[i] == Identifier(tag) && ts[i + 1] == LBrace && ts[j - 1] == RBrace
      && IsBody(ts, i + 2, j - 1, ps)
  }

  /** Properties with commas between them; one more comma may follow the last. */
  ghost predicate IsBody(ts: seq<Token>, i: nat, j: nat, ps: seq<Property>)
    decreases ps, 0
  {
    if ps == [] then i == j
    else exists m: nat :: IsProperty(ts, i, m, ps[0]) && IsBodyTail(ts, m, j, ps[1..])
  }

  ghost predicate IsBodyTail(ts: seq<Token>, m: nat, j: nat, ps: seq<Property>)
    decreases ps, 1
  {
    if m == j then ps == [] else m < j && NextIs(ts, m, Comma) && IsBody(ts, m + 1, j, ps)
  }

  ghost predicate IsProperty(ts: seq<Token>, i: nat, j: nat, p: Property)
    decreases p
  {
    && p.value.Some?
    && NextIs(ts, i, Identifier(p.key)) && NextIs(ts, i + 1, Equals)
    && IsValue(ts, i + 2, j, p.value.value)
  }

  /** One or more names with commas between them. */
  ghost predicate IsNames(ts: seq<Token>, i: nat, j: nat, ids: seq<string>)
    decreases |ids|
  {
    && ids != [] && NextIs(ts, i, Identifier(ids[0]))
    && if |ids| == 1 then j == i + 1 else NextIs(ts, i + 1, Comma) && IsNames(ts, i + 2, j, ids[1..])
  }

  ghost predicate IsDeclaration(ts: seq<Token>, i: nat, j: nat, d: Declaration) {
    && i < j <= |ts| && ts[j - 1] == Semicolon
    && match d
       case TaskDeclaration(n) =>
         && ts[i] == TaskKeyword && NextIs(ts, i + 1, Identifier(n.name)) && NextIs(ts, i + 2, Equals)
         && n.value.Some? && IsValue(ts, i + 3, j - 1, n.value.value)
       case DependencyDeclaration(n) =>
         && ts[i] == Identifier(n.dependant) && NextIs(ts, i + 1, DependsKeyword)
         && IsNames(ts, i + 2, j - 1, n.dependencies)
       case RunLevelDeclaration(n) =>
         && n.name.Some?
         && ts[i] == RunLevelKeyword && NextIs(ts, i + 1, Identifier(n.name.value)) && NextIs(ts, i + 2, Colon)
         && IsNames(ts, i + 3, j - 1, n.dependencies)
  }

  ghost predicate IsFile(ts: seq<Token>, i: nat, ds: seq<Declaration>)
    decreases |ds|
  {
    if ds == [] then i == |ts|
    else exists j: nat :: IsDeclaration(ts, i, j, ds[0]) && IsFile(ts, j, ds[1..])
  }

  /** The whole row derives the list. */
  ghost predicate Derives(ts: seq<Token>, ds: seq<Declaration>) { IsFile(ts, 0, ds) }

  // ---- No complaint: the tokens derive the tree ------------------------------------------

  lemma {:induction false} ValueSound(ts: seq<Token>, s: State)
    requires Ok(ts, s) && ParseValue(ts, s).0.errors == []
    ensures var r := ParseValue(ts, s);
      r.1.Some? && IsValue(ts, s.k, r.0.k, r.1.value)
    decreases |ts| - s.k, 0
  {
    hide Ordered, ParseProperties, IsBody;
    if SeesIdentifier(ts, s) && Sees(ts, Advance(s), LBrace) {
      PropertiesSound(ts, Advance(Advance(s)));
    }
  }

  lemma {:induction false} PropertiesSound(ts: seq<Token>, s: State)
    requires Ok(ts, s) && ParseProperties(ts, s).0.errors == []
    ensures var r := ParseProperties(ts, s);
      IsBody(ts, s.k, r.0.k, r.1)
    decreases |ts| - s.k, 1
  {
    hide Ordered, ParseProperty, IsProperty;
    if !Eof(ts, s) && !Sees(ts, s, RBrace) && SeesIdentifier(ts, s) {
      PropertySound(ts, s);
      var (s1, p) := ParseProperty(ts, s);
      var s2 := if Sees(ts, s1, RBrace) then s1 else Expect(ts, s1, Comma).0;
      PropertiesSound(ts, s2);
      var (s3, ps) := ParseProperties(ts, s2);
      assert ([p.value] + ps)[1..] == ps;
      assert IsBodyTail(ts, s1.k, s3.k, ps);
    }
  }

  lemma {:induction false} PropertySound(ts: seq<Token>, s: State)
    requires Ok(ts, s) && SeesIdentifier(ts, s) && ParseProperty(ts, s).0.errors == []
    ensures var r := ParseProperty(ts, s);
      r.1.Some? && IsProperty(ts, s.k, r.0.k, r.1.value)
    decreases |ts| - s.k, 0
  {
    ValueSound(ts, Expect(ts, Advance(s), Equals).0);
  }

  lemma {:induction false} NamesSound(ts: seq<Token>, s: State)
    requires Ok(ts, s) && ParseNames(ts, s).0.errors == []
    ensures var r := ParseNames(ts, s);
      IsNames(ts, s.k, r.0.k, r.1)
    decreases |ts| - s.k
  {
    var (s1, id) := ExpectIdentifier(ts, s, IDENTIFIER_MISSING);
    if Sees(ts, s1, Comma) {
      NamesSound(ts, Advance(s1));
      var ids := ParseNames(ts, Advance(s1)).1;
      assert ([id.value] + ids)[1..] == ids;
    }
  }

  lemma {:induction false} DeclarationsSound(ts: seq<Token>, s: State)
    requires Ok(ts, s) && ParseDeclarations(ts, s).0.errors == []
    ensures IsFile(ts, s.k, ParseDeclarations(ts, s).1)
    decreases |ts| - s.k
  {
    if Eof(ts, s) {
    } else if Sees(ts, s, TaskKeyword) {
      var (s1, n) := ParseTask(ts, s);
      DeclarationsSound(ts, s1);
      TaskSound(ts, s);
      var rest := ParseDeclarations(ts, s1).1;
      assert ([TaskDeclaration(n.value)] + rest)[1..] == rest;
    } else if SeesIdentifier(ts, s) {
      var (s1, n) := ParseDependencies(ts, s);
      DeclarationsSound(ts, s1);
      DependenciesSound(ts, s);
      var rest := ParseDeclarations(ts, s1).1;
      assert ([DependencyDeclaration(n)] + rest)[1..] == rest;
    } else if Sees(ts, s, RunLevelKeyword) {
      var (s1, n) := ParseRunLevel(ts, s);
      DeclarationsSound(ts, s1);
      RunLevelSound(ts, s);
      var rest := ParseDeclarations(ts, s1).1;
      assert ([RunLevelDeclaration(n)] + rest)[1..] == rest;
    }
  }

  lemma TaskSound(ts: seq<Token>, s: State)
    requires Ok(ts, s) && Sees(ts, s, TaskKeyword) && ParseTask(ts, s).0.errors == []
    ensures var r := ParseTask(ts, s);
      r.1.Some? && IsDeclaration(ts, s.k, r.0.k, TaskDeclaration(r.1.value))
  {
    hide Ordered, ParseValue, IsValue;
    var (s1, name) := ExpectIdentifier(ts, Advance(s), "expected task name");
    var (s2, eq) := Expect(ts, s1, Equals);
    ValueSound(ts, s2);
  }

  lemma DependenciesSound(ts: seq<Token>, s: State)
    requires Ok(ts, s) && SeesIdentifier(ts, s) && ParseDependencies(ts, s).0.errors == []
    ensures var r := ParseDependencies(ts, s);
      IsDeclaration(ts, s.k, r.0.k, DependencyDeclaration(r.1))
  {
    NamesSound(ts, Expect(ts, Advance(s), DependsKeyword).0);
  }

  lemma RunLevelSound(ts: seq<Token>, s: State)
    requires Ok(ts, s) && Sees(ts, s, RunLevelKeyword) && ParseRunLevel(ts, s).0.errors == []
    ensures var r := ParseRunLevel(ts, s);
      IsDeclaration(ts, s.k, r.0.k, RunLevelDeclaration(r.1))
  {
    hide Ordered, ParseNames, IsNames;
    var (s1, name) := ExpectIdentifier(ts, Advance(s), IDENTIFIER_MISSING);
    NamesSound(ts, Expect(ts, s1, Colon).0);
  }

  // ---- Derived tokens: no complaint, and the tree ----------------------------------------

  lemma OkAt(ts: seq<Token>, s: State, k: nat)
    requires Ok(ts, s) && s.k <= k <= |ts|
    ensures Ok(ts, s.(k := k))
  {
  }

  lemma {:induction false} ValueComplete(ts: seq<Token>, s: State, j: nat, v: Value)
    requires Ok(ts, s) && IsValue(ts, s.k, j, v)
    requires v.PseudoIdentifierNode? ==> !NextIs(ts, j, LBrace)
    ensures s.k <= j <= |ts| && ParseValue(ts, s) == (s.(k := j), Some(v))
    decreases v
  {
    hide Ok, Leads, Report;
    if v.StructNode? {
      StructComplete(ts, s, j, v.tag, v.properties);
    } else {
      OkAt(ts, s, j);
    }
  }

  lemma {:induction false} StructComplete(ts: seq<Token>, s: State, j: nat, tag: string, ps: seq<Property>)
    requires Ok(ts, s) && IsValue(ts, s.k, j, StructNode(tag, ps))
    ensures j <= |ts| && ParseValue(ts, s) == (s.(k := j), Some(StructNode(tag, ps)))
    decreases ps, 1
  {
    hide Ok, Leads, Report, ParseProperties, IsBody;
    OkAt(ts, s, s.k + 2);
    OkAt(ts, s, j - 1);
    PropertiesComplete(ts, s.(k := s.k + 2), j - 1, ps);
  }

  lemma {:induction false} PropertiesComplete(ts: seq<Token>, s: State, j: nat, ps: seq<Property>)
    requires Ok(ts, s) && IsBody(ts, s.k, j, ps) && NextIs(ts, j, RBrace)
    ensures s.k <= j && ParseProperties(ts, s) == (s.(k := j), ps)
    decreases ps, 0
  {
    hide Ok, Leads, Report, ParseProperty, IsProperty;
    if ps != [] {
      var m: nat :| IsProperty(ts, s.k, m, ps[0]) && IsBodyTail(ts, m, j, ps[1..]);
      PropertyComplete(ts, s, m, ps[0]);
      OkAt(ts, s, m);
      var s2 := if m == j then s.(k := m) else s.(k := m + 1);
      OkAt(ts, s, s2.k);
      PropertiesComplete(ts, s2, j, ps[1..]);
      assert [ps[0]] + ps[1..] == ps;
    }
  }

  lemma {:induction false} PropertyComplete(ts: seq<Token>, s: State, j: nat, p: Property)
    requires Ok(ts, s) && IsProperty(ts, s.k, j, p)
    requires p.value.value.PseudoIdentifierNode? ==> !NextIs(ts, j, LBrace)
    ensures s.k < j <= |ts| && SeesIdentifier(ts, s) && ParseProperty(ts, s) == (s.(k := j), Some(p))
    decreases p
  {
    hide Ok, Leads, Report, ParseValue, IsValue;
    OkAt(ts, s, s.k + 1);
    OkAt(ts, s, s.k + 2);
    ValueComplete(ts, s.(k := s.k + 2), j, p.value.value);
  }

  lemma {:induction false} NamesComplete(ts: seq<Token>, s: State, j: nat, ids: seq<string>)
    requires Ok(ts, s) && IsNames(ts, s.k, j, ids) && NextIs(ts, j, Semicolon)
    ensures s.k <= j && ParseNames(ts, s) == (s.(k := j), ids)
    decreases |ids|
  {
    hide Ok, Leads, Report;
    OkAt(ts, s, s.k + 1);
    if |ids| > 1 {
      OkAt(ts, s, s.k + 2);
      NamesComplete(ts, s.(k := s.k + 2), j, ids[1..]);
      assert [ids[0]] + ids[1..] == ids;
    } else {
      assert [ids[0]] == ids;
    }
  }

  lemma TaskComplete(ts: seq<Token>, s: State, j: nat, n: TaskNode)
    requires Ok(ts, s) && IsDeclaration(ts, s.k, j, TaskDeclaration(n))
    ensures Sees(ts, s, TaskKeyword) && ParseTask(ts, s) == (s.(k := j), Some(n))
  {
    hide Ok, Leads, Report, ParseValue, IsValue;
    OkAt(ts, s, s.k + 1);
    OkAt(ts, s, s.k + 2);
    OkAt(ts, s, s.k + 3);
    ValueComplete(ts, s.(k := s.k + 3), j - 1, n.value.value);
    OkAt(ts, s, j - 1);
  }

  lemma DependenciesComplete(ts: seq<Token>, s: State, j: nat, n: DependencyNode)
    requires Ok(ts, s) && IsDeclaration(ts, s.k, j, DependencyDeclaration(n))
    ensures SeesIdentifier(ts, s) && ParseDependencies(ts, s) == (s.(k := j), n)
  {
    hide Ok, Leads, Report, ParseNames, IsNames;
    OkAt(ts, s, s.k + 1);
    OkAt(ts, s, s.k + 2);
    NamesComplete(ts, s.(k := s.k + 2), j - 1, n.dependencies);
    OkAt(ts, s, j - 1);
  }

  lemma RunLevelComplete(ts: seq<Token>, s: State, j: nat, n: RunLevelNode)
    requires Ok(ts, s) && IsDeclaration(ts, s.k, j, RunLevelDeclaration(n))
    ensures Sees(ts, s, RunLevelKeyword) && ParseRunLevel(ts, s) == (s.(k := j), n)
  {
    hide Ok, Leads, Report, ParseNames, IsNames;
    OkAt(ts, s, s.k + 1);
    OkAt(ts, s, s.k + 2);
    OkAt(ts, s, s.k + 3);
    NamesComplete(ts, s.(k := s.k + 3), j - 1, n.dependencies);
    OkAt(ts, s, j - 1);
  }

  lemma {:induction false} DeclarationsComplete(ts: seq<Token>, s: State, ds: seq<Declaration>)
    requires Ok(ts, s) && IsFile(ts, s.k, ds)
    ensures ParseDeclarations(ts, s) == (s.(k := |ts|), ds)
    decreases |ds|
  {
    hide Ok, Leads, ParseTask, ParseDependencies, ParseRunLevel;
    if ds != [] {
      var j: nat :| IsDeclaration(ts, s.k, j, ds[0]) && IsFile(ts, j, ds[1..]);
      OkAt(ts, s, j);
      DeclarationsComplete(ts, s.(k := j), ds[1..]);
      match ds[0] {
        case TaskDeclaration(n) => TaskComplete(ts, s, j, n);
        case DependencyDeclaration(n) => DependenciesComplete(ts, s, j, n);
        case RunLevelDeclaration(n) => RunLevelComplete(ts, s, j, n);
      }
      assert [ds[0]] + ds[1..] == ds;
    }
  }

  // ---- Acceptance ------------------------------------------------------------------------

  /** There is no complaint about a row of tokens exactly when it derives a list of
      declarations. (That every row is consumed to its end, `ParseDeclarations` promises.) */
  lemma ExactAcceptance(ts: seq<Token>)
    ensures ParseDeclarations(ts, START).0.errors == [] <==> exists ds :: Derives(ts, ds)
  {
    hide IsFile, ParseDeclarations;
    if ParseDeclarations(ts, START).0.errors == [] {
      DeclarationsSound(ts, START);
      assert Derives(ts, ParseDeclarations(ts, START).1);
    }
    forall ds | Derives(ts, ds) ensures ParseDeclarations(ts, START).0.errors == [] {
      DeclarationsComplete(ts, START, ds);
    }
  }

  /** The list a row derives is the result, so it is the only one. */
  lemma DerivedIsResult(ts: seq<Token>, ds: seq<Declaration>)
    requires Derives(ts, ds)
    ensures ParseDeclarations(ts, START) == (State(|ts|, []), ds)
  {
    hide IsFile, ParseDeclarations;
    DeclarationsComplete(ts, START, ds);
  }
}
