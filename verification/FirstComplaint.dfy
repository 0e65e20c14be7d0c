/** Where the parser complains first.

    The tokens before the first complaint can be continued to a file without errors, and together
    with the token complained about they cannot. So the first complaint is never late and never
    early. */
module FirstComplaint {
  import opened Wrappers
  import opened Lexing
  import opened Parsing
  import opened ParsingTheorems

  /** The first `m` tokens are the same. */
  ghost predicate Same(ts: seq<Token>, us: seq<Token>, m: nat) {
    m <= |ts| && m <= |us| && forall i :: 0 <= i < m ==> ts[i] == us[i]
  }

  // ---- Derivations do not depend on what follows -----------------------------------------

  lemma {:induction false} ValueLocal(ts: seq<Token>, us: seq<Token>, i: nat, j: nat, v: Value)
    requires Same(ts, us, j) && IsValue(ts, i, j, v)
    ensures IsValue(us, i, j, v)
    decreases v
  {
    if v.StructNode? {
      BodyLocal(ts, us, i + 2, j - 1, v.properties);
    }
  }

  lemma {:induction false} BodyLocal(ts: seq<Token>, us: seq<Token>, i: nat, j: nat, ps: seq<Property>)
    requires Same(ts, us, j) && IsBody(ts, i, j, ps)
    ensures IsBody(us, i, j, ps)
    decreases ps
  {
    if ps != [] {
      var m: nat :| IsProperty(ts, i, m, ps[0]) && IsBodyTail(ts, m, j, ps[1..]);
      ValueLocal(ts, us, i + 2, m, ps[0].value.value);
      PropertyStart(ts, i, m, ps[0]);
      if m < j {
        BodyLocal(ts, us, m + 1, j, ps[1..]);
      }
      assert IsProperty(us, i, m, ps[0]) && IsBodyTail(us, m, j, ps[1..]);
    }
  }

  lemma PropertyStart(ts: seq<Token>, i: nat, j: nat, p: Property)
    requires IsProperty(ts, i, j, p)
    ensures i + 2 < j
  {
    assert IsValue(ts, i + 2, j, p.value.value);
  }

  lemma {:induction false} NamesLocal(ts: seq<Token>, us: seq<Token>, i: nat, j: nat, ids: seq<string>)
    requires Same(ts, us, j) && IsNames(ts, i, j, ids)
    ensures i < j && IsNames(us, i, j, ids)
    decreases |ids|
  {
    if |ids| > 1 {
      NamesLocal(ts, us, i + 2, j, ids[1..]);
    }
  }

  lemma DeclarationLocal(ts: seq<Token>, us: seq<Token>, i: nat, j: nat, d: Declaration)
    requires Same(ts, us, j) && IsDeclaration(ts, i, j, d)
    ensures IsDeclaration(us, i, j, d)
  {
    hide IsValue, IsNames;
    match d
    case TaskDeclaration(n) => ValueLocal(ts, us, i + 3, j - 1, n.value.value);
    case DependencyDeclaration(n) => NamesLocal(ts, us, i + 2, j - 1, n.dependencies);
    case RunLevelDeclaration(n) => NamesLocal(ts, us, i + 3, j - 1, n.dependencies);
  }

  // ---- Where the first complaint of a declaration is -------------------------------------

  /** The first complaint of `r`. */
  ghost predicate First(r: State, at: nat, message: string) {
    r.errors != [] && r.errors[0] == Complaint(at, message)
  }

  lemma ExpectFirst(ts: seq<Token>, s: State, t: Token)
    requires Ok(ts, s) && s.errors == [] && !Sees(ts, s, t)
    ensures First(Expect(ts, s, t).0, s.k, Missing(t))
  {
  }

  lemma ExpectIdentifierFirst(ts: seq<Token>, s: State, message: string)
    requires Ok(ts, s) && s.errors == [] && !SeesIdentifier(ts, s)
    ensures First(ExpectIdentifier(ts, s, message).0, s.k, message)
  {
  }

  lemma TaskFirst(ts: seq<Token>, s: State)
    requires Ok(ts, s) && s.errors == [] && Sees(ts, s, TaskKeyword)
    ensures var r, s1, s2, s3 := ParseTask(ts, s), s.(k := s.k + 1), s.(k := s.k + 2), s.(k := s.k + 3);
      if !SeesIdentifier(ts, s1) then First(r.0, s1.k, "expected task name")
      else if !Sees(ts, s2, Equals) then First(r.0, s2.k, Missing(Equals))
      else
        && Ok(ts, s3)
        && var v := ParseValue(ts, s3);
           r == (Expect(ts, v.0, Semicolon).0, Some(TaskNode(ts[s1.k].text, v.1)))
  {
    hide Ok, ParseValue, Expect;
    OkAt(ts, s, s.k + 1);
    if !SeesIdentifier(ts, s.(k := s.k + 1)) {
      ExpectIdentifierFirst(ts, s.(k := s.k + 1), "expected task name");
    } else {
      OkAt(ts, s, s.k + 2);
      if !Sees(ts, s.(k := s.k + 2), Equals) {
        ExpectFirst(ts, s.(k := s.k + 2), Equals);
      } else {
        OkAt(ts, s, s.k + 3);
      }
    }
  }

  lemma DependenciesFirst(ts: seq<Token>, s: State)
    requires Ok(ts, s) && s.errors == [] && SeesIdentifier(ts, s)
    ensures var r, s1, s2 := ParseDependencies(ts, s), s.(k := s.k + 1), s.(k := s.k + 2);
      if !Sees(ts, s1, DependsKeyword) then First(r.0, s1.k, Missing(DependsKeyword))
      else
        && Ok(ts, s2)
        && var ids := ParseNames(ts, s2);
           r == (Expect(ts, ids.0, Semicolon).0, DependencyNode(ts[s.k].text, ids.1))
  {
    hide Ok, ParseNames, Expect;
    OkAt(ts, s, s.k + 1);
    if !Sees(ts, s.(k := s.k + 1), DependsKeyword) {
      ExpectFirst(ts, s.(k := s.k + 1), DependsKeyword);
    } else {
      OkAt(ts, s, s.k + 2);
    }
  }

  lemma RunLevelFirst(ts: seq<Token>, s: State)
    requires Ok(ts, s) && s.errors == [] && Sees(ts, s, RunLevelKeyword)
    ensures var r, s1, s2, s3 := ParseRunLevel(ts, s), s.(k := s.k + 1), s.(k := s.k + 2), s.(k := s.k + 3);
      if !SeesIdentifier(ts, s1) then First(r.0, s1.k, IDENTIFIER_MISSING)
      else if !Sees(ts, s2, Colon) then First(r.0, s2.k, Missing(Colon))
      else
        && Ok(ts, s3)
        && var ids := ParseNames(ts, s3);
           r == (Expect(ts, ids.0, Semicolon).0, RunLevelNode(Some(ts[s1.k].text), ids.1))
  {
    hide Ok, ParseNames, Expect;
    OkAt(ts, s, s.k + 1);
    if !SeesIdentifier(ts, s.(k := s.k + 1)) {
      ExpectIdentifierFirst(ts, s.(k := s.k + 1), IDENTIFIER_MISSING);
    } else {
      OkAt(ts, s, s.k + 2);
      if !Sees(ts, s.(k := s.k + 2), Colon) {
        ExpectFirst(ts, s.(k := s.k + 2), Colon);
      } else {
        OkAt(ts, s, s.k + 3);
      }
    }
  }

  // ---- The parser does not look beyond its first complaint -------------------------------

  /** `r` came out of reading `ts`; reading `us`, which begins with the same `m` tokens, gives
      `r'`. Without a complaint before `m` they are the same, and a first complaint before `m` is
      made in both. */
  ghost predicate Agree(m: nat, r: State, r': State, same: bool) {
    && (r.errors == [] && r.k < m ==> r' == r && same)
    && (r.errors != [] && r.errors[0].at < m ==> r'.errors != [] && r'.errors[0] == r.errors[0])
  }

  ghost predicate Ready(ts: seq<Token>, us: seq<Token>, s: State, m: nat) {
    Same(ts, us, m) && Ok(ts, s) && Ok(us, s) && s.errors == []
  }

  lemma ReadyAt(ts: seq<Token>, us: seq<Token>, s: State, m: nat, k: nat)
    requires Ready(ts, us, s, m) && s.k <= k <= m
    ensures Ready(ts, us, s.(k := k), m)
  {
  }

  lemma {:induction false} ValueAgrees(ts: seq<Token>, us: seq<Token>, s: State, m: nat)
    requires Ready(ts, us, s, m)
    ensures var r, r' := ParseValue(ts, s), ParseValue(us, s);
      Agree(m, r.0, r'.0, r.1 == r'.1)
    decreases |ts| - s.k, 0
  {
    hide Ok, ParseProperties;
    if SeesIdentifier(ts, s) && Sees(ts, Advance(s), LBrace) && s.k + 1 < m {
      ReadyAt(ts, us, s, m, s.k + 2);
      PropertiesAgree(ts, us, Advance(Advance(s)), m);
    }
  }

  lemma {:induction false} PropertiesAgree(ts: seq<Token>, us: seq<Token>, s: State, m: nat)
    requires Ready(ts, us, s, m)
    ensures var r, r' := ParseProperties(ts, s), ParseProperties(us, s);
      Agree(m, r.0, r'.0, r.1 == r'.1)
    decreases |ts| - s.k, 1
  {
    hide Ok, ParseProperty;
    if SeesIdentifier(ts, s) && s.k < m {
      PropertyAgrees(ts, us, s, m);
      var s1 := ParseProperty(ts, s).0;
      if s1.errors == [] && s1.k < m && Sees(ts, s1, Comma) {
        ReadyAt(ts, us, s1, m, s1.k + 1);
        PropertiesAgree(ts, us, Advance(s1), m);
      }
    }
  }

  lemma {:induction false} PropertyAgrees(ts: seq<Token>, us: seq<Token>, s: State, m: nat)
    requires Ready(ts, us, s, m) && SeesIdentifier(ts, s) && s.k < m
    ensures SeesIdentifier(us, s)
    ensures var r, r' := ParseProperty(ts, s), ParseProperty(us, s);
      Agree(m, r.0, r'.0, r.1 == r'.1)
    decreases |ts| - s.k, 0
  {
    hide Ok, ParseValue;
    if Sees(ts, Advance(s), Equals) && s.k + 1 < m {
      ReadyAt(ts, us, s, m, s.k + 2);
      ValueAgrees(ts, us, Advance(Advance(s)), m);
    }
  }

  lemma {:induction false} NamesAgree(ts: seq<Token>, us: seq<Token>, s: State, m: nat)
    requires Ready(ts, us, s, m)
    ensures var r, r' := ParseNames(ts, s), ParseNames(us, s);
      Agree(m, r.0, r'.0, r.1 == r'.1)
    decreases |ts| - s.k
  {
    hide Ok;
    if SeesIdentifier(ts, s) && Sees(ts, Advance(s), Comma) && s.k + 1 < m {
      ReadyAt(ts, us, s, m, s.k + 2);
      NamesAgree(ts, us, Advance(Advance(s)), m);
    }
  }

  /** If two readings agree, so they do after the semicolon behind. */
  lemma SemicolonAgrees(ts: seq<Token>, us: seq<Token>, r: State, r': State, m: nat, same: bool)
    requires Same(ts, us, m) && Ok(ts, r) && Ok(us, r') && Agree(m, r, r', same)
    ensures Agree(m, Expect(ts, r, Semicolon).0, Expect(us, r', Semicolon).0, same)
  {
    hide Ok;
  }

  lemma TaskAgrees(ts: seq<Token>, us: seq<Token>, s: State, m: nat)
    requires Ready(ts, us, s, m) && Sees(ts, s, TaskKeyword) && s.k < m
    ensures Sees(us, s, TaskKeyword)
    ensures var r, r' := ParseTask(ts, s), ParseTask(us, s);
      Agree(m, r.0, r'.0, r.1 == r'.1)
  {
    hide Ok, ParseTask, ParseValue, Expect;
    TaskFirst(ts, s);
    TaskFirst(us, s);
    if SeesIdentifier(ts, s.(k := s.k + 1)) && Sees(ts, s.(k := s.k + 2), Equals) && s.k + 2 < m {
      var s3 := s.(k := s.k + 3);
      ReadyAt(ts, us, s, m, s.k + 3);
      ValueAgrees(ts, us, s3, m);
      var v, v' := ParseValue(ts, s3), ParseValue(us, s3);
      SemicolonAgrees(ts, us, v.0, v'.0, m, v.1 == v'.1);
    }
  }

  lemma DependenciesAgree(ts: seq<Token>, us: seq<Token>, s: State, m: nat)
    requires Ready(ts, us, s, m) && SeesIdentifier(ts, s) && s.k < m
    ensures SeesIdentifier(us, s)
    ensures var r, r' := ParseDependencies(ts, s), ParseDependencies(us, s);
      Agree(m, r.0, r'.0, r.1 == r'.1)
  {
    hide Ok, ParseDependencies, ParseNames, Expect;
    DependenciesFirst(ts, s);
    DependenciesFirst(us, s);
    if Sees(ts, s.(k := s.k + 1), DependsKeyword) && s.k + 1 < m {
      var s2 := s.(k := s.k + 2);
      ReadyAt(ts, us, s, m, s.k + 2);
      NamesAgree(ts, us, s2, m);
      var n, n' := ParseNames(ts, s2), ParseNames(us, s2);
      SemicolonAgrees(ts, us, n.0, n'.0, m, n.1 == n'.1);
    }
  }

  lemma RunLevelAgrees(ts: seq<Token>, us: seq<Token>, s: State, m: nat)
    requires Ready(ts, us, s, m) && Sees(ts, s, RunLevelKeyword) && s.k < m
    ensures Sees(us, s, RunLevelKeyword)
    ensures var r, r' := ParseRunLevel(ts, s), ParseRunLevel(us, s);
      Agree(m, r.0, r'.0, r.1 == r'.1)
  {
    hide Ok, ParseRunLevel, ParseNames, Expect;
    RunLevelFirst(ts, s);
    RunLevelFirst(us, s);
    if SeesIdentifier(ts, s.(k := s.k + 1)) && Sees(ts, s.(k := s.k + 2), Colon) && s.k + 2 < m {
      var s3 := s.(k := s.k + 3);
      ReadyAt(ts, us, s, m, s.k + 3);
      NamesAgree(ts, us, s3, m);
      var n, n' := ParseNames(ts, s3), ParseNames(us, s3);
      SemicolonAgrees(ts, us, n.0, n'.0, m, n.1 == n'.1);
    }
  }

  lemma {:induction false} DeclarationsAgree(ts: seq<Token>, us: seq<Token>, s: State, m: nat)
    requires Ready(ts, us, s, m)
    ensures var r, r' := ParseDeclarations(ts, s), ParseDeclarations(us, s);
      Agree(m, r.0, r'.0, r.1 == r'.1)
    decreases |ts| - s.k
  {
    hide Ordered, ParseTask, ParseDependencies, ParseRunLevel;
    if s.k < m {
      var s1;
      if Sees(ts, s, TaskKeyword) {
        TaskAgrees(ts, us, s, m);
        s1 := ParseTask(ts, s).0;
      } else if SeesIdentifier(ts, s) {
        DependenciesAgree(ts, us, s, m);
        s1 := ParseDependencies(ts, s).0;
      } else if Sees(ts, s, RunLevelKeyword) {
        RunLevelAgrees(ts, us, s, m);
        s1 := ParseRunLevel(ts, s).0;
      } else {
        return;
      }
      if s1.errors == [] && s1.k < m {
        DeclarationsAgree(ts, us, s1, m);
      }
    }
  }

  // ---- What comes before a complaint can be completed ------------------------------------

  lemma {:induction false} ValueViable(ts: seq<Token>, s: State) returns (us: seq<Token>, v: Value)
    requires Ok(ts, s) && s.errors == [] && ParseValue(ts, s).0.errors != []
    ensures Same(ts, us, ParseValue(ts, s).0.errors[0].at) && IsValue(us, s.k, |us|, v)
    decreases |ts| - s.k, 0
  {
    hide Ordered, ParseProperties, IsBody;
    if SeesIdentifier(ts, s) && Sees(ts, Advance(s), LBrace) {
      var s1 := Advance(Advance(s));
      var ps := ParseProperties(ts, s1).1;
      var part := ts;
      var k := ParseProperties(ts, s1).0.k;
      if ParseProperties(ts, s1).0.errors == [] {
        PropertiesSound(ts, s1);
      } else {
        part, ps := PropertiesViable(ts, s1);
        k := |part|;
      }
      us := part[..k] + [RBrace];
      BodyLocal(part, us, s1.k, k, ps);
      v := StructNode(ts[s.k].text, ps);
    } else {
      us, v := ts[..s.k] + [TrueKeyword], BooleanNode(true);
    }
  }

  /** Where the first complaint about the body of a struct is, when it begins with a property. */
  lemma PropertiesFirst(ts: seq<Token>, s: State)
    requires Ok(ts, s) && s.errors == [] && SeesIdentifier(ts, s)
    ensures var r, s1 := ParseProperties(ts, s).0, ParseProperty(ts, s).0;
      if s1.errors != [] then First(r, s1.errors[0].at, s1.errors[0].message)
      else if Sees(ts, s1, RBrace) then r.errors == []
      else if Sees(ts, s1, Comma) then r == ParseProperties(ts, Advance(s1)).0
      else First(r, s1.k, Missing(Comma))
  {
    hide Ok, ParseProperty;
    var s1 := ParseProperty(ts, s).0;
    if s1.errors == [] && Sees(ts, s1, RBrace) {
      assert ParseProperties(ts, s1).0 == s1;
    }
  }

  lemma BodyOf(ts: seq<Token>, i: nat, m: nat, j: nat, p: Property, more: seq<Property>)
    requires IsProperty(ts, i, m, p) && (if m == j then more == [] else m < j && NextIs(ts, m, Comma))
    requires m < j ==> IsBody(ts, m + 1, j, more)
    ensures IsBody(ts, i, j, [p] + more)
  {
    hide IsProperty;
    assert ([p] + more)[1..] == more;
    assert IsBodyTail(ts, m, j, more);
  }

  lemma {:induction false} PropertiesViable(ts: seq<Token>, s: State) returns (us: seq<Token>, ps: seq<Property>)
    requires Ok(ts, s) && s.errors == [] && ParseProperties(ts, s).0.errors != []
    ensures Same(ts, us, ParseProperties(ts, s).0.errors[0].at) && IsBody(us, s.k, |us|, ps)
    decreases |ts| - s.k, 2
  {
    if SeesIdentifier(ts, s) {
      us, ps := MorePropertiesViable(ts, s);
    } else {
      us, ps := ts[..s.k], [];
    }
  }

  lemma {:induction false} MorePropertiesViable(ts: seq<Token>, s: State)
    returns (us: seq<Token>, ps: seq<Property>)
    requires Ok(ts, s) && s.errors == [] && SeesIdentifier(ts, s) && ParseProperties(ts, s).0.errors != []
    ensures Same(ts, us, ParseProperties(ts, s).0.errors[0].at) && IsBody(us, s.k, |us|, ps)
    decreases |ts| - s.k, 1
  {
    hide Ordered, ParseProperty, ParseProperties, IsProperty, IsBody;
    PropertiesFirst(ts, s);
    var (s1, p) := ParseProperty(ts, s);
    if s1.errors != [] {
      var q;
      us, q := PropertyViable(ts, s);
      ps := [q] + [];
      BodyOf(us, s.k, |us|, |us|, q, []);
    } else {
      PropertySound(ts, s);
      var more := [];
      if Sees(ts, s1, Comma) {
        us, more := PropertiesViable(ts, Advance(s1));
      } else {
        us := ts[..s1.k];
      }
      PropertyLocal(ts, us, s.k, s1.k, p.value);
      ps := [p.value] + more;
      BodyOf(us, s.k, s1.k, |us|, p.value, more);
    }
  }

  lemma PropertyLocal(ts: seq<Token>, us: seq<Token>, i: nat, j: nat, p: Property)
    requires Same(ts, us, j) && IsProperty(ts, i, j, p)
    ensures IsProperty(us, i, j, p)
  {
    PropertyStart(ts, i, j, p);
    ValueLocal(ts, us, i + 2, j, p.value.value);
  }

  lemma {:induction false} PropertyViable(ts: seq<Token>, s: State) returns (us: seq<Token>, p: Property)
    requires Ok(ts, s) && s.errors == [] && SeesIdentifier(ts, s) && ParseProperty(ts, s).0.errors != []
    ensures Same(ts, us, ParseProperty(ts, s).0.errors[0].at) && IsProperty(us, s.k, |us|, p)
    decreases |ts| - s.k, 0
  {
    hide Ordered, ParseValue;
    if Sees(ts, Advance(s), Equals) {
      var v;
      us, v := ValueViable(ts, Advance(Advance(s)));
      p := Property(ts[s.k].text, Some(v));
    } else {
      us := ts[..s.k + 1] + [Equals, TrueKeyword];
      p := Property(ts[s.k].text, Some(BooleanNode(true)));
      assert IsValue(us, s.k + 2, |us|, BooleanNode(true));
    }
  }

  lemma {:induction false} NamesViable(ts: seq<Token>, s: State) returns (us: seq<Token>, ids: seq<string>)
    requires Ok(ts, s) && s.errors == [] && ParseNames(ts, s).0.errors != []
    ensures Same(ts, us, ParseNames(ts, s).0.errors[0].at) && IsNames(us, s.k, |us|, ids)
    decreases |ts| - s.k
  {
    hide Ordered;
    if !SeesIdentifier(ts, s) {
      us, ids := ts[..s.k] + [Identifier("x")], ["x"];
    } else if Sees(ts, Advance(s), Comma) {
      var more;
      us, more := NamesViable(ts, Advance(Advance(s)));
      ids := [ts[s.k].text] + more;
      assert ids[1..] == more;
    } else {
      us, ids := ts[..s.k + 1], [ts[s.k].text];
    }
  }

  /** The value at `s` and the semicolon behind it, when one of them is missing. */
  lemma ValueEndViable(ts: seq<Token>, s: State) returns (us: seq<Token>, v: Value)
    requires Ok(ts, s) && s.errors == []
    requires Expect(ts, ParseValue(ts, s).0, Semicolon).0.errors != []
    ensures Same(ts, us, Expect(ts, ParseValue(ts, s).0, Semicolon).0.errors[0].at)
    ensures s.k <= Expect(ts, ParseValue(ts, s).0, Semicolon).0.errors[0].at
    ensures s.k < |us| && us[|us| - 1] == Semicolon && IsValue(us, s.k, |us| - 1, v)
  {
    hide Ordered, ParseValue;
    var part, k := ts, ParseValue(ts, s).0.k;
    if ParseValue(ts, s).0.errors == [] {
      ValueSound(ts, s);
      v := ParseValue(ts, s).1.value;
    } else {
      part, v := ValueViable(ts, s);
      k := |part|;
    }
    us := part[..k] + [Semicolon];
    ValueLocal(part, us, s.k, k, v);
  }

  /** The shortest task that goes on with `name`, behind the keyword at `i`. */
  lemma TaskStub(ts: seq<Token>, i: nat, name: string) returns (us: seq<Token>, d: Declaration)
    requires NextIs(ts, i, TaskKeyword)
    ensures Same(ts, us, i + 1) && (NextIs(ts, i + 1, Identifier(name)) ==> Same(ts, us, i + 2))
    ensures IsDeclaration(us, i, |us|, d)
  {
    us := ts[..i + 1] + [Identifier(name), Equals, TrueKeyword, Semicolon];
    d := TaskDeclaration(TaskNode(name, Some(BooleanNode(true))));
    assert IsValue(us, i + 3, |us| - 1, BooleanNode(true));
  }

  lemma TaskViable(ts: seq<Token>, s: State) returns (us: seq<Token>, d: Declaration)
    requires Ok(ts, s) && s.errors == [] && Sees(ts, s, TaskKeyword) && ParseTask(ts, s).0.errors != []
    ensures Same(ts, us, ParseTask(ts, s).0.errors[0].at) && IsDeclaration(us, s.k, |us|, d)
  {
    hide Ok, ParseValue, ParseTask, Leads;
    TaskFirst(ts, s);
    var s1, s2, s3 := s.(k := s.k + 1), s.(k := s.k + 2), s.(k := s.k + 3);
    if !SeesIdentifier(ts, s1) {
      us, d := TaskStub(ts, s.k, "x");
    } else if !Sees(ts, s2, Equals) {
      us, d := TaskStub(ts, s.k, ts[s1.k].text);
    } else {
      var v;
      us, v := ValueEndViable(ts, s3);
      d := TaskDeclaration(TaskNode(ts[s1.k].text, Some(v)));
    }
  }

  /** The list of names at `s` and the semicolon behind it, when one of them is missing. */
  lemma NamesEndViable(ts: seq<Token>, s: State) returns (us: seq<Token>, ids: seq<string>)
    requires Ok(ts, s) && s.errors == []
    requires Expect(ts, ParseNames(ts, s).0, Semicolon).0.errors != []
    ensures Same(ts, us, Expect(ts, ParseNames(ts, s).0, Semicolon).0.errors[0].at)
    ensures s.k <= Expect(ts, ParseNames(ts, s).0, Semicolon).0.errors[0].at
    ensures s.k < |us| && us[|us| - 1] == Semicolon && IsNames(us, s.k, |us| - 1, ids)
  {
    hide Ordered, ParseNames;
    var part, k := ts, ParseNames(ts, s).0.k;
    if ParseNames(ts, s).0.errors == [] {
      NamesSound(ts, s);
      ids := ParseNames(ts, s).1;
    } else {
      part, ids := NamesViable(ts, s);
      k := |part|;
    }
    us := part[..k] + [Semicolon];
    NamesLocal(part, us, s.k, k, ids);
  }

  lemma DependenciesStub(ts: seq<Token>, i: nat) returns (us: seq<Token>, d: Declaration)
    requires i < |ts| && ts[i].Identifier?
    ensures Same(ts, us, i + 1) && IsDeclaration(us, i, |us|, d)
  {
    us := ts[..i + 1] + [DependsKeyword, Identifier("x"), Semicolon];
    d := DependencyDeclaration(DependencyNode(ts[i].text, ["x"]));
  }

  lemma DependenciesViable(ts: seq<Token>, s: State) returns (us: seq<Token>, d: Declaration)
    requires Ok(ts, s) && s.errors == [] && SeesIdentifier(ts, s) && ParseDependencies(ts, s).0.errors != []
    ensures Same(ts, us, ParseDependencies(ts, s).0.errors[0].at) && IsDeclaration(us, s.k, |us|, d)
  {
    hide Ok, ParseNames, ParseDependencies, Leads;
    DependenciesFirst(ts, s);
    if !Sees(ts, s.(k := s.k + 1), DependsKeyword) {
      us, d := DependenciesStub(ts, s.k);
    } else {
      var ids;
      us, ids := NamesEndViable(ts, s.(k := s.k + 2));
      d := DependencyDeclaration(DependencyNode(ts[s.k].text, ids));
    }
  }

  lemma RunLevelStub(ts: seq<Token>, i: nat, name: string) returns (us: seq<Token>, d: Declaration)
    requires NextIs(ts, i, RunLevelKeyword)
    ensures Same(ts, us, i + 1) && (NextIs(ts, i + 1, Identifier(name)) ==> Same(ts, us, i + 2))
    ensures IsDeclaration(us, i, |us|, d)
  {
    us := ts[..i + 1] + [Identifier(name), Colon, Identifier("x"), Semicolon];
    d := RunLevelDeclaration(RunLevelNode(Some(name), ["x"]));
  }

  lemma RunLevelViable(ts: seq<Token>, s: State) returns (us: seq<Token>, d: Declaration)
    requires Ok(ts, s) && s.errors == [] && Sees(ts, s, RunLevelKeyword) && ParseRunLevel(ts, s).0.errors != []
    ensures Same(ts, us, ParseRunLevel(ts, s).0.errors[0].at) && IsDeclaration(us, s.k, |us|, d)
  {
    hide Ok, ParseNames, ParseRunLevel, Leads;
    RunLevelFirst(ts, s);
    var s1, s2, s3 := s.(k := s.k + 1), s.(k := s.k + 2), s.(k := s.k + 3);
    if !SeesIdentifier(ts, s1) {
      us, d := RunLevelStub(ts, s.k, "x");
    } else if !Sees(ts, s2, Colon) {
      us, d := RunLevelStub(ts, s.k, ts[s1.k].text);
    } else {
      var ids;
      us, ids := NamesEndViable(ts, s3);
      d := RunLevelDeclaration(RunLevelNode(Some(ts[s1.k].text), ids));
    }
  }

  lemma {:induction false} DeclarationsViable(ts: seq<Token>, s: State)
    returns (us: seq<Token>, ds: seq<Declaration>)
    requires Ok(ts, s) && s.errors == [] && ParseDeclarations(ts, s).0.errors != []
    ensures Same(ts, us, ParseDeclarations(ts, s).0.errors[0].at) && IsFile(us, s.k, ds)
    decreases |ts| - s.k
  {
    hide Ordered, ParseTask, ParseDependencies, ParseRunLevel, IsDeclaration;
    if !Sees(ts, s, TaskKeyword) && !SeesIdentifier(ts, s) && !Sees(ts, s, RunLevelKeyword) {
      us, ds := ts[..s.k], [];
      return;
    }
    var s1, d, more;
    if Sees(ts, s, TaskKeyword) {
      s1 := ParseTask(ts, s).0;
      if s1.errors != [] {
        us, d := TaskViable(ts, s);
      } else {
        TaskSound(ts, s);
        d := TaskDeclaration(ParseTask(ts, s).1.value);
      }
    } else if SeesIdentifier(ts, s) {
      s1 := ParseDependencies(ts, s).0;
      if s1.errors != [] {
        us, d := DependenciesViable(ts, s);
      } else {
        DependenciesSound(ts, s);
        d := DependencyDeclaration(ParseDependencies(ts, s).1);
      }
    } else {
      s1 := ParseRunLevel(ts, s).0;
      if s1.errors != [] {
        us, d := RunLevelViable(ts, s);
      } else {
        RunLevelSound(ts, s);
        d := RunLevelDeclaration(ParseRunLevel(ts, s).1);
      }
    }
    if s1.errors != [] {
      ds := [d];
      assert IsDeclaration(us, s.k, |us|, ds[0]) && IsFile(us, |us|, ds[1..]);
    } else {
      us, more := DeclarationsViable(ts, s1);
      DeclarationLocal(ts, us, s.k, s1.k, d);
      ds := [d] + more;
      assert ds[1..] == more;
      assert IsDeclaration(us, s.k, s1.k, ds[0]) && IsFile(us, s1.k, ds[1..]);
    }
  }

  // ---- The first complaint ---------------------------------------------------------------

  /** The first `m` tokens begin a row of tokens without errors. */
  ghost predicate Continues(ts: seq<Token>, m: nat) {
    exists us, ds :: Same(ts, us, m) && Derives(us, ds)
  }

  lemma SameComplaint(ts: seq<Token>, us: seq<Token>, m: nat)
    requires ParseDeclarations(ts, START).0.errors != []
    requires m == ParseDeclarations(ts, START).0.errors[0].at + 1
    ensures Same(ts, us, m) ==> ParseDeclarations(us, START).0.errors != []
  {
    hide ParseDeclarations;
    if Same(ts, us, m) {
      DeclarationsAgree(ts, us, START, m);
    }
  }

  lemma NoComplaint(us: seq<Token>, ds: seq<Declaration>)
    ensures Derives(us, ds) ==> ParseDeclarations(us, START).0.errors == []
  {
    hide ParseDeclarations, IsFile;
    if Derives(us, ds) {
      DeclarationsComplete(us, START, ds);
    }
  }

  /** The first complaint is not late: the tokens before it begin some row without errors. */
  lemma FirstComplaintIsNotLate(ts: seq<Token>)
    requires ParseDeclarations(ts, START).0.errors != []
    ensures Continues(ts, ParseDeclarations(ts, START).0.errors[0].at)
  {
    hide ParseDeclarations, IsFile, Same;
    var us, ds := DeclarationsViable(ts, START);
    assert Derives(us, ds);
  }

  lemma OkStart(ts: seq<Token>)
    ensures Ok(ts, START)
  {
  }

  lemma ComplaintInside(ts: seq<Token>)
    requires ParseDeclarations(ts, START).0.errors != []
    ensures ParseDeclarations(ts, START).0.errors[0].at <= |ts|
  {
    hide ParseDeclarations;
  }

  lemma ComplaintStays(ts: seq<Token>, m: nat)
    requires ParseDeclarations(ts, START).0.errors != []
    requires m == ParseDeclarations(ts, START).0.errors[0].at + 1
    ensures !Continues(ts, m)
  {
    hide ParseDeclarations, IsFile, Same;
    forall us, ds ensures !(Same(ts, us, m) && Derives(us, ds)) {
      SameComplaint(ts, us, m);
      NoComplaint(us, ds);
    }
  }

  /** It is not early: together with the token complained about they begin none. At the end of
      the text there is no such token, but the row as it stands is in error. */
  lemma FirstComplaintIsNotEarly(ts: seq<Token>)
    requires ParseDeclarations(ts, START).0.errors != []
    ensures var k := ParseDeclarations(ts, START).0.errors[0].at;
      if k < |ts| then !Continues(ts, k + 1) else k == |ts| && !exists ds :: Derives(ts, ds)
  {
    hide ParseDeclarations, Derives, Continues, Ok, Leads;
    OkStart(ts);
    ComplaintInside(ts);
    ComplaintStays(ts, ParseDeclarations(ts, START).0.errors[0].at + 1);
    ExactAcceptance(ts);
  }
}
