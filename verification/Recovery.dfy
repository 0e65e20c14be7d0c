/** What the parser makes of any row of tokens, however damaged.

    The grammar is extended by the tokens that may be missing and the tokens that may be astray.
    Every row has a reading in this grammar, and it is the parser's: what is declared, and one
    complaint for each damage, at its place; only one is made about the same token. */
module Recovery {
  import opened Wrappers
  import opened Lexing
  import opened Parsing
  import opened ParsingTheorems

  // ---- Complaints ------------------------------------------------------------------------

  /** The last complaint is about token `at`. */
  predicate SaidAt(es: seq<Complaint>, at: nat) { es != [] && es[|es| - 1].at == at }

  /** What is new in `b` after `a`: its first complaint is not, if it is about the same token as the
      last of `a`. */
  function Unsaid(a: seq<Complaint>, b: seq<Complaint>): seq<Complaint> {
    if b != [] && SaidAt(a, b[0].at) then b[1..] else b
  }

  /** The complaints `a` and then `b`. */
  function Join(a: seq<Complaint>, b: seq<Complaint>): seq<Complaint> { a + Unsaid(a, b) }

  /** The complaint about token `at`, if it is missing. */
  function If(missing: bool, at: nat, message: string): seq<Complaint> {
    if missing then [Complaint(at, message)] else []
  }

  lemma JoinNothing(a: seq<Complaint>)
    ensures Join(a, []) == a && Join([], a) == a
  {
  }

  lemma SaidByLast(a: seq<Complaint>, b: seq<Complaint>, at: nat)
    requires b != []
    ensures SaidAt(Join(a, b), at) == SaidAt(b, at)
  {
    var b' := Unsaid(a, b);
    if b' == [] {
      assert Join(a, b) == a;
    } else {
      assert (a + b')[|a + b'| - 1] == b[|b| - 1];
    }
  }

  lemma UnsaidMore(a: seq<Complaint>, b: seq<Complaint>, c: seq<Complaint>)
    requires b != []
    ensures Unsaid(a, b + c) == Unsaid(a, b) + c
  {
    assert (b + c)[1..] == b[1..] + c;
  }

  lemma JoinTwice(a: seq<Complaint>, b: seq<Complaint>, c: seq<Complaint>)
    ensures Join(Join(a, b), c) == Join(a, Join(b, c))
  {
    if b == [] {
      JoinNothing(a);
      JoinNothing(c);
    } else {
      hide SaidAt;
      if c != [] {
        SaidByLast(a, b, c[0].at);
      }
      UnsaidMore(a, b, Unsaid(b, c));
      assert a + Unsaid(a, b) + Unsaid(b, c) == a + (Unsaid(a, b) + Unsaid(b, c));
    }
  }

  /** Complaints about later tokens are all made. */
  lemma JoinLater(a: seq<Complaint>, b: seq<Complaint>)
    requires a != [] && b != [] ==> a[|a| - 1].at < b[0].at
    ensures Join(a, b) == a + b
  {
  }

  /** The state `s` moved on to `j`, with the complaints `es` made on the way. */
  function Noting(s: State, j: nat, es: seq<Complaint>): State { State(j, Join(s.errors, es)) }

  lemma NotingNothing(s: State, j: nat)
    ensures Noting(s, j, []) == s.(k := j)
  {
    JoinNothing(s.errors);
  }

  lemma NotingTwice(s: State, k: nat, es: seq<Complaint>, j: nat, es': seq<Complaint>)
    ensures Noting(Noting(s, k, es), j, es') == Noting(s, j, Join(es, es'))
  {
    JoinTwice(s.errors, es, es');
  }

  lemma ReportIs(ts: seq<Token>, s: State, message: string)
    requires Ok(ts, s)
    ensures Report(s, message) == Noting(s, s.k, [Complaint(s.k, message)])
    ensures Ok(ts, Report(s, message))
  {
  }

  /** A required token: it is there, or there is a complaint. */
  lemma ExpectIs(ts: seq<Token>, s: State, t: Token)
    requires Ok(ts, s)
    ensures var here := Sees(ts, s, t);
      Expect(ts, s, t) == (Noting(s, if here then s.k + 1 else s.k, If(!here, s.k, Missing(t))), here)
    ensures Ok(ts, Expect(ts, s, t).0)
  {
    hide Ok;
    if Sees(ts, s, t) {
      NotingNothing(s, s.k + 1);
    } else {
      ReportIs(ts, s, Missing(t));
    }
  }

  lemma IdentifierIs(ts: seq<Token>, s: State, message: string)
    requires Ok(ts, s)
    ensures var here := SeesIdentifier(ts, s);
      ExpectIdentifier(ts, s, message) ==
        (Noting(s, if here then s.k + 1 else s.k, If(!here, s.k, message)),
         if here then Some(ts[s.k].text) else None)
    ensures Ok(ts, ExpectIdentifier(ts, s, message).0)
  {
    hide Ok;
    if SeesIdentifier(ts, s) {
      NotingNothing(s, s.k + 1);
    } else {
      ReportIs(ts, s, message);
    }
  }

  // ---- Lists of names --------------------------------------------------------------------

  predicate InList(t: Token) { t.Identifier? || t == Comma }

  /** The tokens from `i` up to `j` are all the names and commas that come from `i` on. */
  predicate IsList(ts: seq<Token>, i: nat, j: nat) {
    i <= j <= |ts| && (forall k :: i <= k < j ==> InList(ts[k])) && (j < |ts| ==> !InList(ts[j]))
  }

  function NamesIn(ts: seq<Token>, i: nat, j: nat): seq<string>
    requires i <= j <= |ts|
    decreases j - i
  {
    if i == j then []
    else (if ts[i].Identifier? then [ts[i].text] else []) + NamesIn(ts, i + 1, j)
  }

  lemma NamesInFirst(ts: seq<Token>, i: nat, j: nat)
    requires i < j <= |ts|
    ensures NamesIn(ts, i, j) ==
      if ts[i].Identifier? then [ts[i].text] + NamesIn(ts, i + 1, j) else NamesIn(ts, i + 1, j)
  {
    assert [] + NamesIn(ts, i + 1, j) == NamesIn(ts, i + 1, j);
  }

  lemma NamesInNothing(ts: seq<Token>, j: nat)
    requires j <= |ts|
    ensures NamesIn(ts, j, j) == []
  {
  }

  /** A name is due at place `k` of the list that begins at `i`. */
  predicate NameDue(ts: seq<Token>, i: nat, k: nat)
    requires i <= k <= |ts|
  {
    k == i || ts[k - 1] == Comma
  }

  /** What is wrong at place `k` of the list from `i` to `j`: a name is due and there is none, or
      one name follows another, or the list is not ended by a semicolon or the end of the text. */
  function Fault(ts: seq<Token>, i: nat, j: nat, k: nat): Option<string>
    requires IsList(ts, i, j) && i <= k <= j
  {
    if NameDue(ts, i, k) then if k < j && ts[k].Identifier? then None else Some("expected identifier")
    else if if k < j then ts[k].Identifier? else j < |ts| && ts[j] != Semicolon then
      Some("expected ',' or ';'")
    else None
  }

  /** The faults from place `k` on. */
  function Faults(ts: seq<Token>, i: nat, k: nat, j: nat): (es: seq<Complaint>)
    requires IsList(ts, i, j) && i <= k <= j + 1
    ensures es != [] ==> es[0].at >= k
    decreases j + 1 - k
  {
    if k > j then []
    else
      match Fault(ts, i, j, k)
      case None => Faults(ts, i, k + 1, j)
      case Some(message) => [Complaint(k, message)] + Faults(ts, i, k + 1, j)
  }

  lemma FaultHere(ts: seq<Token>, i: nat, k: nat, j: nat, message: string)
    requires IsList(ts, i, j) && i <= k <= j && Fault(ts, i, j, k) == Some(message)
    ensures Faults(ts, i, k, j) == Join([Complaint(k, message)], Faults(ts, i, k + 1, j))
  {
    hide Fault;
    JoinLater([Complaint(k, message)], Faults(ts, i, k + 1, j));
  }

  lemma NoFault(ts: seq<Token>, i: nat, k: nat, j: nat)
    requires IsList(ts, i, j) && i <= k <= j && Fault(ts, i, j, k) == None
    ensures Faults(ts, i, k, j) == Faults(ts, i, k + 1, j)
  {
    hide Fault;
  }

  lemma NoMoreFaults(ts: seq<Token>, i: nat, j: nat)
    requires IsList(ts, i, j)
    ensures Faults(ts, i, j + 1, j) == []
  {
  }

  lemma FaultSame(ts: seq<Token>, i: nat, i': nat, k: nat, j: nat)
    requires IsList(ts, i, j) && i < i' <= j && i' <= k <= j
    requires k > i' || ts[i' - 1] == Comma
    ensures Fault(ts, i, j, k) == Fault(ts, i', j, k)
  {
    hide InList;
  }

  /** Behind a name or comma it does not matter where the list began. */
  lemma {:induction false} FaultsShift(ts: seq<Token>, i: nat, i': nat, k: nat, j: nat)
    requires IsList(ts, i, j) && i < i' <= j && i' <= k <= j + 1
    requires k > i' || ts[i' - 1] == Comma
    ensures Faults(ts, i, k, j) == Faults(ts, i', k, j)
    decreases j + 1 - k
  {
    hide InList, Fault;
    if k <= j {
      FaultsShift(ts, i, i', k + 1, j);
      FaultSame(ts, i, i', k, j);
    }
  }

  /** Whatever the row, a list of names takes all names and commas that come; every name in it is
      kept, and there is one complaint for each fault, at its place. */
  lemma {:induction false} NamesExactly(ts: seq<Token>, s: State, j: nat)
    requires Ok(ts, s) && IsList(ts, s.k, j)
    ensures ParseNames(ts, s) == (Noting(s, j, Faults(ts, s.k, s.k, j)), NamesIn(ts, s.k, j))
    decreases |ts| - s.k, 1
  {
    hide Ok;
    var i := s.k;
    if i == j {
      NothingListed(ts, s);
    } else if ts[i] == Comma {
      CommaFirst(ts, s, j);
    } else {
      NameFirst(ts, s, j);
    }
  }

  lemma NothingListed(ts: seq<Token>, s: State)
    requires Ok(ts, s) && IsList(ts, s.k, s.k)
    ensures ParseNames(ts, s) == (Noting(s, s.k, Faults(ts, s.k, s.k, s.k)), [])
  {
    assert Faults(ts, s.k, s.k, s.k) == [Complaint(s.k, "expected identifier")];
    IdentifierIs(ts, s, IDENTIFIER_MISSING);
  }

  /** One turn of the loop at a comma where a name is due. */
  lemma CommaTurn(ts: seq<Token>, s: State)
    requires Ok(ts, s) && Sees(ts, s, Comma)
    ensures var s1 := Noting(s, s.k + 1, [Complaint(s.k, "expected identifier")]);
      Ok(ts, s1) && ParseNames(ts, s) == ParseNames(ts, s1)
  {
    hide Ok, Report;
    var s1 := Report(s, IDENTIFIER_MISSING);
    ReportIs(ts, s, IDENTIFIER_MISSING);
    AdvanceLeads(ts, s1);
    LeadsOk(ts, s1, Advance(s1));
    var r := ParseNames(ts, Advance(s1));
    assert [] + r.1 == r.1;
  }

  lemma LeadsOk(ts: seq<Token>, s: State, s': State)
    requires Leads(ts, s, s')
    ensures Ok(ts, s')
  {
  }

  lemma {:induction false} CommaFirst(ts: seq<Token>, s: State, j: nat)
    requires Ok(ts, s) && IsList(ts, s.k, j) && Sees(ts, s, Comma)
    ensures ParseNames(ts, s) == (Noting(s, j, Faults(ts, s.k, s.k, j)), NamesIn(ts, s.k, j))
    decreases |ts| - s.k, 0
  {
    hide Ok, Faults, ParseNames, NamesIn, Join;
    var i := s.k;
    var missing := [Complaint(i, "expected identifier")];
    CommaTurn(ts, s);
    NamesExactly(ts, Noting(s, i + 1, missing), j);
    FaultsShift(ts, i, i + 1, i + 1, j);
    FaultHere(ts, i, i, j, "expected identifier");
    NotingTwice(s, i + 1, missing, j, Faults(ts, i + 1, i + 1, j));
    NamesInFirst(ts, i, j);
  }

  /** One turn of the loop at a name. */
  lemma NameTurn(ts: seq<Token>, s: State)
    requires Ok(ts, s) && SeesIdentifier(ts, s)
    ensures var s1, x := Advance(s), ts[s.k].text;
      var s2 := Noting(s, s.k + 1, [Complaint(s.k + 1, "expected ',' or ';'")]);
      && Ok(ts, s1) && Ok(ts, s2)
      && if Eof(ts, s1) || Sees(ts, s1, Semicolon) then ParseNames(ts, s) == (s1, [x])
         else if Sees(ts, s1, Comma) then
           && Ok(ts, Advance(s1))
           && ParseNames(ts, s) ==
                (ParseNames(ts, Advance(s1)).0, [x] + ParseNames(ts, Advance(s1)).1)
         else ParseNames(ts, s) == (ParseNames(ts, s2).0, [x] + ParseNames(ts, s2).1)
  {
    hide Ok, Report;
    var s1 := Advance(s);
    AdvanceLeads(ts, s);
    LeadsOk(ts, s, s1);
    ReportIs(ts, s1, "expected ',' or ';'");
    if Sees(ts, s1, Comma) {
      AdvanceLeads(ts, s1);
      LeadsOk(ts, s1, Advance(s1));
    }
  }

  lemma {:induction false} NameFirst(ts: seq<Token>, s: State, j: nat)
    requires Ok(ts, s) && IsList(ts, s.k, j) && SeesIdentifier(ts, s)
    ensures ParseNames(ts, s) == (Noting(s, j, Faults(ts, s.k, s.k, j)), NamesIn(ts, s.k, j))
    decreases |ts| - s.k, 0
  {
    hide Ok, Faults, ParseNames, NamesIn, Join;
    var i := s.k;
    NameTurn(ts, s);
    NoFault(ts, i, i, j);
    NamesInFirst(ts, i, j);
    if i + 1 == j {
      NamesInNothing(ts, j);
      NameLast(ts, s);
      assert [ts[i].text] + [] == [ts[i].text];
    } else if ts[i + 1] == Comma {
      NamesExactly(ts, Advance(Advance(s)), j);
      NoFault(ts, i, i + 1, j);
      FaultsShift(ts, i, i + 2, i + 2, j);
      NamesInFirst(ts, i + 1, j);
    } else {
      var more := [Complaint(i + 1, "expected ',' or ';'")];
      NamesExactly(ts, Noting(s, i + 1, more), j);
      FaultHere(ts, i, i + 1, j, "expected ',' or ';'");
      FaultsShift(ts, i, i + 1, i + 2, j);
      NoFault(ts, i + 1, i + 1, j);
      NotingTwice(s, i + 1, more, j, Faults(ts, i + 1, i + 1, j));
    }
  }

  lemma NameLast(ts: seq<Token>, s: State)
    requires Ok(ts, s) && SeesIdentifier(ts, s) && IsList(ts, s.k, s.k + 1)
    ensures ParseNames(ts, s) == (Noting(s, s.k + 1, Faults(ts, s.k, s.k, s.k + 1)), [ts[s.k].text])
  {
    hide Ok, Faults, ParseNames, Join;
    var i := s.k;
    NameTurn(ts, s);
    NoFault(ts, i, i, i + 1);
    NoMoreFaults(ts, i, i + 1);
    if i + 1 < |ts| && ts[i + 1] != Semicolon {
      var more := [Complaint(i + 1, "expected ',' or ';'")];
      FaultHere(ts, i, i + 1, i + 1, "expected ',' or ';'");
      JoinNothing(more);
      NothingListed(ts, Noting(s, i + 1, more));
      NothingNew(ts, s, i + 1, more);
      assert [ts[i].text] + [] == [ts[i].text];
    } else {
      NoFault(ts, i, i + 1, i + 1);
      NotingNothing(s, i + 1);
    }
  }

  /** A list that is not even begun is not complained about twice. */
  lemma NothingNew(ts: seq<Token>, s: State, j: nat, es: seq<Complaint>)
    requires IsList(ts, j, j) && |es| == 1 && es[0].at == j
    ensures Noting(Noting(s, j, es), j, Faults(ts, j, j, j)) == Noting(s, j, es)
  {
    assert Faults(ts, j, j, j) == [Complaint(j, "expected identifier")];
    NotingTwice(s, j, es, j, Faults(ts, j, j, j));
    assert es + [] == es;
  }

  // ---- The extended grammar --------------------------------------------------------------

  predicate BeginsValue(t: Token) {
    t.IntegerLiteral? || t.StringLiteral? || t == TrueKeyword || t == FalseKeyword || t.Identifier?
  }

  /** A value, or the place where one is missing, with the complaints about it. */
  ghost predicate LooseValue(ts: seq<Token>, i: nat, j: nat, v: Option<Value>, es: seq<Complaint>)
    decreases |ts| - i, 1
  {
    match v
    case None =>
      j == i <= |ts| && (i < |ts| ==> !BeginsValue(ts[i])) && es == [Complaint(i, "expected value")]
    case Some(StructNode(tag, ps)) => exists m: nat, e :: StructAs(ts, i, m, j, tag, ps, e, es)
    case Some(value) =>
      IsValue(ts, i, j, value) && (value.PseudoIdentifierNode? ==> !NextIs(ts, j, LBrace)) && es == []
  }

  /** A struct whose properties reach up to `m`; only at the end of the text it lacks its brace. */
  ghost predicate StructAs(ts: seq<Token>, i: nat, m: nat, j: nat, tag: string, ps: seq<Property>,
                           e: seq<Complaint>, es: seq<Complaint>)
    decreases |ts| - i, 0
  {
    && i + 2 <= m <= |ts| && ts[i] == Identifier(tag) && ts[i + 1] == LBrace
    && LooseBody(ts, i + 2, m, ps, e)
    && j == (if m < |ts| then m + 1 else m) && es == Join(e, If(m == |ts|, m, "expected '}'"))
  }

  predicate EndsBody(ts: seq<Token>, i: nat) { i == |ts| || NextIs(ts, i, RBrace) }

  /** The properties up to the closing brace or the end of the text, with tokens astray between
      them. */
  ghost predicate LooseBody(ts: seq<Token>, i: nat, m: nat, ps: seq<Property>, es: seq<Complaint>)
    decreases |ts| - i, 3
  {
    && i <= |ts|
    && if EndsBody(ts, i) then m == i && ps == [] && es == []
       else if ts[i].Identifier? then exists k: nat, p, e, ps', es' :: BodyFrom(ts, i, k, m, p, e, ps', es', ps, es)
       else exists es' :: BodyAstray(ts, i, m, ps, es', es)
  }

  ghost predicate BodyAstray(ts: seq<Token>, i: nat, m: nat, ps: seq<Property>,
                             es': seq<Complaint>, es: seq<Complaint>)
    requires i < |ts|
    decreases |ts| - i, 2
  {
    LooseBody(ts, i + 1, m, ps, es') && es == Join([Complaint(i, "expected property")], es')
  }

  /** A property up to `k`, a comma if there is one, and the other properties. */
  ghost predicate BodyFrom(ts: seq<Token>, i: nat, k: nat, m: nat, p: Option<Property>, e: seq<Complaint>,
                           ps': seq<Property>, es': seq<Complaint>, ps: seq<Property>, es: seq<Complaint>)
    requires i < |ts|
    decreases |ts| - i, 2
  {
    && i < k <= |ts| && LooseProperty(ts, i, k, p, e)
    && LooseBody(ts, if NextIs(ts, k, Comma) then k + 1 else k, m, ps', es')
    && ps == Listed(p) + ps'
    && es == Join(e, Join(If(!NextIs(ts, k, Comma) && !NextIs(ts, k, RBrace), k, "expected ','"), es'))
  }

  ghost predicate LooseProperty(ts: seq<Token>, i: nat, k: nat, p: Option<Property>, es: seq<Complaint>)
    decreases |ts| - i, 1
  {
    i < |ts| && ts[i].Identifier? && exists v, e :: PropertyAs(ts, i, k, p, v, e, es)
  }

  /** A property without its equals sign is not kept. */
  ghost predicate PropertyAs(ts: seq<Token>, i: nat, k: nat, p: Option<Property>, v: Option<Value>,
                             e: seq<Complaint>, es: seq<Complaint>)
    requires i < |ts| && ts[i].Identifier?
    decreases |ts| - i, 0
  {
    var eq := NextIs(ts, i + 1, Equals);
    && LooseValue(ts, if eq then i + 2 else i + 1, k, v, e)
    && p == (if eq then Some(Property(ts[i].text, v)) else None)
    && es == Join(If(!eq, i + 1, "expected '='"), e)
  }

  // ---- The parser follows the grammar: values --------------------------------------------

  lemma AdvanceOk(ts: seq<Token>, s: State)
    requires Ok(ts, s) && !Eof(ts, s)
    ensures Ok(ts, Advance(s)) && Advance(s) == Noting(s, s.k + 1, [])
  {
    NotingNothing(s, s.k + 1);
  }

  lemma {:induction false} ValueFollows(ts: seq<Token>, s: State, j: nat, v: Option<Value>, es: seq<Complaint>)
    requires Ok(ts, s) && LooseValue(ts, s.k, j, v, es)
    ensures ParseValue(ts, s) == (Noting(s, j, es), v) && s.k <= j <= |ts|
    decreases |ts| - s.k, 1
  {
    hide Ok, Report, ParseProperties, StructAs, Join;
    if v.None? {
      ReportIs(ts, s, "expected value");
    } else if v.value.StructNode? {
      var m: nat, e :| StructAs(ts, s.k, m, j, v.value.tag, v.value.properties, e, es);
      StructFollows(ts, s, m, j, v.value.tag, v.value.properties, e, es);
    } else {
      NotingNothing(s, j);
    }
  }

  lemma {:induction false} StructFollows(ts: seq<Token>, s: State, m: nat, j: nat, tag: string,
                                         ps: seq<Property>, e: seq<Complaint>, es: seq<Complaint>)
    requires Ok(ts, s) && StructAs(ts, s.k, m, j, tag, ps, e, es)
    ensures ParseValue(ts, s) == (Noting(s, j, es), Some(StructNode(tag, ps))) && s.k <= j <= |ts|
    decreases |ts| - s.k, 0
  {
    hide Ok, Report, ParseProperties, LooseBody, Join, Expect;
    AdvanceOk(ts, s);
    AdvanceOk(ts, Advance(s));
    var s2 := Advance(Advance(s));
    BodyFollows(ts, s2, m, ps, e);
    ExpectIs(ts, Noting(s2, m, e), RBrace);
    NotingTwice(s2, m, e, j, If(m == |ts|, m, "expected '}'"));
  }

  lemma {:induction false} BodyFollows(ts: seq<Token>, s: State, m: nat, ps: seq<Property>, es: seq<Complaint>)
    requires Ok(ts, s) && LooseBody(ts, s.k, m, ps, es)
    ensures ParseProperties(ts, s) == (Noting(s, m, es), ps) && s.k <= m && EndsBody(ts, m)
    ensures Ok(ts, Noting(s, m, es))
    decreases |ts| - s.k, 3
  {
    hide Ok, ParseProperties, BodyFrom, BodyAstray, Join;
    if EndsBody(ts, s.k) {
      BodyOver(ts, s);
      NotingNothing(s, m);
    } else if ts[s.k].Identifier? {
      var k: nat, p, e, ps', es' :| BodyFrom(ts, s.k, k, m, p, e, ps', es', ps, es);
      BodyFromFollows(ts, s, k, m, p, e, ps', es', ps, es);
    } else {
      var es' :| BodyAstray(ts, s.k, m, ps, es', es);
      BodyAstrayFollows(ts, s, m, ps, es', es);
    }
  }

  lemma BodyOver(ts: seq<Token>, s: State)
    requires Ok(ts, s) && EndsBody(ts, s.k)
    ensures ParseProperties(ts, s) == (s, [])
  {
  }

  lemma AstrayTurn(ts: seq<Token>, s: State)
    requires Ok(ts, s) && !EndsBody(ts, s.k) && !SeesIdentifier(ts, s)
    ensures var s1 := Noting(s, s.k + 1, [Complaint(s.k, "expected property")]);
      Ok(ts, s1) && ParseProperties(ts, s) == ParseProperties(ts, s1)
  {
    hide Ok, Report;
    ReportIs(ts, s, "expected property");
    AdvanceOk(ts, Report(s, "expected property"));
  }

  lemma {:induction false} BodyAstrayFollows(ts: seq<Token>, s: State, m: nat, ps: seq<Property>,
                                             es': seq<Complaint>, es: seq<Complaint>)
    requires Ok(ts, s) && !EndsBody(ts, s.k) && s.k < |ts| && !SeesIdentifier(ts, s)
    requires BodyAstray(ts, s.k, m, ps, es', es)
    ensures ParseProperties(ts, s) == (Noting(s, m, es), ps) && s.k <= m && EndsBody(ts, m)
    ensures Ok(ts, Noting(s, m, es))
    decreases |ts| - s.k, 2
  {
    hide Ok, ParseProperties, LooseBody, Join, EndsBody;
    var stray := [Complaint(s.k, "expected property")];
    AstrayTurn(ts, s);
    BodyFollows(ts, Noting(s, s.k + 1, stray), m, ps, es');
    NotingTwice(s, s.k + 1, stray, m, es');
  }

  /** One turn of the loop at a property. */
  lemma PropertyTurn(ts: seq<Token>, s: State)
    requires Ok(ts, s) && SeesIdentifier(ts, s)
    ensures var s1, p := ParseProperty(ts, s).0, ParseProperty(ts, s).1;
      var s2 := if Sees(ts, s1, RBrace) then s1 else Expect(ts, s1, Comma).0;
      ParseProperties(ts, s) == (ParseProperties(ts, s2).0, Listed(p) + ParseProperties(ts, s2).1)
  {
    hide Ok, ParseProperty, Expect;
  }

  lemma CommaIs(ts: seq<Token>, s: State, k: nat, e: seq<Complaint>)
    requires Ok(ts, Noting(s, k, e)) && k <= |ts|
    ensures var s1 := Noting(s, k, e);
      var s2 := if Sees(ts, s1, RBrace) then s1 else Expect(ts, s1, Comma).0;
      var missing := If(!NextIs(ts, k, Comma) && !NextIs(ts, k, RBrace), k, "expected ','");
      s2 == Noting(s, if NextIs(ts, k, Comma) then k + 1 else k, Join(e, missing)) && Ok(ts, s2)
  {
    hide Ok, Expect, Join;
    var s1 := Noting(s, k, e);
    ExpectIs(ts, s1, Comma);
    JoinNothing(e);
    if !NextIs(ts, k, RBrace) {
      var n := if NextIs(ts, k, Comma) then k + 1 else k;
      NotingTwice(s, k, e, n, If(!NextIs(ts, k, Comma), k, "expected ','"));
    }
  }

  lemma {:induction false} BodyFromFollows(ts: seq<Token>, s: State, k: nat, m: nat, p: Option<Property>,
                                           e: seq<Complaint>, ps': seq<Property>, es': seq<Complaint>,
                                           ps: seq<Property>, es: seq<Complaint>)
    requires Ok(ts, s) && s.k < |ts| && ts[s.k].Identifier?
    requires BodyFrom(ts, s.k, k, m, p, e, ps', es', ps, es)
    ensures ParseProperties(ts, s) == (Noting(s, m, es), ps) && s.k <= m && EndsBody(ts, m)
    ensures Ok(ts, Noting(s, m, es))
    decreases |ts| - s.k, 2
  {
    hide Ok, ParseProperties, ParseProperty, LooseProperty, LooseBody, Join, EndsBody, Expect;
    PropertyFollows(ts, s, k, p, e);
    PropertyTurn(ts, s);
    CommaIs(ts, s, k, e);
    var n := if NextIs(ts, k, Comma) then k + 1 else k;
    var missing := If(!NextIs(ts, k, Comma) && !NextIs(ts, k, RBrace), k, "expected ','");
    BodyFollows(ts, Noting(s, n, Join(e, missing)), m, ps', es');
    NotingTwice(s, n, Join(e, missing), m, es');
    JoinTwice(e, missing, es');
  }

  lemma {:induction false} PropertyFollows(ts: seq<Token>, s: State, k: nat, p: Option<Property>, es: seq<Complaint>)
    requires Ok(ts, s) && LooseProperty(ts, s.k, k, p, es)
    ensures SeesIdentifier(ts, s) && ParseProperty(ts, s) == (Noting(s, k, es), p)
    ensures Ok(ts, Noting(s, k, es)) && k <= |ts|
    decreases |ts| - s.k, 1
  {
    hide Ok, ParseValue, LooseValue, Join, Expect;
    var v, e :| PropertyAs(ts, s.k, k, p, v, e, es);
    var eq := NextIs(ts, s.k + 1, Equals);
    var b, missing := if eq then s.k + 2 else s.k + 1, If(!eq, s.k + 1, "expected '='");
    AdvanceOk(ts, s);
    ExpectIs(ts, Advance(s), Equals);
    ValueFollows(ts, Noting(s, b, missing), k, v, e);
    NotingTwice(s, b, missing, k, e);
  }

  // ---- Declarations ----------------------------------------------------------------------

  /** A task: keyword, name, equals sign, a value up to `c`, semicolon. All but the keyword may be
      missing; without name or equals sign it is not kept. */
  ghost predicate TaskAs(ts: seq<Token>, i: nat, j: nat, kept: seq<Declaration>, c: nat, v: Option<Value>,
                         e: seq<Complaint>, es: seq<Complaint>)
    requires i < |ts|
  {
    var named := i + 1 < |ts| && ts[i + 1].Identifier?;
    var a := if named then i + 2 else i + 1;
    var eq := NextIs(ts, a, Equals);
    var end := NextIs(ts, c, Semicolon);
    && LooseValue(ts, if eq then a + 1 else a, c, v, e)
    && j == (if end then c + 1 else c)
    && kept == (if named && eq then [TaskDeclaration(TaskNode(ts[i + 1].text, v))] else [])
    && es == Join(Join(If(!named, i + 1, "expected task name"), If(!eq, a, "expected '='")),
                  Join(e, If(!end, c, "expected ';'")))
  }

  /** The complaints about the list from `b` to `m` and the semicolon behind it. */
  function ListComplaints(ts: seq<Token>, b: nat, m: nat): seq<Complaint>
    requires IsList(ts, b, m)
  {
    Join(Faults(ts, b, b, m), If(!NextIs(ts, m, Semicolon), m, "expected ';'"))
  }

  function BehindList(ts: seq<Token>, m: nat): nat { if NextIs(ts, m, Semicolon) then m + 1 else m }

  /** Dependencies: a name, keyword, a list of names up to `m`, semicolon. */
  ghost predicate DependenciesAs(ts: seq<Token>, i: nat, j: nat, kept: seq<Declaration>, m: nat,
                                 es: seq<Complaint>)
    requires i < |ts| && ts[i].Identifier?
  {
    var depends := NextIs(ts, i + 1, DependsKeyword);
    var b := if depends then i + 2 else i + 1;
    && IsList(ts, b, m) && j == BehindList(ts, m)
    && kept == [DependencyDeclaration(DependencyNode(ts[i].text, NamesIn(ts, b, m)))]
    && es == Join(If(!depends, i + 1, "expected 'depends' keyword"), ListComplaints(ts, b, m))
  }

  /** A run level: keyword, name, colon, a list of names up to `m`, semicolon. */
  ghost predicate RunLevelAs(ts: seq<Token>, i: nat, j: nat, kept: seq<Declaration>, m: nat,
                             es: seq<Complaint>)
    requires i < |ts|
  {
    var named := i + 1 < |ts| && ts[i + 1].Identifier?;
    var a := if named then i + 2 else i + 1;
    var colon := NextIs(ts, a, Colon);
    var b := if colon then a + 1 else a;
    && IsList(ts, b, m) && j == BehindList(ts, m)
    && kept == [RunLevelDeclaration(
                  RunLevelNode(if named then Some(ts[i + 1].text) else None, NamesIn(ts, b, m)))]
    && es == Join(Join(If(!named, i + 1, "expected identifier"), If(!colon, a, "expected ':'")),
                  ListComplaints(ts, b, m))
  }

  predicate BeginsDeclaration(t: Token) { t == TaskKeyword || t.Identifier? || t == RunLevelKeyword }

  /** A declaration from `i` up to `j`, what is kept of it and the complaints about it. */
  ghost predicate LooseDeclaration(ts: seq<Token>, i: nat, j: nat, kept: seq<Declaration>, es: seq<Complaint>)
    requires i < |ts| && BeginsDeclaration(ts[i])
  {
    if ts[i] == TaskKeyword then exists c: nat, v, e :: TaskAs(ts, i, j, kept, c, v, e, es)
    else if ts[i].Identifier? then exists m: nat :: DependenciesAs(ts, i, j, kept, m, es)
    else exists m: nat :: RunLevelAs(ts, i, j, kept, m, es)
  }

  /** Declarations to the end of the text, with tokens astray between them. */
  ghost predicate LooseFile(ts: seq<Token>, i: nat, ds: seq<Declaration>, es: seq<Complaint>)
    decreases |ts| - i, 1
  {
    if i >= |ts| then i == |ts| && ds == [] && es == []
    else if BeginsDeclaration(ts[i]) then
      exists j: nat, kept, e, ds', es' :: FileFrom(ts, i, j, kept, e, ds', es', ds, es)
    else exists es' :: FileAstray(ts, i, ds, es', es)
  }

  ghost predicate FileFrom(ts: seq<Token>, i: nat, j: nat, kept: seq<Declaration>, e: seq<Complaint>,
                           ds': seq<Declaration>, es': seq<Complaint>, ds: seq<Declaration>, es: seq<Complaint>)
    requires i < |ts| && BeginsDeclaration(ts[i])
    decreases |ts| - i, 0
  {
    && i < j && LooseDeclaration(ts, i, j, kept, e) && LooseFile(ts, j, ds', es')
    && ds == kept + ds' && es == Join(e, es')
  }

  ghost predicate FileAstray(ts: seq<Token>, i: nat, ds: seq<Declaration>, es': seq<Complaint>, es: seq<Complaint>)
    requires i < |ts|
    decreases |ts| - i, 0
  {
    LooseFile(ts, i + 1, ds, es') && es == Join([Complaint(i, "expected declaration")], es')
  }

  // ---- The parser follows the grammar: declarations --------------------------------------

  /** Two required tokens in a row, the first a name. */
  lemma NameThen(ts: seq<Token>, s: State, message: string, t: Token)
    requires Ok(ts, s)
    ensures var named := SeesIdentifier(ts, s);
      var a := if named then s.k + 1 else s.k;
      var here := NextIs(ts, a, t);
      var s1, id := ExpectIdentifier(ts, s, message).0, ExpectIdentifier(ts, s, message).1;
      && Ok(ts, s1) && id == (if named then Some(ts[s.k].text) else None)
      && Expect(ts, s1, t) ==
           (Noting(s, if here then a + 1 else a, Join(If(!named, s.k, message), If(!here, a, Missing(t)))), here)
      && Ok(ts, Expect(ts, s1, t).0)
  {
    hide Ok, Expect, ExpectIdentifier, Join, Missing;
    IdentifierIs(ts, s, message);
    var named := SeesIdentifier(ts, s);
    var a := if named then s.k + 1 else s.k;
    ExpectIs(ts, Noting(s, a, If(!named, s.k, message)), t);
    var here := NextIs(ts, a, t);
    NotingTwice(s, a, If(!named, s.k, message), if here then a + 1 else a, If(!here, a, Missing(t)));
  }

  lemma TaskFollows(ts: seq<Token>, s: State, j: nat, kept: seq<Declaration>, c: nat, v: Option<Value>,
                    e: seq<Complaint>, es: seq<Complaint>)
    requires Ok(ts, s) && Sees(ts, s, TaskKeyword) && TaskAs(ts, s.k, j, kept, c, v, e, es)
    ensures var r := ParseTask(ts, s);
      && r.0 == Noting(s, j, es) && Ok(ts, Noting(s, j, es)) && s.k < j
      && kept == (match r.1 case None => [] case Some(n) => [TaskDeclaration(n)])
  {
    hide Ok, ParseValue, LooseValue, Join, Expect, ExpectIdentifier;
    var i := s.k;
    AdvanceOk(ts, s);
    NameThen(ts, Advance(s), "expected task name", Equals);
    var named := i + 1 < |ts| && ts[i + 1].Identifier?;
    var a := if named then i + 2 else i + 1;
    var eq := NextIs(ts, a, Equals);
    var b := if eq then a + 1 else a;
    var e1 := Join(If(!named, i + 1, "expected task name"), If(!eq, a, "expected '='"));
    ValueFollows(ts, Noting(s, b, e1), c, v, e);
    NotingTwice(s, b, e1, c, e);
    ExpectIs(ts, Noting(s, c, Join(e1, e)), Semicolon);
    var end := If(!NextIs(ts, c, Semicolon), c, "expected ';'");
    NotingTwice(s, c, Join(e1, e), j, end);
    JoinTwice(e1, e, end);
  }

  /** A list of names and the semicolon behind it. */
  lemma ListFollows(ts: seq<Token>, s: State, m: nat)
    requires Ok(ts, s) && IsList(ts, s.k, m)
    ensures var s1 := Noting(s, m, Faults(ts, s.k, s.k, m));
      && ParseNames(ts, s) == (s1, NamesIn(ts, s.k, m)) && Ok(ts, s1)
      && Expect(ts, s1, Semicolon).0 == Noting(s, BehindList(ts, m), ListComplaints(ts, s.k, m))
  {
    hide Ok, Faults, ParseNames, InList, Join, Expect, NamesIn;
    var es := Faults(ts, s.k, s.k, m);
    NamesExactly(ts, s, m);
    ExpectIs(ts, Noting(s, m, es), Semicolon);
    NotingTwice(s, m, es, BehindList(ts, m), If(!NextIs(ts, m, Semicolon), m, "expected ';'"));
  }

  lemma DependenciesFollow(ts: seq<Token>, s: State, j: nat, kept: seq<Declaration>, m: nat, es: seq<Complaint>)
    requires Ok(ts, s) && SeesIdentifier(ts, s) && DependenciesAs(ts, s.k, j, kept, m, es)
    ensures var r := ParseDependencies(ts, s);
      r.0 == Noting(s, j, es) && Ok(ts, Noting(s, j, es)) && s.k < j && kept == [DependencyDeclaration(r.1)]
  {
    hide Ok, ParseNames, InList, Join, Expect, ListComplaints, NamesIn;
    AdvanceOk(ts, s);
    ExpectIs(ts, Advance(s), DependsKeyword);
    var depends := NextIs(ts, s.k + 1, DependsKeyword);
    var b, missing := if depends then s.k + 2 else s.k + 1, If(!depends, s.k + 1, "expected 'depends' keyword");
    ListFollows(ts, Noting(s, b, missing), m);
    NotingTwice(s, b, missing, j, ListComplaints(ts, b, m));
  }

  lemma RunLevelFollows(ts: seq<Token>, s: State, j: nat, kept: seq<Declaration>, m: nat, es: seq<Complaint>)
    requires Ok(ts, s) && Sees(ts, s, RunLevelKeyword) && RunLevelAs(ts, s.k, j, kept, m, es)
    ensures var r := ParseRunLevel(ts, s);
      r.0 == Noting(s, j, es) && Ok(ts, Noting(s, j, es)) && s.k < j && kept == [RunLevelDeclaration(r.1)]
  {
    hide Ok, ParseNames, InList, Join, Expect, ExpectIdentifier, ListComplaints, NamesIn;
    var i := s.k;
    AdvanceOk(ts, s);
    NameThen(ts, Advance(s), IDENTIFIER_MISSING, Colon);
    var named := i + 1 < |ts| && ts[i + 1].Identifier?;
    var a := if named then i + 2 else i + 1;
    var colon := NextIs(ts, a, Colon);
    var b := if colon then a + 1 else a;
    var e1 := Join(If(!named, i + 1, "expected identifier"), If(!colon, a, "expected ':'"));
    ListFollows(ts, Noting(s, b, e1), m);
    NotingTwice(s, b, e1, j, ListComplaints(ts, b, m));
  }

  /** One turn of the loop over a file. */
  lemma TaskTurn(ts: seq<Token>, s: State)
    requires Ok(ts, s) && Sees(ts, s, TaskKeyword)
    ensures var r := ParseTask(ts, s);
      ParseDeclarations(ts, s) ==
        (ParseDeclarations(ts, r.0).0,
         (match r.1 case None => [] case Some(n) => [TaskDeclaration(n)]) + ParseDeclarations(ts, r.0).1)
  {
    hide Ok, ParseTask;
  }

  lemma DependenciesTurn(ts: seq<Token>, s: State)
    requires Ok(ts, s) && SeesIdentifier(ts, s)
    ensures var r := ParseDependencies(ts, s);
      ParseDeclarations(ts, s) ==
        (ParseDeclarations(ts, r.0).0, [DependencyDeclaration(r.1)] + ParseDeclarations(ts, r.0).1)
  {
    hide Ok, ParseDependencies;
  }

  lemma RunLevelTurn(ts: seq<Token>, s: State)
    requires Ok(ts, s) && Sees(ts, s, RunLevelKeyword)
    ensures var r := ParseRunLevel(ts, s);
      ParseDeclarations(ts, s) ==
        (ParseDeclarations(ts, r.0).0, [RunLevelDeclaration(r.1)] + ParseDeclarations(ts, r.0).1)
  {
    hide Ok, ParseRunLevel;
  }

  lemma StrayTurn(ts: seq<Token>, s: State)
    requires Ok(ts, s) && !Eof(ts, s) && !BeginsDeclaration(ts[s.k])
    ensures var s1 := Noting(s, s.k + 1, [Complaint(s.k, "expected declaration")]);
      Ok(ts, s1) && ParseDeclarations(ts, s) == ParseDeclarations(ts, s1)
  {
    hide Ok, Report;
    ReportIs(ts, s, "expected declaration");
    AdvanceOk(ts, Report(s, "expected declaration"));
  }

  lemma DeclarationFollows(ts: seq<Token>, s: State, j: nat, kept: seq<Declaration>, e: seq<Complaint>)
    requires Ok(ts, s) && s.k < |ts| && BeginsDeclaration(ts[s.k]) && LooseDeclaration(ts, s.k, j, kept, e)
    ensures Ok(ts, Noting(s, j, e)) && s.k < j
    ensures var r := ParseDeclarations(ts, Noting(s, j, e));
      ParseDeclarations(ts, s) == (r.0, kept + r.1)
  {
    hide Ok, ParseDeclarations, ParseTask, ParseDependencies, ParseRunLevel, TaskAs, DependenciesAs;
    hide RunLevelAs, Noting;
    if ts[s.k] == TaskKeyword {
      var c: nat, v, e' :| TaskAs(ts, s.k, j, kept, c, v, e', e);
      TaskFollows(ts, s, j, kept, c, v, e', e);
      TaskTurn(ts, s);
    } else if ts[s.k].Identifier? {
      var m: nat :| DependenciesAs(ts, s.k, j, kept, m, e);
      DependenciesFollow(ts, s, j, kept, m, e);
      DependenciesTurn(ts, s);
    } else {
      var m: nat :| RunLevelAs(ts, s.k, j, kept, m, e);
      RunLevelFollows(ts, s, j, kept, m, e);
      RunLevelTurn(ts, s);
    }
  }

  lemma FileOver(ts: seq<Token>, s: State)
    requires Ok(ts, s) && s.k >= |ts|
    ensures s.k == |ts| && ParseDeclarations(ts, s) == (s, [])
  {
  }

  lemma {:induction false} FileFollows(ts: seq<Token>, s: State, ds: seq<Declaration>, es: seq<Complaint>)
    requires Ok(ts, s) && LooseFile(ts, s.k, ds, es)
    ensures ParseDeclarations(ts, s) == (Noting(s, |ts|, es), ds)
    decreases |ts| - s.k
  {
    hide Ok, ParseDeclarations, LooseDeclaration, Join;
    if s.k >= |ts| {
      FileOver(ts, s);
      NotingNothing(s, |ts|);
    } else if BeginsDeclaration(ts[s.k]) {
      var j: nat, kept, e, ds', es' :| FileFrom(ts, s.k, j, kept, e, ds', es', ds, es);
      DeclarationFollows(ts, s, j, kept, e);
      FileFollows(ts, Noting(s, j, e), ds', es');
      NotingTwice(s, j, e, |ts|, es');
    } else {
      var es' :| FileAstray(ts, s.k, ds, es', es);
      var stray := [Complaint(s.k, "expected declaration")];
      StrayTurn(ts, s);
      FileFollows(ts, Noting(s, s.k + 1, stray), ds, es');
      NotingTwice(s, s.k + 1, stray, |ts|, es');
    }
  }

  // ---- Every row has a reading -----------------------------------------------------------

  lemma {:induction false} ValueRead(ts: seq<Token>, i: nat) returns (j: nat, v: Option<Value>, es: seq<Complaint>)
    requires i <= |ts|
    ensures LooseValue(ts, i, j, v, es) && i <= j <= |ts|
    decreases |ts| - i, 1
  {
    hide LooseBody, Join;
    if i == |ts| || !BeginsValue(ts[i]) {
      j, v, es := i, None, [Complaint(i, "expected value")];
    } else if ts[i].Identifier? && NextIs(ts, i + 1, LBrace) {
      var m, ps, e := BodyRead(ts, i + 2);
      j := if m < |ts| then m + 1 else m;
      es := Join(e, If(m == |ts|, m, "expected '}'"));
      v := Some(StructNode(ts[i].text, ps));
      assert StructAs(ts, i, m, j, ts[i].text, ps, e, es);
    } else {
      j, es := i + 1, [];
      v := match ts[i]
        case IntegerLiteral(n) => Some(IntegerNode(n))
        case StringLiteral(x) => Some(StringNode(x))
        case TrueKeyword => Some(BooleanNode(true))
        case FalseKeyword => Some(BooleanNode(false))
        case Identifier(x) => Some(PseudoIdentifierNode(x));
    }
  }

  lemma {:induction false} BodyRead(ts: seq<Token>, i: nat) returns (m: nat, ps: seq<Property>, es: seq<Complaint>)
    requires i <= |ts|
    ensures LooseBody(ts, i, m, ps, es) && i <= m <= |ts| && EndsBody(ts, m)
    decreases |ts| - i, 3
  {
    hide LooseProperty, LooseValue, Join;
    if EndsBody(ts, i) {
      m, ps, es := i, [], [];
    } else if ts[i].Identifier? {
      var k, p, e := PropertyRead(ts, i);
      var ps', es';
      m, ps', es' := BodyRead(ts, if NextIs(ts, k, Comma) then k + 1 else k);
      ps := Listed(p) + ps';
      es := Join(e, Join(If(!NextIs(ts, k, Comma) && !NextIs(ts, k, RBrace), k, "expected ','"), es'));
      assert BodyFrom(ts, i, k, m, p, e, ps', es', ps, es);
    } else {
      var es';
      m, ps, es' := BodyRead(ts, i + 1);
      es := Join([Complaint(i, "expected property")], es');
      assert BodyAstray(ts, i, m, ps, es', es);
    }
  }

  lemma {:induction false} PropertyRead(ts: seq<Token>, i: nat)
    returns (k: nat, p: Option<Property>, es: seq<Complaint>)
    requires i < |ts| && ts[i].Identifier?
    ensures LooseProperty(ts, i, k, p, es) && i < k <= |ts|
    decreases |ts| - i, 2
  {
    hide LooseValue, Join;
    var eq := NextIs(ts, i + 1, Equals);
    var v, e;
    k, v, e := ValueRead(ts, if eq then i + 2 else i + 1);
    p := if eq then Some(Property(ts[i].text, v)) else None;
    es := Join(If(!eq, i + 1, "expected '='"), e);
    assert PropertyAs(ts, i, k, p, v, e, es);
  }

  lemma {:induction false} ListRead(ts: seq<Token>, i: nat) returns (m: nat)
    requires i <= |ts|
    ensures IsList(ts, i, m)
    decreases |ts| - i
  {
    if i < |ts| && InList(ts[i]) {
      m := ListRead(ts, i + 1);
    } else {
      m := i;
    }
  }

  lemma DeclarationRead(ts: seq<Token>, i: nat)
    returns (j: nat, kept: seq<Declaration>, es: seq<Complaint>)
    requires i < |ts| && BeginsDeclaration(ts[i])
    ensures LooseDeclaration(ts, i, j, kept, es) && i < j <= |ts|
  {
    hide LooseValue, Join, IsList, ListComplaints, NamesIn;
    if ts[i] == TaskKeyword {
      j, kept, es := TaskRead(ts, i);
    } else if ts[i].Identifier? {
      j, kept, es := DependenciesRead(ts, i);
    } else {
      j, kept, es := RunLevelRead(ts, i);
    }
  }

  lemma TaskRead(ts: seq<Token>, i: nat) returns (j: nat, kept: seq<Declaration>, es: seq<Complaint>)
    requires i < |ts| && ts[i] == TaskKeyword
    ensures LooseDeclaration(ts, i, j, kept, es) && i < j <= |ts|
  {
    hide LooseValue, Join;
    var named := i + 1 < |ts| && ts[i + 1].Identifier?;
    var a := if named then i + 2 else i + 1;
    var eq := NextIs(ts, a, Equals);
    var c, v, e := ValueRead(ts, if eq then a + 1 else a);
    var end := NextIs(ts, c, Semicolon);
    j := if end then c + 1 else c;
    kept := if named && eq then [TaskDeclaration(TaskNode(ts[i + 1].text, v))] else [];
    es := Join(Join(If(!named, i + 1, "expected task name"), If(!eq, a, "expected '='")),
               Join(e, If(!end, c, "expected ';'")));
    assert TaskAs(ts, i, j, kept, c, v, e, es);
  }

  lemma DependenciesRead(ts: seq<Token>, i: nat) returns (j: nat, kept: seq<Declaration>, es: seq<Complaint>)
    requires i < |ts| && ts[i].Identifier?
    ensures LooseDeclaration(ts, i, j, kept, es) && i < j <= |ts|
  {
    hide Join, ListComplaints, NamesIn;
    var depends := NextIs(ts, i + 1, DependsKeyword);
    var b := if depends then i + 2 else i + 1;
    var m := ListRead(ts, b);
    j := BehindList(ts, m);
    kept := [DependencyDeclaration(DependencyNode(ts[i].text, NamesIn(ts, b, m)))];
    es := Join(If(!depends, i + 1, "expected 'depends' keyword"), ListComplaints(ts, b, m));
    assert DependenciesAs(ts, i, j, kept, m, es);
  }

  lemma RunLevelRead(ts: seq<Token>, i: nat) returns (j: nat, kept: seq<Declaration>, es: seq<Complaint>)
    requires i < |ts| && ts[i] == RunLevelKeyword
    ensures LooseDeclaration(ts, i, j, kept, es) && i < j <= |ts|
  {
    hide Join, ListComplaints, NamesIn;
    var named := i + 1 < |ts| && ts[i + 1].Identifier?;
    var a := if named then i + 2 else i + 1;
    var colon := NextIs(ts, a, Colon);
    var b := if colon then a + 1 else a;
    var m := ListRead(ts, b);
    j := BehindList(ts, m);
    kept := [RunLevelDeclaration(
               RunLevelNode(if named then Some(ts[i + 1].text) else None, NamesIn(ts, b, m)))];
    es := Join(Join(If(!named, i + 1, "expected identifier"), If(!colon, a, "expected ':'")),
               ListComplaints(ts, b, m));
    assert RunLevelAs(ts, i, j, kept, m, es);
  }

  lemma {:induction false} FileRead(ts: seq<Token>, i: nat) returns (ds: seq<Declaration>, es: seq<Complaint>)
    requires i <= |ts|
    ensures LooseFile(ts, i, ds, es)
    decreases |ts| - i
  {
    hide LooseDeclaration, Join;
    if i == |ts| {
      ds, es := [], [];
    } else if BeginsDeclaration(ts[i]) {
      var j, kept, e := DeclarationRead(ts, i);
      var ds', es' := FileRead(ts, j);
      ds, es := kept + ds', Join(e, es');
      assert FileFrom(ts, i, j, kept, e, ds', es', ds, es);
    } else {
      var es';
      ds, es' := FileRead(ts, i + 1);
      es := Join([Complaint(i, "expected declaration")], es');
      assert FileAstray(ts, i, ds, es', es);
    }
  }

  // ---- Recovery --------------------------------------------------------------------------

  /** Whatever the row, the parser's declarations and complaints are those of its one reading in the
      extended grammar. */
  lemma RecoveryExactly(ts: seq<Token>, ds: seq<Declaration>, es: seq<Complaint>)
    ensures ParseDeclarations(ts, START) == (State(|ts|, es), ds) <==> LooseFile(ts, 0, ds, es)
  {
    hide ParseDeclarations, LooseFile;
    var ds', es' := FileRead(ts, 0);
    ReadingResult(ts, ds', es');
    if LooseFile(ts, 0, ds, es) {
      ReadingResult(ts, ds, es);
    }
  }

  lemma ReadingResult(ts: seq<Token>, ds: seq<Declaration>, es: seq<Complaint>)
    requires LooseFile(ts, 0, ds, es)
    ensures ParseDeclarations(ts, START) == (State(|ts|, es), ds)
  {
    hide ParseDeclarations, LooseFile;
    FileFollows(ts, START, ds, es);
    JoinNothing(es);
  }

  /** A reading without complaints is a derivation in the grammar itself. */
  lemma UndamagedExactly(ts: seq<Token>, ds: seq<Declaration>)
    ensures LooseFile(ts, 0, ds, []) <==> Derives(ts, ds)
  {
    hide ParseDeclarations, LooseFile, IsFile;
    RecoveryExactly(ts, ds, []);
    if LooseFile(ts, 0, ds, []) {
      DeclarationsSound(ts, START);
    }
    if Derives(ts, ds) {
      DerivedIsResult(ts, ds);
    }
  }

  // ---- One damaged declaration -----------------------------------------------------------

  /** A damaged declaration before tokens that derive `ds`: the complaints are those about it, and
      everything in `ds` is in the result. */
  lemma DamagedBefore(ts: seq<Token>, s: State, j: nat, kept: seq<Declaration>, e: seq<Complaint>,
                      ds: seq<Declaration>)
    requires Ok(ts, s) && s.k < |ts| && BeginsDeclaration(ts[s.k])
    requires LooseDeclaration(ts, s.k, j, kept, e) && IsFile(ts, j, ds)
    ensures ParseDeclarations(ts, s) == (Noting(s, |ts|, e), kept + ds)
  {
    hide Ok, LooseDeclaration, IsFile, ParseDeclarations, Join;
    DeclarationFollows(ts, s, j, kept, e);
    DeclarationsComplete(ts, Noting(s, j, e), ds);
  }

  /** A derived value has the reading without complaints. */
  lemma ValueWhole(ts: seq<Token>, i: nat, j: nat, v: Value)
    requires i <= |ts| && IsValue(ts, i, j, v) && (v.PseudoIdentifierNode? ==> !NextIs(ts, j, LBrace))
    ensures LooseValue(ts, i, j, Some(v), [])
  {
    hide LooseValue, IsValue, ParseValue;
    var s := State(i, []);
    ValueComplete(ts, s, j, v);
    var j', v', e := ValueRead(ts, i);
    ValueFollows(ts, s, j', v', e);
    JoinNothing(e);
  }

  datatype Omission = NameMissing | EqualsMissing | ValueMissing | SemicolonMissing

  /** The tokens from `i` up to `j` are the task `name` with the value `v`, short of one token at
      place `at`. */
  ghost predicate TaskShort(ts: seq<Token>, i: nat, j: nat, o: Omission, name: string, v: Value, at: nat) {
    && NextIs(ts, i, TaskKeyword) && i + 1 < j <= |ts|
    && match o
       case NameMissing =>
         && NextIs(ts, i + 1, Equals) && IsValue(ts, i + 2, j - 1, v) && ts[j - 1] == Semicolon
         && at == i + 1
       case EqualsMissing =>
         && NextIs(ts, i + 1, Identifier(name)) && IsValue(ts, i + 2, j - 1, v) && ts[j - 1] == Semicolon
         && at == i + 2
       case ValueMissing =>
         && NextIs(ts, i + 1, Identifier(name)) && NextIs(ts, i + 2, Equals) && NextIs(ts, i + 3, Semicolon)
         && j == i + 4 && at == i + 3
       case SemicolonMissing =>
         && NextIs(ts, i + 1, Identifier(name)) && NextIs(ts, i + 2, Equals) && IsValue(ts, i + 3, j, v)
         && !NextIs(ts, j, Semicolon) && !NextIs(ts, j, LBrace) && at == j
  }

  function TaskKept(o: Omission, name: string, v: Value): seq<Declaration> {
    match o
    case ValueMissing => [TaskDeclaration(TaskNode(name, None))]
    case SemicolonMissing => [TaskDeclaration(TaskNode(name, Some(v)))]
    case _ => []
  }

  function TaskMessage(o: Omission): string {
    match o
    case NameMissing => "expected task name"
    case EqualsMissing => "expected '='"
    case ValueMissing => "expected value"
    case SemicolonMissing => "expected ';'"
  }

  lemma {:induction false} ValueBegins(ts: seq<Token>, i: nat, j: nat, v: Value)
    requires IsValue(ts, i, j, v)
    ensures i < j <= |ts| && BeginsValue(ts[i])
  {
  }

  lemma ShortReading(ts: seq<Token>, i: nat, j: nat, o: Omission, name: string, v: Value, at: nat)
    requires TaskShort(ts, i, j, o, name, v, at)
    ensures LooseDeclaration(ts, i, j, TaskKept(o, name, v), [Complaint(at, TaskMessage(o))])
  {
    hide LooseValue, IsValue;
    var es, kept := [Complaint(at, TaskMessage(o))], TaskKept(o, name, v);
    match o
    case NameMissing =>
      ValueBegins(ts, i + 2, j - 1, v);
      ValueWhole(ts, i + 2, j - 1, v);
      assert TaskAs(ts, i, j, kept, j - 1, Some(v), [], es);
    case EqualsMissing =>
      ValueBegins(ts, i + 2, j - 1, v);
      ValueWhole(ts, i + 2, j - 1, v);
      assert TaskAs(ts, i, j, kept, j - 1, Some(v), [], es);
    case ValueMissing =>
      NoValue(ts, i + 3);
      assert TaskAs(ts, i, j, kept, i + 3, None, es, es);
    case SemicolonMissing =>
      ValueBegins(ts, i + 3, j, v);
      ValueWhole(ts, i + 3, j, v);
      assert TaskAs(ts, i, j, kept, j, Some(v), [], es);
  }

  lemma NoValue(ts: seq<Token>, i: nat)
    requires NextIs(ts, i, Semicolon)
    ensures LooseValue(ts, i, i, None, [Complaint(i, "expected value")])
  {
  }

  /** A task short of one token, before tokens that derive `ds`: exactly one complaint is made, at
      the place of the missing token, and everything in `ds` is kept. Without its name or equals
      sign the task is not. */
  lemma OneTokenMissing(ts: seq<Token>, s: State, j: nat, o: Omission, name: string, v: Value, at: nat,
                        ds: seq<Declaration>)
    requires Ok(ts, s) && TaskShort(ts, s.k, j, o, name, v, at) && IsFile(ts, j, ds)
    ensures ParseDeclarations(ts, s) ==
      (State(|ts|, s.errors + [Complaint(at, TaskMessage(o))]), TaskKept(o, name, v) + ds)
  {
    hide LooseDeclaration, IsFile, ParseDeclarations, IsValue;
    ShortReading(ts, s.k, j, o, name, v, at);
    DamagedBefore(ts, s, j, TaskKept(o, name, v), [Complaint(at, TaskMessage(o))], ds);
    JoinLater(s.errors, [Complaint(at, TaskMessage(o))]);
  }
}
