/** Every text is a layout.

    From any place from which the lexer reads on to the end there is a gap, and behind it a
    spelling that ends where the text behind it begins, or nothing. With what is known about
    layouts this gives the exact language: the texts that are read without a complaint are the
    layouts in which nothing is damaged. */
module LexingExactly {
  import opened Wrappers
  import opened Lexing
  import opened Layouts
  import opened LexingTheorems

  // ---- Gaps ------------------------------------------------------------------------------

  /** The white space and the comments before the next token, with the place behind them. */
  lemma {:induction false} GapAt(t: string, p: nat) returns (gap: seq<Piece>, s: nat)
    requires p <= |t| && NextToken(t, p).Scan?
    ensures GapOk(gap) && At(t, p, GapText(gap)) && s == p + |GapText(gap)| <= |t|
    ensures s < |t| ==> !IsWhite(t[s]) && !PairAt(t, s, '/', '/')
    ensures s < |t| && PairAt(t, s, '/', '*') ==> Find(t, s + 2, "*/") == |t|
    decreases |t| - p
  {
    hide At, RunEnd, Find, NextToken, TokenAt, GapText, Piece.Ok, Piece.Text;
    if p < |t| {
      var piece: Option<Piece> := PieceAt(t, p);
      if piece.Some? {
        var q := p + |piece.value.Text()|;
        SkipPiece(t, p, piece.value);
        var more;
        more, s := GapAt(t, q);
        gap := [piece.value] + more;
        GapFirst(piece.value, more);
        AtJoined(t, p, piece.value.Text(), GapText(more));
        return;
      }
    }
    gap, s := [], p;
    NoGap(t, p);
  }

  lemma NoGap(t: string, p: nat)
    requires p <= |t|
    ensures GapOk([]) && GapText([]) == "" && At(t, p, "")
  {
  }

  lemma GapFirst(piece: Piece, more: seq<Piece>)
    requires piece.Ok() && GapOk(more)
    ensures GapOk([piece] + more) && GapText([piece] + more) == piece.Text() + GapText(more)
  {
    assert ([piece] + more)[1..] == more;
  }

  lemma PieceAt(t: string, p: nat) returns (piece: Option<Piece>)
    requires p < |t| && NextToken(t, p).Scan?
    ensures piece.Some? ==>
      piece.value.Ok() && At(t, p, piece.value.Text()) && p + |piece.value.Text()| <= |t|
    ensures piece.None? ==> !IsWhite(t[p]) && !PairAt(t, p, '/', '/')
    ensures piece.None? && PairAt(t, p, '/', '*') ==> Find(t, p + 2, "*/") == |t|
  {
    hide At, RunEnd, Find, TokenAt;
    if IsWhite(t[p]) {
      piece := Some(Blank(t[p]));
      SliceStands(t, p, p + 1);
      assert t[p..p + 1] == [t[p]];
    } else {
      NextTokenBlack(t, p);
      if PairAt(t, p, '/', '/') {
        var s := LineCommentAt(t, p);
        piece := Some(LineComment(s));
      } else if PairAt(t, p, '/', '*') && Find(t, p + 2, "*/") < |t| {
        var s := BlockCommentAt(t, p);
        piece := Some(BlockComment(s));
      } else {
        piece := None;
      }
    }
  }

  lemma LineCommentAt(t: string, p: nat) returns (s: string)
    requires PairAt(t, p, '/', '/') && RunEnd(t, p + 2, IsNotNewline) < |t|
    ensures '\n' !in s && At(t, p, "//" + s + "\n") && p + 3 + |s| <= |t|
  {
    hide At, RunEnd;
    var e := RunEnd(t, p + 2, IsNotNewline);
    s := t[p + 2..e];
    forall i | 0 <= i < |s| ensures s[i] != '\n' {
      assert IsNotNewline(t[p + 2 + i]);
    }
    PairIsAt(t, p, '/', '/');
    SliceStands(t, p + 2, e);
    AtJoined(t, p, "//", s);
    SliceStands(t, e, e + 1);
    assert t[e..e + 1] == "\n";
    AtJoined(t, p, "//" + s, "\n");
  }

  lemma BlockCommentAt(t: string, p: nat) returns (s: string)
    requires PairAt(t, p, '/', '*') && Find(t, p + 2, "*/") < |t|
    ensures !Occurs("*/", s) && At(t, p, "/*" + s + "*/") && p + 4 + |s| <= |t|
  {
    hide At, Find;
    var e := Find(t, p + 2, "*/");
    s := t[p + 2..e];
    PairIsAt(t, p, '/', '*');
    SliceStands(t, p + 2, e);
    NotFoundInside(t, p + 2, e, "*/");
    AtJoined(t, p, "/*", s);
    AtJoined(t, p, "/*" + s, "*/");
    AtSlice(t, e, "*/");
  }

  lemma NotFoundInside(t: string, b: nat, e: nat, s: string)
    requires b <= e <= |t| && s != "" && e <= Find(t, b, s)
    ensures !Occurs(s, t[b..e])
  {
    hide Find;
    var v := t[b..e];
    SliceStands(t, b, e);
    forall i | 0 <= i < |v| ensures !At(v, i, s) {
      if i + |s| <= |v| {
        AtInside(t, b, v, s, i);
        assert !At(t, b + i, s);
      }
    }
  }

  // ---- Spellings -------------------------------------------------------------------------

  lemma WordFormAt(t: string, s: nat) returns (form: Form)
    requires s < |t| && IsIdentifierStart(t[s]) && !PairAt(t, s, 'R', '\"')
    ensures form.Ok() && At(t, s, form.Text()) && s + |form.Text()| <= |t|
    ensures form.Before(t[s + |form.Text()|..])
  {
    hide RunEnd, At;
    var e := RunEnd(t, s + 1, IsIdentifierTrail);
    var x := t[s..e];
    forall i | 0 <= i < |x| ensures x[i] in LETTERS || x[i] in DIGITS {
      assert i == 0 || IsIdentifierTrail(t[s + i]);
      LetterTable(t[s + i]);
    }
    LetterTable(t[s]);
    SliceStands(t, s, e);
    if e < |t| {
      LetterTable(t[e]);
    }
    form := Word(x);
  }

  lemma DecimalFirst(m: nat, digit: char)
    requires m > 0 && IsNumber(digit)
    ensures Decimal(m * 10 + Digit(digit)) == Decimal(m) + [digit]
  {
  }

  lemma DecimalDigit(digit: char)
    requires IsNumber(digit)
    ensures 0 <= Digit(digit) < 10 && Decimal(Digit(digit)) == [digit]
  {
  }

  lemma OneMoreZero(zeros: nat)
    ensures Zeros(zeros) + Decimal(0) == Zeros(zeros + 1)
  {
    assert Decimal(0) == "0";
  }

  lemma {:induction false} DigitsOf(s: string) returns (zeros: nat)
    requires s != "" && forall i :: 0 <= i < |s| ==> IsNumber(s[i])
    ensures Numeral(s) >= 0 && s == Zeros(zeros) + Decimal(Numeral(s))
    decreases |s|
  {
    hide Decimal, Digit, IsNumber, Zeros;
    var k := |s| - 1;
    var init, digit := s[..k], s[k];
    assert s == init + [digit];
    DecimalDigit(digit);
    if init == "" {
      zeros := 0;
      NoZeros();
    } else {
      zeros := DigitsOf(init);
      var m := Numeral(init);
      if m == 0 {
        OneMoreZero(zeros);
        zeros := zeros + 1;
      } else {
        DecimalFirst(m, digit);
        assert Zeros(zeros) + (Decimal(m) + [digit]) == init + [digit];
      }
    }
  }

  lemma NoZeros()
    ensures Zeros(0) == ""
  {
  }

  lemma NumberFormAt(t: string, s: nat) returns (form: Form)
    requires s < |t| && IsNumber(t[s])
    requires TokenAt(t, s).token.value.token.IntegerLiteral? ==> TokenAt(t, s).token.value.token.number <= MAX_INT
    ensures form.Ok() && At(t, s, form.Text()) && s + |form.Text()| <= |t|
    ensures form.Before(t[s + |form.Text()|..])
  {
    hide RunEnd, At, Numeral, Decimal;
    var e := RunEnd(t, s + 1, IsNumber);
    var x := t[s..e];
    forall i | 0 <= i < |x| ensures IsNumber(x[i]) {
      assert i == 0 || IsNumber(t[s + i]);
    }
    var zeros := DigitsOf(x);
    SliceStands(t, s, e);
    if e < |t| {
      LetterTable(t[e]);
    }
    form := Digits(zeros, Numeral(x));
  }

  lemma UnitsFirst(u: Unit, more: seq<Unit>)
    requires u.Ok() && UnitsOk(more)
    ensures UnitsOk([u] + more) && UnitsText([u] + more) == u.Text() + UnitsText(more)
  {
    assert ([u] + more)[1..] == more;
  }

  lemma {:induction false} UnitsAt(t: string, p: nat) returns (units: seq<Unit>, ending: Ending)
    requires p <= |t|
    ensures UnitsOk(units) && At(t, p, UnitsText(units) + ending.Text())
    ensures var e := p + |UnitsText(units) + ending.Text()|;
      e <= |t| && ending.Before(t[e..])
    decreases |t| - p
  {
    hide At, UnitsText, UnitsOk;
    var u := UnitAt(t, p);
    if u.None? {
      units := [];
      ending := EndingAt(t, p);
      NoUnits(ending);
    } else {
      var more;
      more, ending := UnitsAt(t, p + |u.value.Text()|);
      units := [u.value] + more;
      UnitsFirst(u.value, more);
      AtJoined(t, p, u.value.Text(), UnitsText(more) + ending.Text());
      assert u.value.Text() + (UnitsText(more) + ending.Text()) == UnitsText(units) + ending.Text();
    }
  }

  lemma NoUnits(ending: Ending)
    ensures UnitsOk([]) && UnitsText([]) + ending.Text() == ending.Text()
  {
  }

  lemma UnitAt(t: string, p: nat) returns (u: Option<Unit>)
    requires p <= |t|
    ensures u.Some? ==> u.value.Ok() && At(t, p, u.value.Text()) && p + |u.value.Text()| <= |t|
    ensures u.None? ==> p == |t| || t[p] == '\n' || t[p] == '\"' || (t[p] == '\\' && p + 1 == |t|)
  {
    if p == |t| || t[p] == '\n' || t[p] == '\"' || (t[p] == '\\' && p + 1 == |t|) {
      u := None;
    } else if t[p] == '\\' {
      u := Some(Pair(t[p + 1]));
    } else {
      u := Some(Plain(t[p]));
    }
  }

  lemma EndingAt(t: string, p: nat) returns (ending: Ending)
    requires p <= |t|
    requires p == |t| || t[p] == '\n' || t[p] == '\"' || (t[p] == '\\' && p + 1 == |t|)
    ensures At(t, p, ending.Text()) && p + |ending.Text()| <= |t|
    ensures ending.Before(t[p + |ending.Text()|..])
  {
    ending := if p == |t| || t[p] == '\n' then Cut else if t[p] == '\"' then Closed else CutBackslash;
  }

  lemma QuotedFormAt(t: string, s: nat) returns (form: Form)
    requires s < |t| && t[s] == '\"'
    ensures form.Ok() && At(t, s, form.Text()) && s + |form.Text()| <= |t|
    ensures form.Before(t[s + |form.Text()|..])
  {
    hide At, UnitsText, Ending.Text, Ending.Before;
    var units, ending := UnitsAt(t, s + 1);
    form := Quoted(units, ending);
    SliceStands(t, s, s + 1);
    assert t[s..s + 1] == "\"";
    AtJoined(t, s, "\"", UnitsText(units) + ending.Text());
  }

  lemma DelimiterAt(t: string, p: nat)
    requires p <= |t|
    ensures var e := RunEnd(t, p, IsDelimiter);
      IsDelimiterText(t[p..e]) && (e < |t| ==> t[e] in NO_DELIMITER)
  {
    hide RunEnd;
    var e := RunEnd(t, p, IsDelimiter);
    forall i | 0 <= i < |t[p..e]| ensures t[p..e][i] !in NO_DELIMITER {
      assert IsDelimiter(t[p + i]);
      DelimiterTable(t[p + i]);
    }
    if e < |t| {
      DelimiterTable(t[e]);
    }
  }

  lemma RawFormAt(t: string, s: nat) returns (form: Form)
    requires PairAt(t, s, 'R', '\"')
    ensures form.Ok() && At(t, s, form.Text()) && s + |form.Text()| <= |t|
    ensures form.Before(t[s + |form.Text()|..])
  {
    hide At, RunEnd, IsDelimiterText, RawClose, Occurs;
    var e := RunEnd(t, s + 2, IsDelimiter);
    var d := t[s + 2..e];
    DelimiterAt(t, s + 2);
    PairIsAt(t, s, 'R', '\"');
    SliceStands(t, s + 2, e);
    AtJoined(t, s, "R\"", d);
    if e < |t| && t[e] == '(' {
      form := RawBodyAt(t, s, d);
    } else {
      form := RawOpen(d);
    }
  }

  lemma RawBodyAt(t: string, s: nat, d: string) returns (form: Form)
    requires IsDelimiterText(d) && At(t, s, "R\"" + d) && s + 2 + |d| < |t| && t[s + 2 + |d|] == '('
    ensures form.Ok() && At(t, s, form.Text()) && s + |form.Text()| <= |t|
    ensures form.Before(t[s + |form.Text()|..])
  {
    hide At, Find, Occurs, IsDelimiterText, RawClose;
    var b := s + 3 + |d|;
    var close := RawClose(d);
    SliceStands(t, b - 1, b);
    assert t[b - 1..b] == "(";
    AtJoined(t, s, "R\"" + d, "(");
    var q := Find(t, b, close);
    var v := t[b..q];
    NotFoundInside(t, b, q, close);
    SliceStands(t, b, q);
    AtJoined(t, s, "R\"" + d + "(", v);
    if q < |t| {
      AtJoined(t, s, "R\"" + d + "(" + v, close);
      AtSlice(t, q, close);
      form := Raw(d, v);
    } else {
      form := RawCut(d, v);
    }
  }

  lemma SymbolFormAt(t: string, s: nat) returns (form: Form)
    requires s < |t| && !IsWhite(t[s]) && !IsIdentifierStart(t[s]) && !IsNumber(t[s]) && t[s] != '\"'
    requires !PairAt(t, s, '/', '/') && !PairAt(t, s, '/', '*')
    ensures form.Ok() && At(t, s, form.Text()) && s + |form.Text()| <= |t|
    ensures form.Before(t[s + |form.Text()|..])
  {
    LetterTable(t[s]);
    form := Symbol(t[s]);
  }

  /** Wherever a token begins there is a spelling, and it ends where the text behind it begins. */
  lemma FormAt(t: string, s: nat) returns (form: Form)
    requires s < |t| && !IsWhite(t[s]) && !PairAt(t, s, '/', '/') && !PairAt(t, s, '/', '*')
    requires TokenAt(t, s).token.value.token.IntegerLiteral? ==> TokenAt(t, s).token.value.token.number <= MAX_INT
    ensures form.Ok() && At(t, s, form.Text()) && s + |form.Text()| <= |t|
    ensures form.Before(t[s + |form.Text()|..])
  {
    hide At, TokenAt, Form.Ok, Form.Text, Form.Before;
    if PairAt(t, s, 'R', '\"') {
      form := RawFormAt(t, s);
    } else if IsIdentifierStart(t[s]) {
      form := WordFormAt(t, s);
    } else if IsNumber(t[s]) {
      form := NumberFormAt(t, s);
    } else if t[s] == '\"' {
      form := QuotedFormAt(t, s);
    } else {
      form := SymbolFormAt(t, s);
    }
  }

  // ---- Whole texts -----------------------------------------------------------------------

  /** The numbers fit in the program's `int`. */
  predicate NumbersFit(ls: seq<Lexeme>) {
    forall i :: 0 <= i < |ls| && ls[i].token.IntegerLiteral? ==> ls[i].token.number <= MAX_INT
  }

  lemma RenderFirst(item: Item, more: seq<Item>, tail: Tail, t: string, p: nat, s: nat, e: nat)
    requires p <= s <= e <= |t| && item.Ok() && LayoutOk(more, tail)
    requires t[p..s] == GapText(item.gap) && t[s..e] == item.form.Text() && t[e..] == Render(more, tail)
    requires item.form.Before(t[e..])
    ensures LayoutOk([item] + more, tail) && t[p..] == Render([item] + more, tail)
  {
    hide Form.Text, Form.Before, Item.Ok, Tail.Ok, GapText;
    assert ([item] + more)[1..] == more;
    ThreeParts(t, p, s, e);
  }

  lemma ThreeParts(t: string, p: nat, s: nat, e: nat)
    requires p <= s <= e <= |t|
    ensures t[p..] == t[p..s] + (t[s..e] + t[e..])
  {
    assert t[s..] == t[s..e] + t[e..];
  }

  lemma TailAt(t: string, p: nat, gap: seq<Piece>, s: nat) returns (tail: Tail)
    requires GapOk(gap) && p <= s <= |t| && t[p..s] == GapText(gap)
    requires s == |t| || (PairAt(t, s, '/', '*') && Find(t, s + 2, "*/") == |t|)
    ensures LayoutOk([], tail) && t[p..] == Render([], tail)
  {
    hide Find, Occurs, GapText;
    if s == |t| {
      tail := Tail(gap, None);
      assert t[p..] == GapText(gap) + "";
    } else {
      tail := Tail(gap, Some(t[s + 2..]));
      assert t[s + 2..] == t[s + 2..|t|];
      NotFoundInside(t, s + 2, |t|, "*/");
      assert t[s..] == "/*" + t[s + 2..];
      assert t[p..] == t[p..s] + t[s..];
    }
  }

  lemma TokenHere(t: string, p: nat, s: nat)
    requires p <= |t| && s < |t| && NextToken(t, p) == NextToken(t, s) && Lexable(t, p)
    requires !IsWhite(t[s]) && !PairAt(t, s, '/', '/') && !PairAt(t, s, '/', '*')
    ensures NextToken(t, s) == TokenAt(t, s) && Lexemes(t, p) != []
    ensures Lexemes(t, p)[0] == TokenAt(t, s).token.value
  {
    hide TokenAt;
    NextTokenBlack(t, s);
  }

  /** From any place from which the lexer reads on to the end, the text is a layout. */
  lemma {:induction false} LayoutFrom(t: string, p: nat) returns (items: seq<Item>, tail: Tail)
    requires p <= |t| && Lexable(t, p) && NumbersFit(Lexemes(t, p))
    ensures LayoutOk(items, tail) && t[p..] == Render(items, tail)
    decreases |t| - p
  {
    hide At, NextToken, TokenAt, GapText, Find, Lexable, Lexemes, LayoutOk, Render;
    hide Form.Ok, Form.Text, Form.Before, Form.Meaning, Form.Errors;
    LexableScans(t, p);
    var gap, s := GapAt(t, p);
    AtSlice(t, p, GapText(gap));
    SkipGap(t, p, gap);
    if s == |t| || PairAt(t, s, '/', '*') {
      items := [];
      tail := TailAt(t, p, gap, s);
    } else {
      TokenHere(t, p, s);
      var form := FormAt(t, s);
      var e := s + |form.Text()|;
      AtSlice(t, s, form.Text());
      SpellingExact(t, s, form);
      OneLexeme(t, p, NextToken(t, p).token.value, NextToken(t, p).errors);
      FitBehind(Lexemes(t, p), Lexemes(t, e));
      var more;
      more, tail := LayoutFrom(t, e);
      items := [Item(gap, form)] + more;
      RenderFirst(Item(gap, form), more, tail, t, p, s, e);
    }
  }

  lemma LexableScans(t: string, p: nat)
    requires p <= |t| && Lexable(t, p)
    ensures NextToken(t, p).Scan?
  {
    hide NextToken;
  }

  lemma FitBehind(ls: seq<Lexeme>, more: seq<Lexeme>)
    requires NumbersFit(ls) && ls != [] && ls == [ls[0]] + more
    ensures NumbersFit(more)
  {
    forall i | 0 <= i < |more| && more[i].token.IntegerLiteral? ensures more[i].token.number <= MAX_INT {
      assert ls[i + 1] == more[i];
    }
  }

  /** The lexer reads the whole text without failing its assertion, and no number overflows. */
  predicate Readable(t: string) { Lexable(t, 0) && NumbersFit(Lexemes(t, 0)) }

  /** The text is that layout. */
  predicate IsLayout(t: string, items: seq<Item>, tail: Tail) {
    LayoutOk(items, tail) && t == Render(items, tail)
  }

  lemma {:induction false} LaidFits(items: seq<Item>, tail: Tail, p: nat)
    requires ItemsOk(items, tail)
    ensures NumbersFit(Laid(items, p))
    decreases |items|
  {
    hide Form.Text;
    if items != [] {
      ItemsRest(items, tail);
      var e := p + |GapText(items[0].gap)| + |items[0].form.Text()|;
      LaidFits(items[1..], tail, e);
    }
  }

  /** The texts that are read to the end are exactly the layouts. */
  lemma LayoutExactly(t: string)
    ensures Readable(t) <==> exists items, tail :: IsLayout(t, items, tail)
  {
    hide LayoutOk, Render, Lexable, Lexemes, Laid, LaidErrors, Complaints, NumbersFit;
    if Readable(t) {
      var items, tail := LayoutFrom(t, 0);
      assert t[0..] == t;
      assert IsLayout(t, items, tail);
    }
    if items, tail :| IsLayout(t, items, tail) {
      RenderLexes(items, tail);
      LayoutItems(items, tail);
      LaidFits(items, tail, 0);
    }
  }

  lemma LayoutItems(items: seq<Item>, tail: Tail)
    requires LayoutOk(items, tail)
    ensures ItemsOk(items, tail)
  {
  }

  lemma {:induction false} UnitsCleanly(units: seq<Unit>, p: nat)
    ensures UnitsErrors(units, p) == [] <==> UnitsClean(units)
    decreases |units|
  {
    if units != [] {
      UnitsCleanly(units[1..], p + |units[0].Text()|);
      if UnitsClean(units[1..]) && units[0].Clean() {
        forall i | 0 <= i < |units| ensures units[i].Clean() {
          assert i > 0 ==> units[i] == units[1..][i - 1];
        }
      }
    }
  }

  lemma FormCleanly(form: Form, p: nat)
    ensures form.Errors(p) == [] <==> form.Clean()
  {
    if form.Quoted? {
      UnitsCleanly(form.units, p + 1);
    }
  }

  lemma LaidErrorsFirst(items: seq<Item>, tail: Tail, p: nat)
    requires items != []
    ensures var s := p + |GapText(items[0].gap)|;
      var more := LaidErrors(items[1..], tail, s + |items[0].form.Text()|);
      LaidErrors(items, tail, p) == [] <==> items[0].form.Errors(s) == [] && more == []
  {
    hide Form.Text, Form.Errors, GapText;
  }

  lemma {:induction false} Cleanly(items: seq<Item>, tail: Tail, p: nat)
    ensures LaidErrors(items, tail, p) == [] <==> Clean(items, tail)
    decreases |items|
  {
    hide Form.Clean, Form.Errors, Form.Text, Clean, GapText;
    if items == [] {
      NothingClean(tail);
    } else {
      hide LaidErrors;
      var s := p + |GapText(items[0].gap)|;
      LaidErrorsFirst(items, tail, p);
      FormCleanly(items[0].form, s);
      Cleanly(items[1..], tail, s + |items[0].form.Text()|);
      CleanFirst(items, tail);
    }
  }

  lemma NothingClean(tail: Tail)
    ensures Clean([], tail) <==> tail.open.None?
  {
  }

  lemma CleanFirst(items: seq<Item>, tail: Tail)
    requires items != []
    ensures Clean(items, tail) <==> items[0].form.Clean() && Clean(items[1..], tail)
  {
    hide Form.Clean;
    if items[0].form.Clean() && Clean(items[1..], tail) {
      forall i | 0 <= i < |items| ensures items[i].form.Clean() {
        assert i > 0 ==> items[i] == items[1..][i - 1];
      }
    }
  }

  /** A text is read without a complaint exactly when it is a layout with nothing damaged. */
  lemma CleanExactly(t: string)
    ensures Readable(t) && Complaints(t, 0) == [] <==>
      exists items, tail :: IsLayout(t, items, tail) && Clean(items, tail)
  {
    hide LayoutOk, Render, Lexable, Lexemes, Laid, LaidErrors, Complaints, NumbersFit, Clean;
    LayoutExactly(t);
    forall items, tail | IsLayout(t, items, tail) ensures Complaints(t, 0) == [] <==> Clean(items, tail) {
      RenderLexes(items, tail);
      Cleanly(items, tail, 0);
    }
  }
}
