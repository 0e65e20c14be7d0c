/** What the lexer makes of a layout, and where it stops.

    Every layout is read as its tokens, each in its place, and with the complaints about its
    damaged strings and its comment that is not closed. */
module LexingTheorems {
  import opened Wrappers
  import opened Lexing
  import opened Layouts

  function Tokens(ls: seq<Lexeme>): (ts: seq<Token>)
    ensures |ts| == |ls| && forall i :: 0 <= i < |ts| ==> ts[i] == ls[i].token
  {
    if ls == [] then [] else [ls[0].token] + Tokens(ls[1..])
  }

  // ---- Tables ----------------------------------------------------------------------------

  lemma LetterTable(c: char)
    ensures IsIdentifierStart(c) <==> c in LETTERS
    ensures IsNumber(c) <==> c in DIGITS
    ensures IsIdentifierTrail(c) <==> c in LETTERS || c in DIGITS
  {
  }

  lemma DelimiterTable(c: char)
    ensures IsDelimiter(c) <==> c !in NO_DELIMITER
  {
  }

  lemma KeywordTable(x: string)
    ensures WordToken(x) == if x in KEYWORDS then KEYWORDS[x] else Identifier(x)
  {
  }

  lemma SymbolTable(c: char)
    ensures PunctuationToken(c) == if c in SYMBOLS then SYMBOLS[c] else Unknown
  {
  }

  lemma EscapeTable(c: char)
    ensures Unescape(c) == if c in ESCAPES then Some(ESCAPES[c]) else None
  {
  }

  // ---- Occurrences -----------------------------------------------------------------------

  lemma AtParts(t: string, p: nat, a: string, b: string)
    requires At(t, p, a + b)
    ensures At(t, p, a) && At(t, p + |a|, b) && p + |a| + |b| <= |t|
  {
    forall i | 0 <= i < |a| ensures t[p + i] == a[i] {
      assert (a + b)[i] == a[i];
    }
    forall i | 0 <= i < |b| ensures t[p + |a| + i] == b[i] {
      assert (a + b)[|a| + i] == b[i];
      assert t[p + (|a| + i)] == b[i];
    }
  }

  lemma AtChar(t: string, p: nat, s: string, i: nat)
    requires At(t, p, s) && i < |s|
    ensures p + |s| <= |t| && t[p + i] == s[i]
  {
  }

  lemma AtFirst(t: string, p: nat, s: string)
    requires At(t, p, s) && s != ""
    ensures p + |s| <= |t| && t[p] == s[0]
  {
    AtChar(t, p, s, 0);
  }

  lemma AtSlice(t: string, p: nat, s: string)
    requires At(t, p, s)
    ensures t[p..p + |s|] == s
  {
  }

  lemma RunEndIs(t: string, p: nat, q: nat, f: char -> bool)
    requires p <= q <= |t| && (forall i :: p <= i < q ==> f(t[i])) && (q < |t| ==> !f(t[q]))
    ensures RunEnd(t, p, f) == q
  {
  }

  /** An occurrence of `s` that begins inside `v` and ends behind it would need the first
      character of `s` a second time. */
  lemma NotAcross(t: string, p: nat, v: string, s: string, i: nat)
    requires i < |v| < i + |s| && At(t, p + |v|, s) && s[|v| - i] != s[0]
    ensures !At(t, p + i, s)
  {
    assert t[p + |v| + 0] == s[0];
    assert t[(p + i) + (|v| - i)] == s[0];
  }

  lemma AtInside(t: string, p: nat, v: string, s: string, i: nat)
    requires At(t, p, v) && i + |s| <= |v|
    ensures At(t, p + i, s) <==> At(v, i, s)
  {
    forall k | 0 <= k < |s| ensures t[p + i + k] == s[k] <==> v[i + k] == s[k] {
      AtChar(t, p, v, i + k);
    }
  }

  /** `s` is found behind `v` exactly when it does not occur in `v`, provided its first character
      comes only once in it. */
  lemma EndFound(t: string, p: nat, v: string, s: string)
    requires s != "" && At(t, p, v) && At(t, p + |v|, s)
    requires forall i :: 0 < i < |s| ==> s[i] != s[0]
    ensures Find(t, p, s) <= p + |v|
    ensures Find(t, p, s) == p + |v| <==> !Occurs(s, v)
  {
    forall i | 0 <= i < |v| ensures At(t, p + i, s) <==> At(v, i, s) {
      if i + |s| <= |v| {
        AtInside(t, p, v, s, i);
      } else {
        NotAcross(t, p, v, s, i);
      }
    }
    var q := Find(t, p, s);
    if q < p + |v| {
      assert At(t, p + (q - p), s) && At(v, q - p, s);
    } else {
      forall i | 0 <= i < |v| ensures !At(v, i, s) {
        assert !At(t, p + i, s);
      }
    }
  }

  lemma SelfAt(t: string)
    ensures At(t, 0, t)
  {
  }

  lemma AtJoined(t: string, p: nat, a: string, b: string)
    requires At(t, p, a) && At(t, p + |a|, b)
    ensures At(t, p, a + b)
  {
    forall i | 0 <= i < |a + b| ensures t[p + i] == (a + b)[i] {
      if i < |a| {
        AtChar(t, p, a, i);
      } else {
        AtChar(t, p + |a|, b, i - |a|);
      }
    }
  }

  lemma SliceStands(t: string, p: nat, q: nat)
    requires p <= q <= |t|
    ensures At(t, p, t[p..q])
  {
  }

  // ---- Gaps ------------------------------------------------------------------------------

  lemma SkipPiece(t: string, p: nat, piece: Piece)
    requires piece.Ok() && At(t, p, piece.Text())
    ensures NextToken(t, p) == NextToken(t, p + |piece.Text()|)
  {
    hide NextToken, At;
    match piece
    case Blank(c) =>
      AtFirst(t, p, [c]);
      SkipBlank(t, p);
    case LineComment(s) => SkipLineComment(t, p, s);
    case BlockComment(s) => SkipBlockComment(t, p, s);
  }

  lemma SkipLineComment(t: string, p: nat, s: string)
    requires '\n' !in s && At(t, p, "//" + s + "\n")
    ensures NextToken(t, p) == NextToken(t, p + |s| + 3)
  {
    hide TokenAt, RunEnd, Find;
    AtParts(t, p, "//" + s, "\n");
    AtParts(t, p, "//", s);
    PairIsAt(t, p, '/', '/');
    AtFirst(t, p + 2 + |s|, "\n");
    forall i | p + 2 <= i < p + 2 + |s| ensures IsNotNewline(t[i]) {
      AtChar(t, p + 2, s, i - p - 2);
    }
    RunEndIs(t, p + 2, p + 2 + |s|, IsNotNewline);
    NextTokenBlack(t, p);
  }

  lemma SkipBlockComment(t: string, p: nat, s: string)
    requires !Occurs("*/", s) && At(t, p, "/*" + s + "*/")
    ensures NextToken(t, p) == NextToken(t, p + |s| + 4)
  {
    hide TokenAt, RunEnd, Find;
    AtParts(t, p, "/*" + s, "*/");
    AtParts(t, p, "/*", s);
    PairIsAt(t, p, '/', '*');
    EndFound(t, p + 2, s, "*/");
    NextTokenBlack(t, p);
  }

  lemma SkipBlank(t: string, p: nat)
    requires p < |t| && IsWhite(t[p])
    ensures NextToken(t, p) == NextToken(t, p + 1)
  {
    hide AfterWhite;
    RunEndIs(t, p, RunEnd(t, p + 1, IsWhite), IsWhite);
  }

  lemma {:induction false} SkipGap(t: string, p: nat, gap: seq<Piece>)
    requires GapOk(gap) && At(t, p, GapText(gap))
    ensures NextToken(t, p) == NextToken(t, p + |GapText(gap)|)
    decreases |gap|
  {
    hide NextToken, At, Piece.Text, Piece.Ok;
    if gap != [] {
      AtParts(t, p, gap[0].Text(), GapText(gap[1..]));
      SkipPiece(t, p, gap[0]);
      SkipGap(t, p + |gap[0].Text()|, gap[1..]);
    }
  }

  // ---- Spellings -------------------------------------------------------------------------

  lemma NextTokenHere(t: string, p: nat)
    requires p < |t| && !IsWhite(t[p]) && t[p] != '/'
    ensures NextToken(t, p) == TokenAt(t, p)
  {
    hide TokenAt;
    NextTokenBlack(t, p);
  }

  /** Looking for a token from `p` on finds one from `s` to `e`. */
  ghost predicate ReadsTo(t: string, p: nat, s: nat, e: nat)
    requires p <= |t|
  {
    var r := NextToken(t, p);
    r.Scan? && r.token.Some? && r.token.value.start == s && r.token.value.end == e
  }

  /** The spelling at `p` is read as what it means, to its end and with its complaints, if it may
      come before the text behind it; and otherwise no token ends where it does. */
  ghost predicate ReadExactly(t: string, p: nat, form: Form) {
    var e := p + |form.Text()|;
    && e <= |t|
    && if form.Before(t[e..]) then NextToken(t, p) == Found(form.Meaning(), p, e, form.Errors(p))
       else !ReadsTo(t, p, p, e)
  }

  lemma RunEndPast(t: string, p: nat, q: nat, f: char -> bool)
    requires p <= q < |t| && (forall i :: p <= i <= q ==> f(t[i]))
    ensures q < RunEnd(t, p, f)
  {
  }

  lemma RawNeedsR(t: string, p: nat, x: string)
    requires IsWord(x) && At(t, p, x)
    ensures PairAt(t, p, 'R', '\"') <==> x == "R" && p + 1 < |t| && t[p + 1] == '\"'
  {
    AtFirst(t, p, x);
    if |x| > 1 {
      AtChar(t, p, x, 1);
    }
  }

  lemma WordCharacters(t: string, p: nat, x: string)
    requires IsWord(x) && At(t, p, x)
    ensures var e := p + |x|;
      && p < e <= |t| && t[p..e] == x && IsIdentifierStart(t[p])
      && forall i :: p <= i < e ==> IsIdentifierTrail(t[i])
  {
    AtFirst(t, p, x);
    LetterTable(t[p]);
    forall i | p <= i < p + |x| ensures IsIdentifierTrail(t[i]) {
      AtChar(t, p, x, i - p);
      LetterTable(t[i]);
    }
    AtSlice(t, p, x);
  }

  /** A word ends before what is no letter and no digit. */
  lemma WordRun(t: string, p: nat, x: string)
    requires IsWord(x) && At(t, p, x)
    ensures var e := p + |x|;
      && p < e <= |t|
      && if e < |t| && (t[e] in LETTERS || t[e] in DIGITS) then e < RunEnd(t, p + 1, IsIdentifierTrail)
         else RunEnd(t, p + 1, IsIdentifierTrail) == e
  {
    hide At, IsWord, RunEnd, IsIdentifierTrail, IsIdentifierStart;
    var e := p + |x|;
    WordCharacters(t, p, x);
    if e < |t| {
      LetterTable(t[e]);
    }
    if e < |t| && IsIdentifierTrail(t[e]) {
      RunEndPast(t, p + 1, e, IsIdentifierTrail);
    } else {
      RunEndIs(t, p + 1, e, IsIdentifierTrail);
    }
  }

  lemma WordExact(t: string, p: nat, x: string)
    requires IsWord(x) && At(t, p, x)
    ensures ReadExactly(t, p, Word(x))
  {
    hide At, RunEnd, WordToken, RawString, IsWord, IsIdentifierTrail;
    WordCharacters(t, p, x);
    WordRun(t, p, x);
    NextTokenHere(t, p);
    RawNeedsR(t, p, x);
    KeywordTable(x);
  }

  lemma {:induction false} DecimalDigits(n: nat)
    ensures forall i :: 0 <= i < |Decimal(n)| ==> IsNumber(Decimal(n)[i])
    decreases n
  {
    if n >= 10 {
      DecimalDigits(n / 10);
    }
  }

  lemma {:induction false} NumeralOfZeros(zeros: nat)
    ensures Numeral(Zeros(zeros)) == 0
    decreases zeros
  {
    if zeros > 0 {
      NumeralOfZeros(zeros - 1);
      assert Zeros(zeros)[..zeros - 1] == Zeros(zeros - 1);
    }
  }

  /** Reading the decimal digits of a number, with zeros before them, gives the number. */
  lemma {:induction false} NumeralOfDecimal(zeros: nat, n: nat)
    ensures Numeral(Zeros(zeros) + Decimal(n)) == n
    decreases n
  {
    var digit := ('0' as int + n % 10) as char;
    var s := Zeros(zeros) + Decimal(n);
    if n >= 10 {
      NumeralOfDecimal(zeros, n / 10);
      assert s[..|s| - 1] == Zeros(zeros) + Decimal(n / 10);
    } else {
      NumeralOfZeros(zeros);
      assert s[..|s| - 1] == Zeros(zeros);
    }
    assert s[|s| - 1] == digit;
  }

  lemma NumberExact(t: string, p: nat, zeros: nat, n: nat)
    requires n <= MAX_INT && At(t, p, Zeros(zeros) + Decimal(n))
    ensures ReadExactly(t, p, Digits(zeros, n))
  {
    hide RunEnd, Numeral, At;
    var s := Zeros(zeros) + Decimal(n);
    var e := p + |s|;
    DecimalDigits(n);
    hide Decimal;
    AtFirst(t, p, s);
    forall i | p <= i < e ensures IsNumber(t[i]) {
      AtChar(t, p, s, i - p);
    }
    AtSlice(t, p, s);
    NumeralOfDecimal(zeros, n);
    NextTokenHere(t, p);
    if e < |t| {
      LetterTable(t[e]);
    }
    if e < |t| && IsNumber(t[e]) {
      RunEndPast(t, p + 1, e, IsNumber);
    } else {
      RunEndIs(t, p + 1, e, IsNumber);
    }
  }

  // ---- Strings in quotes -----------------------------------------------------------------

  /** A backslash with a character stands for what the table says, without a complaint; a pair
      that is not in the table stands for itself, with one. */
  lemma EscapeExact(t: string, p: nat, c: char)
    requires At(t, p, Pair(c).Text())
    ensures p + 2 <= |t| && EscapeAt(t, p) == Body(Pair(c).Value(), p + 2, Pair(c).Errors(p))
  {
    AtChar(t, p, Pair(c).Text(), 0);
    AtChar(t, p, Pair(c).Text(), 1);
    EscapeTable(c);
  }

  lemma UnitRead(t: string, start: nat, p: nat, u: Unit)
    requires start < p && u.Ok() && At(t, p, u.Text())
    ensures p + |u.Text()| <= |t|
    ensures StringBody(t, start, p) == StringBody(t, start, p + |u.Text()|).After(u.Value(), u.Errors(p))
  {
    hide EscapeAt, At;
    AtFirst(t, p, u.Text());
    if u.Pair? {
      EscapeExact(t, p, u.c);
    }
  }

  lemma {:induction false} UnitsRead(t: string, start: nat, p: nat, units: seq<Unit>)
    requires start < p <= |t| && UnitsOk(units) && At(t, p, UnitsText(units))
    ensures p + |UnitsText(units)| <= |t|
    ensures StringBody(t, start, p) ==
      StringBody(t, start, p + |UnitsText(units)|).After(UnitsValue(units), UnitsErrors(units, p))
    decreases |units|
  {
    hide At, StringBody, Unit.Text, Unit.Value, Unit.Errors;
    if units == [] {
      StringBody(t, start, p).AfterNothing();
    } else {
      var u, more := units[0], units[1..];
      AtParts(t, p, u.Text(), UnitsText(more));
      UnitRead(t, start, p, u);
      var q := p + |u.Text()|;
      UnitsRead(t, start, q, more);
      StringBody(t, start, q + |UnitsText(more)|)
        .AfterTwice(u.Value(), u.Errors(p), UnitsValue(more), UnitsErrors(more, q));
    }
  }

  lemma EndingRead(t: string, start: nat, p: nat, ending: Ending)
    requires start < p && At(t, p, ending.Text())
    ensures var e := p + |ending.Text()|;
      && e <= |t|
      && if ending.Before(t[e..]) then
           StringBody(t, start, p) ==
             Body("", e, if ending.Closed? then [] else [LexError(start, e, "unterminated string")])
         else StringBody(t, start, p).end > e
  {
    var e := p + |ending.Text()|;
    AtSlice(t, p, ending.Text());
    if !ending.Cut? {
      AtFirst(t, p, ending.Text());
    }
    if ending.CutBackslash? && e == |t| {
      assert StringBody(t, start, e) == Body("", e, [LexError(start, e, "unterminated string")]);
    }
  }

  lemma QuotedParts(t: string, p: nat, units: seq<Unit>, ending: Ending)
    requires At(t, p, Quoted(units, ending).Text())
    ensures p < |t| && t[p] == '\"' && At(t, p + 1, UnitsText(units))
    ensures At(t, p + 1 + |UnitsText(units)|, ending.Text())
    ensures |Quoted(units, ending).Text()| == 1 + |UnitsText(units)| + |ending.Text()|
  {
    hide At, UnitsText, Ending.Text;
    AtParts(t, p, "\"", UnitsText(units) + ending.Text());
    AtFirst(t, p, "\"");
    AtParts(t, p + 1, UnitsText(units), ending.Text());
  }

  lemma QuotedBody(t: string, p: nat, units: seq<Unit>, ending: Ending)
    requires UnitsOk(units) && At(t, p, Quoted(units, ending).Text())
    ensures var e := p + |Quoted(units, ending).Text()|;
      && e <= |t| && t[p] == '\"'
      && if ending.Before(t[e..]) then
           StringBody(t, p, p + 1) == Body(UnitsValue(units), e, Quoted(units, ending).Errors(p))
         else StringBody(t, p, p + 1).end > e
  {
    hide At, StringBody, UnitsText, UnitsValue, UnitsErrors, Ending.Text, Ending.Before, Form.Text, Body.After;
    QuotedParts(t, p, units, ending);
    UnitsRead(t, p, p + 1, units);
    var q := p + 1 + |UnitsText(units)|;
    EndingRead(t, p, q, ending);
    AfterEnd(StringBody(t, p, q), UnitsValue(units), UnitsErrors(units, p + 1));
  }

  lemma AfterEnd(b: Body, s: string, es: seq<LexError>)
    ensures b.After(s, es).end == b.end
    ensures b.value == "" ==> b.After(s, es) == Body(s, b.end, es + b.errors)
  {
    assert s + "" == s;
  }

  lemma QuotedExact(t: string, p: nat, units: seq<Unit>, ending: Ending)
    requires UnitsOk(units) && At(t, p, Quoted(units, ending).Text())
    ensures ReadExactly(t, p, Quoted(units, ending))
  {
    hide At, NextToken, StringBody, Form.Text, Form.Errors, Ending.Before;
    QuotedBody(t, p, units, ending);
    QuoteReads(t, p);
  }

  lemma QuoteReads(t: string, p: nat)
    requires p < |t| && t[p] == '\"'
    ensures var b := StringBody(t, p, p + 1);
      NextToken(t, p) == Found(StringLiteral(b.value), p, b.end, b.errors)
  {
    hide RunEnd, StringBody;
    NextTokenHere(t, p);
  }

  // ---- Raw strings -----------------------------------------------------------------------

  lemma CloseOnce(d: string)
    requires IsDelimiterText(d)
    ensures forall i :: 0 < i < |RawClose(d)| ==> RawClose(d)[i] != RawClose(d)[0]
  {
    forall i | 0 < i < |RawClose(d)| ensures RawClose(d)[i] != ')' {
      assert i <= |d| ==> RawClose(d)[i] == d[i - 1];
    }
  }

  /** The delimiter of a raw string ends before a character that no delimiter has. */
  lemma DelimiterRead(t: string, p: nat, d: string)
    requires IsDelimiterText(d) && At(t, p, "R\"" + d)
    ensures var b := p + 2 + |d|;
      && b <= |t| && t[p + 2..b] == d && PairAt(t, p, 'R', '\"')
      && if b < |t| && t[b] !in NO_DELIMITER then b < RunEnd(t, p + 2, IsDelimiter)
         else RunEnd(t, p + 2, IsDelimiter) == b
  {
    hide RunEnd;
    AtParts(t, p, "R\"", d);
    PairIsAt(t, p, 'R', '\"');
    AtSlice(t, p + 2, d);
    var b := p + 2 + |d|;
    forall i | p + 2 <= i < b ensures IsDelimiter(t[i]) {
      AtChar(t, p + 2, d, i - p - 2);
      DelimiterTable(t[i]);
    }
    if b < |t| {
      DelimiterTable(t[b]);
    }
    if b < |t| && t[b] !in NO_DELIMITER {
      RunEndPast(t, p + 2, b, IsDelimiter);
    } else {
      RunEndIs(t, p + 2, b, IsDelimiter);
    }
  }

  lemma RawReads(t: string, p: nat)
    requires PairAt(t, p, 'R', '\"')
    ensures NextToken(t, p) == RawString(t, p)
  {
    hide RawString;
    NextTokenHere(t, p);
  }

  /** Behind `R"d(` the contents reach to the first closing mark, or to the end of the text. */
  lemma BodyRead(t: string, p: nat, d: string)
    requires IsDelimiterText(d) && At(t, p, "R\"" + d + "(")
    ensures var b := p + 3 + |d|; var close := RawClose(d);
      && b <= |t|
      && var q := Find(t, b, close);
         NextToken(t, p) ==
           if q == |t| then Found(StringLiteral(t[b..]), p, |t|, [LexError(p, |t|, "unterminated string")])
           else Found(StringLiteral(t[b..q]), p, q + |close|, [])
  {
    hide At, RunEnd, Find, IsDelimiterText;
    AtParts(t, p, "R\"" + d, "(");
    DelimiterRead(t, p, d);
    AtFirst(t, p + 2 + |d|, "(");
    RawReads(t, p);
    assert RawEnd(d) == RawClose(d);
  }

  /** A raw string stands for its contents, over its whole range, exactly when its closing mark
      does not occur in them. */
  lemma RawStringExact(t: string, p: nat, d: string, v: string)
    requires IsDelimiterText(d) && At(t, p, "R\"" + d + "(" + v + RawClose(d))
    ensures var e := p + 3 + |d| + |v| + |RawClose(d)|;
      NextToken(t, p) == Found(StringLiteral(v), p, e, []) <==> !Occurs(RawClose(d), v)
  {
    hide At, Find, NextToken, Occurs;
    var close := RawClose(d);
    hide RawClose;
    var b := p + 3 + |d|;
    AtParts(t, p, "R\"" + d + "(" + v, close);
    AtParts(t, p, "R\"" + d + "(", v);
    BodyRead(t, p, d);
    CloseOnce(d);
    EndFound(t, b, v, close);
    AtSlice(t, b, v);
  }

  lemma RawCutReads(t: string, p: nat, d: string, v: string)
    requires IsDelimiterText(d) && !Occurs(RawClose(d), v) && At(t, p, "R\"" + d + "(" + v)
    ensures var e := p + 3 + |d| + |v|;
      && e <= |t|
      && if e == |t| then
           NextToken(t, p) == Found(StringLiteral(v), p, e, [LexError(p, e, "unterminated string")])
         else !ReadsTo(t, p, p, e)
  {
    hide At, Find, NextToken, Occurs, IsDelimiterText, RawClose;
    var close := RawClose(d);
    var b := p + 3 + |d|;
    var e := b + |v|;
    AtParts(t, p, "R\"" + d + "(", v);
    AtSlice(t, b, v);
    BodyRead(t, p, d);
    var q := Find(t, b, close);
    if q < |t| {
      NoCloseInside(t, b, v, close, q);
    } else {
      assert e == |t| ==> t[b..] == t[b..e] == v;
    }
  }

  /** A raw string that is not closed reaches to the end of the text. */
  lemma RawCutExact(t: string, p: nat, d: string, v: string)
    requires IsDelimiterText(d) && !Occurs(RawClose(d), v) && At(t, p, RawCut(d, v).Text())
    ensures ReadExactly(t, p, RawCut(d, v))
  {
    hide At, NextToken, ReadsTo, Occurs, IsDelimiterText, RawClose;
    RawCutReads(t, p, d, v);
  }

  lemma NoCloseInside(t: string, b: nat, v: string, close: string, q: nat)
    requires At(t, b, v) && !Occurs(close, v) && close != "" && b <= q && At(t, q, close)
    ensures b + |v| < q + |close| <= |t|
  {
    if q + |close| <= b + |v| {
      AtInside(t, b, v, close, q - b);
      assert At(v, q - b, close);
    }
  }

  /** A raw string whose delimiter is not followed by a parenthesis ends there. */
  lemma RawOpenExact(t: string, p: nat, d: string)
    requires IsDelimiterText(d) && At(t, p, RawOpen(d).Text())
    ensures ReadExactly(t, p, RawOpen(d))
  {
    hide RunEnd, Find;
    DelimiterRead(t, p, d);
    RawReads(t, p);
  }

  // ---- Symbols ---------------------------------------------------------------------------

  lemma SymbolExact(t: string, p: nat, c: char)
    requires Symbol(c).Ok() && At(t, p, [c])
    ensures ReadExactly(t, p, Symbol(c))
  {
    hide At, Find, RunEnd, TokenAt;
    AtFirst(t, p, [c]);
    LetterTable(c);
    SymbolTable(c);
    NextTokenBlack(t, p);
    SymbolTokenAt(t, p);
  }

  lemma SymbolTokenAt(t: string, p: nat)
    requires p < |t| && Symbol(t[p]).Ok()
    ensures TokenAt(t, p) == Found(PunctuationToken(t[p]), p, p + 1, [])
  {
    LetterTable(t[p]);
    LetterTable('R');
  }

  /** Every spelling is read exactly as what it means. */
  lemma SpellingExact(t: string, p: nat, form: Form)
    requires form.Ok() && At(t, p, form.Text())
    ensures ReadExactly(t, p, form)
  {
    hide At, NextToken, ReadExactly, Occurs;
    match form
    case Word(x) => WordExact(t, p, x);
    case Digits(zeros, n) => NumberExact(t, p, zeros, n);
    case Quoted(units, ending) => QuotedExact(t, p, units, ending);
    case Raw(d, v) => RawExact(t, p, d, v);
    case RawCut(d, v) => RawCutExact(t, p, d, v);
    case RawOpen(d) => RawOpenExact(t, p, d);
    case Symbol(c) => SymbolExact(t, p, c);
  }

  lemma RawExact(t: string, p: nat, d: string, v: string)
    requires Raw(d, v).Ok() && At(t, p, Raw(d, v).Text())
    ensures ReadExactly(t, p, Raw(d, v))
  {
    hide At, NextToken, Occurs;
    AtSlice(t, p, Raw(d, v).Text());
    RawStringExact(t, p, d, v);
  }

  // ---- Every layout is read --------------------------------------------------------------

  lemma ItemsRest(items: seq<Item>, tail: Tail)
    requires ItemsOk(items, tail) && items != []
    ensures items[0].Ok() && ItemsOk(items[1..], tail)
  {
  }

  /** The first token of a layout is where the layout puts it, or is not read so. */
  lemma FirstItem(t: string, p: nat, items: seq<Item>, tail: Tail)
    requires ItemsOk(items, tail) && items != []
    requires At(t, p, Render(items, tail)) && p + |Render(items, tail)| == |t|
    ensures var s := p + |GapText(items[0].gap)|;
      var e := s + |items[0].form.Text()|;
      var rest := Render(items[1..], tail);
      && At(t, e, rest) && e + |rest| == |t|
      && if items[0].form.Before(rest) then
           NextToken(t, p) == Found(items[0].form.Meaning(), s, e, items[0].form.Errors(s))
         else !ReadsTo(t, p, s, e)
  {
    hide At, NextToken, GapText, Form.Ok, Form.Text, Form.Before, Form.Meaning, Form.Errors;
    var form, rest := items[0].form, Render(items[1..], tail);
    AtParts(t, p, GapText(items[0].gap), form.Text() + rest);
    var s := p + |GapText(items[0].gap)|;
    AtParts(t, s, form.Text(), rest);
    ItemsRest(items, tail);
    SkipGap(t, p, items[0].gap);
    SpellingExact(t, s, form);
    var e := s + |form.Text()|;
    AtSlice(t, e, rest);
    assert t[e..] == t[e..e + |rest|] == rest;
  }

  /** Behind the last token nothing is found, and a comment that is not closed is complained about. */
  lemma TailRead(t: string, p: nat, tail: Tail)
    requires tail.Ok() && At(t, p, tail.Text()) && p + |tail.Text()| == |t|
    ensures NextToken(t, p) == Scan(None, |t|, LaidErrors([], tail, p))
  {
    hide At, NextToken, GapText, Occurs;
    match tail.open {
      case None =>
        assert tail.Text() == GapText(tail.gap);
        SkipGap(t, p, tail.gap);
        NextTokenEof(t);
      case Some(s) =>
        AtParts(t, p, GapText(tail.gap), "/*" + s);
        SkipGap(t, p, tail.gap);
        OpenCommentRead(t, p + |GapText(tail.gap)|, s);
    }
  }

  lemma OpenCommentRead(t: string, p: nat, s: string)
    requires !Occurs("*/", s) && At(t, p, "/*" + s) && p + 2 + |s| == |t|
    ensures NextToken(t, p) == Scan(None, |t|, [LexError(|t|, |t|, "unterminated comment")])
  {
    hide At, RunEnd, Find, TokenAt, Occurs;
    AtParts(t, p, "/*", s);
    PairIsAt(t, p, '/', '*');
    AtFirst(t, p, "/*");
    NextTokenBlack(t, p);
    var q := Find(t, p + 2, "*/");
    if q < |t| {
      NoCloseInside(t, p + 2, s, "*/", q);
    }
  }

  lemma OneLexeme(t: string, p: nat, l: Lexeme, es: seq<LexError>)
    requires p <= |t| && NextToken(t, p) == Scan(Some(l), l.end, es) && l.end <= |t|
    ensures Lexable(t, p) <==> Lexable(t, l.end)
    ensures Lexable(t, p) ==> Lexemes(t, p) == [l] + Lexemes(t, l.end)
    ensures Lexable(t, p) ==> Complaints(t, p) == es + Complaints(t, l.end)
  {
    hide NextToken;
  }

  lemma NoLexeme(t: string, p: nat, es: seq<LexError>)
    requires p <= |t| && NextToken(t, p) == Scan(None, |t|, es)
    ensures Lexable(t, p) && Lexemes(t, p) == [] && Complaints(t, p) == es
  {
    hide NextToken;
    assert es + [] == es;
  }

  lemma {:induction false} RenderLexesFrom(t: string, p: nat, items: seq<Item>, tail: Tail)
    requires LayoutOk(items, tail)
    requires At(t, p, Render(items, tail)) && p + |Render(items, tail)| == |t|
    ensures Lexable(t, p) && Lexemes(t, p) == Laid(items, p) && Complaints(t, p) == LaidErrors(items, tail, p)
    decreases |items|
  {
    hide At, NextToken, GapText, Render, Form.Text, Form.Before, Form.Meaning, Form.Errors, Item.Ok;
    hide Lexable, Lexemes, Complaints, ReadsTo;
    if items == [] {
      NoItems(tail);
      TailRead(t, p, tail);
      NoLexeme(t, p, LaidErrors([], tail, p));
    } else {
      ItemsRest(items, tail);
      FirstItem(t, p, items, tail);
      var r := NextToken(t, p);
      RenderLexesFrom(t, r.next, items[1..], tail);
      OneLexeme(t, p, r.token.value, r.errors);
    }
  }

  lemma NoItems(tail: Tail)
    ensures Render([], tail) == tail.Text()
  {
  }

  lemma {:induction false} MergedDiffersFrom(t: string, p: nat, items: seq<Item>, tail: Tail)
    requires ItemsOk(items, tail) && !Seams(items, tail)
    requires At(t, p, Render(items, tail)) && p + |Render(items, tail)| == |t|
    ensures Lexable(t, p) ==> Lexemes(t, p) != Laid(items, p)
    decreases |items|
  {
    hide At, NextToken, GapText, Render, Form.Text, Form.Before, Form.Meaning, Form.Errors, Item.Ok, ItemsOk;
    ItemsRest(items, tail);
    FirstItem(t, p, items, tail);
    if Lexable(t, p) {
      var s := p + |GapText(items[0].gap)|;
      var e := s + |items[0].form.Text()|;
      if items[0].form.Before(Render(items[1..], tail)) {
        MergedDiffersFrom(t, e, items[1..], tail);
        assert Lexemes(t, p)[1..] == Lexemes(t, e) && Laid(items, p)[1..] == Laid(items[1..], e);
      } else {
        assert Laid(items, p)[0].start == s && Laid(items, p)[0].end == e;
      }
    }
  }

  /** The text of spelt tokens lexes to those tokens, each in the place where it is spelt, exactly
      when each may come before what stands behind it. */
  lemma RenderLexesExactly(items: seq<Item>, tail: Tail)
    requires ItemsOk(items, tail)
    ensures Lexable(Render(items, tail), 0) && Lexemes(Render(items, tail), 0) == Laid(items, 0)
            <==> Seams(items, tail)
  {
    hide ItemsOk, Seams, Lexemes, Render, Laid, Complaints;
    SelfAt(Render(items, tail));
    if Seams(items, tail) {
      RenderLexesFrom(Render(items, tail), 0, items, tail);
    } else {
      MergedDiffersFrom(Render(items, tail), 0, items, tail);
    }
  }

  lemma {:induction false} LaidTokens(items: seq<Item>, p: nat)
    ensures Tokens(Laid(items, p)) == ItemTokens(items)
    decreases |items|
  {
    hide Form.Text, Form.Meaning;
    if items != [] {
      var e := p + |GapText(items[0].gap)| + |items[0].form.Text()|;
      LaidTokens(items[1..], e);
      assert Laid(items, p)[1..] == Laid(items[1..], e);
    }
  }

  /** Every layout is read as its tokens, each in its place, and with its complaints. */
  lemma RenderLexes(items: seq<Item>, tail: Tail)
    requires LayoutOk(items, tail)
    ensures var t := Render(items, tail);
      && Lexable(t, 0) && Lexemes(t, 0) == Laid(items, 0)
      && Complaints(t, 0) == LaidErrors(items, tail, 0)
      && Tokens(Lexemes(t, 0)) == ItemTokens(items)
  {
    hide LayoutOk, Render, Lexemes, Laid, LaidErrors, Complaints;
    SelfAt(Render(items, tail));
    RenderLexesFrom(Render(items, tail), 0, items, tail);
    LaidTokens(items, 0);
  }

  // ---- Order ---------------------------------------------------------------------------

  /** The ranges of the tokens lie one behind the other in the text and each begins with a
      character that is not white. */
  ghost predicate InOrder(t: string, p: nat, ls: seq<Lexeme>) {
    && (forall i :: 0 <= i < |ls| ==> p <= ls[i].start < ls[i].end <= |t| && !IsWhite(t[ls[i].start]))
    && (forall i, j :: 0 <= i < j < |ls| ==> ls[i].end <= ls[j].start)
  }

  lemma {:induction false} TokensInOrder(t: string, p: nat)
    requires p <= |t| && Lexable(t, p)
    ensures InOrder(t, p, Lexemes(t, p))
    decreases |t| - p
  {
    hide NextToken;
    var r := NextToken(t, p);
    if r.token.Some? {
      TokensInOrder(t, r.next);
      var ls, rest := Lexemes(t, p), Lexemes(t, r.next);
      assert ls == [r.token.value] + rest;
      forall i, j | 0 <= i < j < |ls| ensures ls[i].end <= ls[j].start {
        assert ls[j] == rest[j - 1] && (i > 0 ==> ls[i] == rest[i - 1]);
      }
    }
  }

  // ---- The assertion ---------------------------------------------------------------------

  /** Where the lexer goes on from behind the comment or token at `s`. */
  function Behind(t: string, s: nat): (q: nat)
    requires s < |t|
    ensures s < q <= |t|
  {
    if PairAt(t, s, '/', '/') then
      var e := RunEnd(t, s + 2, IsNotNewline);
      if e == |t| then e else e + 1
    else if PairAt(t, s, '/', '*') then
      var e := Find(t, s + 2, "*/");
      if e == |t| then e else e + 2
    else TokenAt(t, s).next
  }

  /** Going on from `p`, the lexer comes to a comment or token at `s`. */
  predicate Visits(t: string, p: nat, s: nat)
    requires p <= |t|
    decreases |t| - p
  {
    var b := RunEnd(t, p, IsWhite);
    b < |t| && (s == b || Visits(t, Behind(t, b), s))
  }

  predicate CutOffComment(t: string, s: nat) {
    PairAt(t, s, '/', '/') && forall i :: s + 2 <= i < |t| ==> t[i] != '\n'
  }

  lemma LexableStep(t: string, p: nat)
    requires p <= |t| && RunEnd(t, p, IsWhite) < |t|
    ensures var b := RunEnd(t, p, IsWhite);
      Lexable(t, p) <==> !CutOffComment(t, b) && Lexable(t, Behind(t, b))
  {
    hide TokenAt, Find, RunEnd;
    var b := RunEnd(t, p, IsWhite);
    NextTokenUnfold(t, p);
    NextTokenEof(t);
    if PairAt(t, b, '/', '/') {
      var e := RunEnd(t, b + 2, IsNotNewline);
      assert e == |t| <==> CutOffComment(t, b);
    }
  }

  /** The assertion in `advance_char` fails exactly for a text in which the lexer comes to a
      single-line comment that no line break ends. */
  lemma {:induction false} LexableExactly(t: string, p: nat)
    requires p <= |t|
    ensures Lexable(t, p) <==> !exists s: nat :: Visits(t, p, s) && CutOffComment(t, s)
    decreases |t| - p
  {
    hide NextToken, CutOffComment, Behind;
    var b := RunEnd(t, p, IsWhite);
    if b < |t| {
      var q := Behind(t, b);
      LexableExactly(t, q);
      LexableStep(t, p);
      assert Visits(t, p, b);
      assert forall s: nat :: Visits(t, q, s) ==> Visits(t, p, s);
    } else {
      NextTokenUnfold(t, p);
    }
  }

  /** A text that ends its last line is always read to the end. */
  lemma EndedLineLexes(t: string)
    requires t != "" && t[|t| - 1] == '\n'
    ensures Lexable(t, 0)
  {
    hide Lexable, Visits;
    LexableExactly(t, 0);
  }

  lemma CutOffCommentAborts()
    ensures !Lexable("//", 0)
  {
    LexableExactly("//", 0);
    assert RunEnd("//", 0, IsWhite) == 0;
    assert Visits("//", 0, 0) && CutOffComment("//", 0);
  }
}
