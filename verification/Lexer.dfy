/** The lexer with its one token of lookahead, as a class that moves `pos` over the text. */
module ConfigLexer {
  import opened Wrappers
  import opened Lexing

  class Lexer {
    const text: string
    var pos: nat
    var currentToken: Option<Lexeme>
    var errors: seq<LexError>

    ghost predicate Valid()
      reads this
    {
      && pos <= |text|
      && Lexable(text, pos)
      && (currentToken.None? ==> pos == |text|)
      && (currentToken.Some? ==> currentToken.value.end == pos)
    }

    /** The tokens still to be read, the one looked at included. */
    ghost function Rest(): seq<Lexeme>
      reads this
      requires Valid()
    {
      if currentToken.None? then [] else [currentToken.value] + Lexemes(text, pos)
    }

    /** The complaints about the whole text, made and still to be made. */
    ghost function AllErrors(): seq<LexError>
      reads this
      requires Valid()
    {
      errors + if currentToken.None? then [] else Complaints(text, pos)
    }

    /** The assertion in `advance_char` must not fail. */
    constructor (text: string)
      requires Lexable(text, 0)
      ensures Valid() && this.text == text
      ensures Rest() == Lexemes(text, 0) && AllErrors() == Complaints(text, 0)
    {
      hide NextToken;
      this.text := text;
      pos := 0;
      currentToken := None;
      errors := [];
      new;
      NextTokenEof(text);
      currentToken := ReadNextToken();
    }

    predicate EofToken()
      reads this
      requires Valid()
      ensures EofToken() <==> Rest() == []
    {
      currentToken.None?
    }

    function PeekToken(): (l: Lexeme)
      reads this
      requires Valid() && !EofToken()
      ensures l == Rest()[0]
    {
      currentToken.value
    }

    method ReadToken() returns (token: Option<Lexeme>)
      requires Valid()
      modifies this
      ensures Valid()
      ensures old(Rest()) == [] ==> token.None? && Rest() == []
      ensures old(Rest()) != [] ==> token == Some(old(Rest()[0])) && Rest() == old(Rest()[1..])
      ensures AllErrors() == old(AllErrors())
    {
      hide NextToken;
      NextTokenEof(text);
      var t := ReadNextToken();
      t, currentToken := currentToken, t;
      token := t;
    }

    // ---- Private -------------------------------------------------------------------------

    /** The new token, `pos` and complaints are those of `NextToken`. A branch of the program
        that makes a token of white space is never taken, because `SkipWhitespace` has run. */
    method ReadNextToken() returns (token: Option<Lexeme>)
      requires pos <= |text| && Lexable(text, pos)
      modifies this`pos, this`errors
      ensures var r := NextToken(text, old(pos));
        r == Scan(token, pos, r.errors) && errors == old(errors) + r.errors
    {
      hide NextToken, TokenAt, Find, RunEnd;
      ghost var r := NextToken(text, pos);
      while true
        invariant old(pos) <= pos <= |text| && NextToken(text, pos).Scan?
        invariant NextToken(text, pos).token == r.token && NextToken(text, pos).next == r.next
        invariant errors + NextToken(text, pos).errors == old(errors) + r.errors
        decreases |text| - pos
      {
        NextTokenUnfold(text, pos);
        SkipWhitespace();
        if EofChar() {
          return None;
        }
        if PairHere('/', '/') {
          AdvanceChar(2);
          SkipLineComment();
        } else if PairHere('/', '*') {
          NextTokenEof(text);
          AdvanceChar(2);
          SkipBlockComment();
        } else {
          token := ReadTokenHere();
          return;
        }
      }
    }

    predicate EofChar()
      reads this
    {
      pos == |text|
    }

    method AdvanceChar(n: nat := 1)
      requires pos + n <= |text|
      modifies this`pos
      ensures pos == old(pos) + n
    {
      pos := pos + n;
    }

    method SkipWhitespace()
      requires pos <= |text|
      modifies this`pos
      ensures pos == RunEnd(text, old(pos), IsWhite)
    {
      while true
        invariant pos <= |text| && RunEnd(text, pos, IsWhite) == RunEnd(text, old(pos), IsWhite)
        decreases |text| - pos
      {
        if EofChar() {
          break;
        }
        if !IsWhite(text[pos]) {
          break;
        }
        AdvanceChar();
      }
    }

    predicate PairHere(first: char, second: char)
      reads this
      requires pos <= |text|
      ensures PairHere(first, second) <==> PairAt(text, pos, first, second)
    {
      |text| - pos >= 2 && text[pos] == first && text[pos + 1] == second
    }

    method SkipLineComment()
      requires pos <= |text| && RunEnd(text, pos, IsNotNewline) < |text|
      modifies this`pos
      ensures pos == RunEnd(text, old(pos), IsNotNewline) + 1
    {
      while true
        invariant pos <= |text|
        invariant RunEnd(text, pos, IsNotNewline) == RunEnd(text, old(pos), IsNotNewline)
        decreases |text| - pos
      {
        if EofChar() || text[pos] == '\n' {
          AdvanceChar();
          break;
        } else {
          AdvanceChar();
        }
      }
    }

    method SkipBlockComment()
      requires pos <= |text|
      modifies this`pos, this`errors
      ensures var e := Find(text, old(pos), "*/");
        if e == |text| then
          pos == e && errors == old(errors) + [LexError(e, e, "unterminated comment")]
        else
          pos == e + 2 && errors == old(errors)
    {
      while true
        invariant pos <= |text| && errors == old(errors)
        invariant Find(text, pos, "*/") == Find(text, old(pos), "*/")
        decreases |text| - pos
      {
        PairIsAt(text, pos, '*', '/');
        if EofChar() {
          errors := errors + [LexError(pos, pos, "unterminated comment")];
          break;
        } else if PairHere('*', '/') {
          AdvanceChar(2);
          break;
        } else {
          AdvanceChar();
        }
      }
    }

    method ReadTokenHere() returns (token: Option<Lexeme>)
      requires pos < |text|
      modifies this`pos, this`errors
      ensures var r := TokenAt(text, old(pos));
        r == Scan(token, pos, r.errors) && errors == old(errors) + r.errors
    {
      if PairHere('R', '\"') {
        token := ReadRawString();
      } else if IsIdentifierStart(text[pos]) {
        token := ReadWord();
      } else if IsNumber(text[pos]) {
        token := ReadNumber();
      } else if text[pos] == '\"' {
        token := ReadString();
      } else {
        token := ReadPunctuation();
      }
    }

    predicate IsRawStringEnd(prefix: string)
      reads this
      requires pos <= |text|
      ensures IsRawStringEnd(prefix) <==> At(text, pos, RawEnd(prefix))
    {
      RawEndParts(text, pos, prefix);
      |text| - pos >= 2 + |prefix| && text[pos] == ')' && text[pos + 1..pos + 1 + |prefix|] == prefix
      && text[pos + 1 + |prefix|] == '\"'
    }

    method ReadRawString() returns (token: Option<Lexeme>)
      requires pos <= |text| && PairAt(text, pos, 'R', '\"')
      modifies this`pos, this`errors
      ensures var r := RawString(text, old(pos));
        r == Scan(token, pos, r.errors) && errors == old(errors) + r.errors
    {
      hide RunEnd, Find, RawEnd;
      var lexStart := pos;
      AdvanceChar(2);
      var prefix := ReadDelimiter(lexStart);
      match prefix {
        case None => return Some(Lexeme(StringLiteral(""), lexStart, pos));
        case Some(delimiter) => token := ReadRawBody(lexStart, delimiter);
      }
    }

    method ReadDelimiter(lexStart: nat) returns (prefix: Option<string>)
      requires pos <= |text|
      modifies this`pos, this`errors
      ensures var d := RunEnd(text, old(pos), IsDelimiter);
        if d == |text| || text[d] != '(' then
          && pos == d && prefix == None
          && errors == old(errors) + [LexError(lexStart, d, "expected '(' in raw string literal")]
        else
          pos == d + 1 && prefix == Some(text[old(pos)..d]) && errors == old(errors)
    {
      var s := "";
      while true
        invariant old(pos) <= pos <= |text| && errors == old(errors)
        invariant s == text[old(pos)..pos]
        invariant RunEnd(text, pos, IsDelimiter) == RunEnd(text, old(pos), IsDelimiter)
        decreases |text| - pos
      {
        if EofChar() || BreaksDelimiter(text[pos]) {
          errors := errors + [LexError(lexStart, pos, "expected '(' in raw string literal")];
          return None;
        } else if text[pos] == '(' {
          AdvanceChar();
          return Some(s);
        } else {
          s := s + [text[pos]];
          AdvanceChar();
        }
      }
    }

    method ReadRawBody(lexStart: nat, prefix: string) returns (token: Option<Lexeme>)
      requires pos <= |text|
      modifies this`pos, this`errors
      ensures var q := Find(text, old(pos), RawEnd(prefix));
        if q == |text| then
          && pos == q
          && token == Some(Lexeme(StringLiteral(text[old(pos)..]), lexStart, q))
          && errors == old(errors) + [LexError(lexStart, q, "unterminated string")]
        else
          && pos == q + |prefix| + 2
          && token == Some(Lexeme(StringLiteral(text[old(pos)..q]), lexStart, pos))
          && errors == old(errors)
    {
      var value := "";
      while true
        invariant old(pos) <= pos <= |text| && errors == old(errors)
        invariant value == text[old(pos)..pos]
        invariant Find(text, pos, RawEnd(prefix)) == Find(text, old(pos), RawEnd(prefix))
        decreases |text| - pos
      {
        if EofChar() {
          errors := errors + [LexError(lexStart, pos, "unterminated string")];
          assert text[old(pos)..pos] == text[old(pos)..];
          return Some(Lexeme(StringLiteral(value), lexStart, pos));
        } else if IsRawStringEnd(prefix) {
          AdvanceChar(2 + |prefix|);
          return Some(Lexeme(StringLiteral(value), lexStart, pos));
        } else {
          value := value + [text[pos]];
          AdvanceChar();
        }
      }
    }

    method ReadWord() returns (token: Option<Lexeme>)
      requires pos < |text| && IsIdentifierStart(text[pos])
      modifies this`pos
      ensures pos == RunEnd(text, old(pos) + 1, IsIdentifierTrail)
      ensures token == Some(Lexeme(WordToken(text[old(pos)..pos]), old(pos), pos))
    {
      var lexStart := pos;
      var s := [text[pos]];
      AdvanceChar();
      while !EofChar() && IsIdentifierTrail(text[pos])
        invariant lexStart < pos <= |text| && s == text[lexStart..pos]
        invariant RunEnd(text, pos, IsIdentifierTrail) == RunEnd(text, lexStart + 1, IsIdentifierTrail)
        decreases |text| - pos
      {
        s := s + [text[pos]];
        AdvanceChar();
      }
      token := Some(Lexeme(WordToken(s), lexStart, pos));
    }

    method ReadNumber() returns (token: Option<Lexeme>)
      requires pos < |text| && IsNumber(text[pos])
      modifies this`pos
      ensures pos == RunEnd(text, old(pos) + 1, IsNumber)
      ensures token == Some(Lexeme(IntegerLiteral(Numeral(text[old(pos)..pos])), old(pos), pos))
    {
      var lexStart := pos;
      var value := Digit(text[pos]);
      AdvanceChar();
      assert text[lexStart..pos] == [text[lexStart]];
      while !EofChar() && IsNumber(text[pos])
        invariant lexStart < pos <= |text| && value == Numeral(text[lexStart..pos])
        invariant RunEnd(text, pos, IsNumber) == RunEnd(text, lexStart + 1, IsNumber)
        decreases |text| - pos
      {
        assert text[lexStart..pos + 1][..pos - lexStart] == text[lexStart..pos];
        value := value * 10 + Digit(text[pos]);
        AdvanceChar();
      }
      token := Some(Lexeme(IntegerLiteral(value), lexStart, pos));
    }

    method ReadString() returns (token: Option<Lexeme>)
      requires pos < |text| && text[pos] == '\"'
      modifies this`pos, this`errors
      ensures var b := StringBody(text, old(pos), old(pos) + 1);
        && pos == b.end && errors == old(errors) + b.errors
        && token == Some(Lexeme(StringLiteral(b.value), old(pos), pos))
    {
      var lexStart := pos;
      AdvanceChar();
      var value := "";
      ghost var b := StringBody(text, lexStart, lexStart + 1);
      ghost var es: seq<LexError> := [];
      b.AfterNothing();
      hide StringBody, EscapeAt;
      while true
        invariant lexStart < pos <= |text|
        invariant errors == old(errors) + es
        invariant StringBody(text, lexStart, pos).After(value, es) == b
        decreases |text| - pos
      {
        StringBodyStep(text, lexStart, pos, value, es);
        if EofChar() || text[pos] == '\n' {
          errors := errors + [LexError(lexStart, pos, "unterminated string")];
          return Some(Lexeme(StringLiteral(value), lexStart, pos));
        } else if text[pos] == '\"' {
          AdvanceChar();
          return Some(Lexeme(StringLiteral(value), lexStart, pos));
        } else if text[pos] == '\\' {
          ghost var e := EscapeAt(text, pos);
          es := es + e.errors;
          var s := ReadEscape();
          value := value + s;
        } else {
          value := value + [text[pos]];
          AdvanceChar();
        }
      }
    }

    method ReadEscape() returns (s: string)
      requires pos < |text|
      modifies this`pos, this`errors
      ensures var e := EscapeAt(text, old(pos));
        s == e.value && pos == e.end && errors == old(errors) + e.errors
    {
      var escapeStart := pos;
      AdvanceChar();
      s := "";
      if !EofChar() {
        match Unescape(text[pos]) {
          case Some(c) =>
            s := [c];
          case None =>
            errors := errors + [LexError(escapeStart, pos + 1, "invalid escape character")];
            s := ['\\', text[pos]];
        }
        AdvanceChar();
      }
    }

    method ReadPunctuation() returns (token: Option<Lexeme>)
      requires pos < |text|
      modifies this`pos
      ensures pos == old(pos) + 1
      ensures token == Some(Lexeme(PunctuationToken(text[old(pos)]), old(pos), pos))
    {
      var lexStart := pos;
      AdvanceChar();
      token := Some(Lexeme(PunctuationToken(text[lexStart]), lexStart, pos));
    }
  }

  lemma RawEndParts(t: string, p: nat, prefix: string)
    ensures At(t, p, RawEnd(prefix)) <==>
      && p + |prefix| + 2 <= |t| && t[p] == ')' && t[p + 1..p + 1 + |prefix|] == prefix
      && t[p + 1 + |prefix|] == '\"'
  {
    var s := RawEnd(prefix);
    assert |s| == |prefix| + 2 && s[0] == ')' && s[1 + |prefix|] == '\"';
    assert forall i :: 0 <= i < |prefix| ==> s[1 + i] == prefix[i];
    if At(t, p, s) {
      forall i | 0 <= i < |prefix| ensures t[p + 1..p + 1 + |prefix|][i] == prefix[i] {
        assert t[p + (1 + i)] == s[1 + i];
      }
    } else if p + |s| <= |t| {
      var i :| 0 <= i < |s| && t[p + i] != s[i];
      if 0 < i < 1 + |prefix| {
        assert t[p + 1..p + 1 + |prefix|][i - 1] != prefix[i - 1];
      }
    }
  }
}
