/** The tokens of a configuration file, as functions of the text.

    Positions are offsets into the text. A character is compared the way the program compares
    its bytes: everything from NUL up to the space is white. */
module Lexing {
  import opened Wrappers

  datatype Token =
    | Unknown
    | Identifier(text: string)
    | IntegerLiteral(number: int)
    | StringLiteral(value: string)
    | LBrace | RBrace | Equals | Semicolon | Comma | Colon
    | TaskKeyword | TrueKeyword | FalseKeyword | DependsKeyword | RunLevelKeyword

  datatype Lexeme = Lexeme(token: Token, start: nat, end: nat)

  datatype LexError = LexError(start: nat, end: nat, message: string)

  /** The outcome of looking for the next token: the token, if the text has another one, the
      place to go on from and the complaints on the way. `Aborted` is the failing assertion of
      `advance_char` behind a single-line comment that the end of the text cuts off. */
  datatype Scan =
    | Aborted
    | Scan(token: Option<Lexeme>, next: nat, errors: seq<LexError>)

  // ---- Characters ------------------------------------------------------------------------

  predicate IsWhite(c: char) { c <= ' ' }

  predicate IsIdentifierStart(c: char) {
    'A' <= c <= 'Z' || 'a' <= c <= 'z' || c == '_'
  }

  predicate IsNumber(c: char) { '0' <= c <= '9' }

  predicate IsIdentifierTrail(c: char) { IsIdentifierStart(c) || IsNumber(c) }

  predicate IsNotNewline(c: char) { c != '\n' }

  const VERTICAL_TAB := 11 as char

  predicate BreaksDelimiter(c: char) {
    c == ' ' || c == ')' || c == '\t' || c == VERTICAL_TAB || c == '\r' || c == '\n'
  }

  /** The characters a raw string may have in its delimiter. */
  predicate IsDelimiter(c: char) { !BreaksDelimiter(c) && c != '(' }

  predicate At(t: string, p: nat, s: string) {
    p + |s| <= |t| && forall i :: 0 <= i < |s| ==> t[p + i] == s[i]
  }

  predicate PairAt(t: string, p: nat, a: char, b: char) {
    p + 2 <= |t| && t[p] == a && t[p + 1] == b
  }

  lemma PairIsAt(t: string, p: nat, a: char, b: char)
    ensures PairAt(t, p, a, b) <==> At(t, p, [a, b])
  {
    if At(t, p, [a, b]) {
      assert t[p + 0] == [a, b][0] && t[p + 1] == [a, b][1];
    }
  }

  /** The end of the run of characters in class `f` that starts at `p`. */
  function RunEnd(t: string, p: nat, f: char -> bool): (q: nat)
    requires p <= |t|
    ensures p <= q <= |t|
    ensures forall i :: p <= i < q ==> f(t[i])
    ensures q < |t| ==> !f(t[q])
    decreases |t| - p
  {
    if p < |t| && f(t[p]) then RunEnd(t, p + 1, f) else p
  }

  /** The first place at or after `p` where `s` occurs; the end of the text if there is none. */
  function Find(t: string, p: nat, s: string): (q: nat)
    requires p <= |t| && s != ""
    ensures p <= q <= |t|
    ensures forall i :: p <= i < q ==> !At(t, i, s)
    ensures q < |t| ==> At(t, q, s)
    decreases |t| - p
  {
    if p == |t| || At(t, p, s) then p else Find(t, p + 1, s)
  }

  // ---- Token values ----------------------------------------------------------------------

  function WordToken(text: string): Token {
    if text == "task" then TaskKeyword
    else if text == "true" then TrueKeyword
    else if text == "false" then FalseKeyword
    else if text == "depends" then DependsKeyword
    else if text == "run_level" then RunLevelKeyword
    else Identifier(text)
  }

  /** Anything else that starts a token: one character. */
  function PunctuationToken(c: char): Token {
    if c == '{' then LBrace
    else if c == '}' then RBrace
    else if c == '=' then Equals
    else if c == ';' then Semicolon
    else if c == ',' then Comma
    else if c == ':' then Colon
    else Unknown
  }

  function Digit(c: char): int { c as int - '0' as int }

  /** The value of a row of digits; not limited to the range of the program's `int`. */
  function Numeral(s: string): int {
    if s == "" then 0 else Numeral(s[..|s| - 1]) * 10 + Digit(s[|s| - 1])
  }

  /** The character that a backslash and `c` stand for. */
  function Unescape(c: char): Option<char> {
    if c == 'a' then Some(7 as char)
    else if c == 'b' then Some(8 as char)
    else if c == 'f' then Some(12 as char)
    else if c == 'n' then Some('\n')
    else if c == 'r' then Some('\r')
    else if c == 't' then Some('\t')
    else if c == 'v' then Some(VERTICAL_TAB)
    else if c == '\\' then Some('\\')
    else if c == '\'' then Some('\'')
    else if c == '\"' then Some('\"')
    else None
  }

  /** The rest of a string literal from inside its quotes: value, end and complaints. */
  datatype Body = Body(value: string, end: nat, errors: seq<LexError>)
  {
    function After(s: string, es: seq<LexError>): Body {
      Body(s + value, end, es + errors)
    }

    lemma AfterTwice(s: string, es: seq<LexError>, s': string, es': seq<LexError>)
      ensures After(s', es').After(s, es) == After(s + s', es + es')
    {
      assert s + (s' + value) == s + s' + value && es + (es' + errors) == es + es' + errors;
    }

    lemma AfterNothing()
      ensures After("", []) == this
    {
      assert "" + value == value && [] + errors == errors;
    }
  }

  /** A backslash and the character behind it. One at the end of the text means nothing; before
      a character it cannot go with it stands for itself. */
  function EscapeAt(t: string, p: nat): (e: Body)
    requires p < |t|
    ensures p < e.end <= |t|
  {
    if p + 1 == |t| then Body("", p + 1, [])
    else match Unescape(t[p + 1])
      case Some(c) => Body([c], p + 2, [])
      case None => Body(['\\', t[p + 1]], p + 2, [LexError(p, p + 2, "invalid escape character")])
  }

  function StringBody(t: string, start: nat, p: nat): (b: Body)
    requires start < p <= |t|
    ensures p <= b.end <= |t|
    decreases |t| - p
  {
    if p == |t| || t[p] == '\n' then Body("", p, [LexError(start, p, "unterminated string")])
    else if t[p] == '\"' then Body("", p + 1, [])
    else if t[p] == '\\' then
      var e := EscapeAt(t, p);
      StringBody(t, start, e.end).After(e.value, e.errors)
    else StringBody(t, start, p + 1).After([t[p]], [])
  }

  /** One turn of the loop over the characters of a string, with what it has gathered. */
  lemma StringBodyStep(t: string, start: nat, p: nat, s: string, es: seq<LexError>)
    requires start < p <= |t|
    ensures StringBody(t, start, p).After(s, es) ==
      if p == |t| || t[p] == '\n' then Body(s, p, es + [LexError(start, p, "unterminated string")])
      else if t[p] == '\"' then Body(s, p + 1, es)
      else if t[p] == '\\' then
        var e := EscapeAt(t, p);
        StringBody(t, start, e.end).After(s + e.value, es + e.errors)
      else StringBody(t, start, p + 1).After(s + [t[p]], es)
  {
    hide EscapeAt;
    if p < |t| && t[p] != '\n' && t[p] != '\"' {
      if t[p] == '\\' {
        var e := EscapeAt(t, p);
        StringBody(t, start, e.end).AfterTwice(s, es, e.value, e.errors);
      } else {
        StringBody(t, start, p + 1).AfterTwice(s, es, [t[p]], []);
      }
    }
  }

  // ---- Tokens ----------------------------------------------------------------------------

  function Found(token: Token, start: nat, end: nat, errors: seq<LexError>): Scan {
    Scan(Some(Lexeme(token, start, end)), end, errors)
  }

  function RawEnd(delimiter: string): (s: string)
    ensures |s| == |delimiter| + 2
  {
    ")" + delimiter + "\""
  }

  function RawString(t: string, s: nat): (r: Scan)
    requires PairAt(t, s, 'R', '\"')
    ensures r.Scan? && r.token.Some? && r.token.value.start == s && s + 2 <= r.token.value.end == r.next <= |t|
  {
    var d := RunEnd(t, s + 2, IsDelimiter);
    if d == |t| || t[d] != '(' then
      Found(StringLiteral(""), s, d, [LexError(s, d, "expected '(' in raw string literal")])
    else
      var close := RawEnd(t[s + 2..d]);
      var q := Find(t, d + 1, close);
      if q == |t| then
        Found(StringLiteral(t[d + 1..]), s, |t|, [LexError(s, |t|, "unterminated string")])
      else
        Found(StringLiteral(t[d + 1..q]), s, q + |close|, [])
  }

  /** The token that starts at `s`. */
  function TokenAt(t: string, s: nat): (r: Scan)
    requires s < |t|
    ensures r.Scan? && r.token.Some? && r.token.value.start == s < r.token.value.end == r.next <= |t|
  {
    if PairAt(t, s, 'R', '\"') then RawString(t, s)
    else if IsIdentifierStart(t[s]) then
      var e := RunEnd(t, s + 1, IsIdentifierTrail);
      Found(WordToken(t[s..e]), s, e, [])
    else if IsNumber(t[s]) then
      var e := RunEnd(t, s + 1, IsNumber);
      Found(IntegerLiteral(Numeral(t[s..e])), s, e, [])
    else if t[s] == '\"' then
      var b := StringBody(t, s, s + 1);
      Found(StringLiteral(b.value), s, b.end, b.errors)
    else
      Found(PunctuationToken(t[s]), s, s + 1, [])
  }

  /** The first token at or after `p`, past white space and comments. */
  function NextToken(t: string, p: nat): (r: Scan)
    requires p <= |t|
    ensures TokenBetween(t, p, r)
    decreases |t| - p, 1
  {
    AfterWhite(t, RunEnd(t, p, IsWhite))
  }

  /** The same from a place where no white space is left. */
  function AfterWhite(t: string, s: nat): (r: Scan)
    requires s <= |t| && (s < |t| ==> !IsWhite(t[s]))
    ensures TokenBetween(t, s, r)
    decreases |t| - s, 0
  {
    if s == |t| then Scan(None, s, [])
    else if PairAt(t, s, '/', '/') then
      var e := RunEnd(t, s + 2, IsNotNewline);
      if e == |t| then Aborted else NextToken(t, e + 1)
    else if PairAt(t, s, '/', '*') then
      var e := Find(t, s + 2, "*/");
      if e == |t| then Scan(None, |t|, [LexError(|t|, |t|, "unterminated comment")])
      else NextToken(t, e + 2)
    else TokenAt(t, s)
  }

  /** A token begins with a character that is not white, at or after `p`, and has a width; when
      there is none, the text is used up. */
  predicate TokenBetween(t: string, p: nat, r: Scan) {
    match r
    case Aborted => true
    case Scan(None, next, _) => p <= next == |t|
    case Scan(Some(l), next, _) => p <= l.start < l.end == next <= |t| && !IsWhite(t[l.start])
  }

  lemma NextTokenUnfold(t: string, p: nat)
    requires p <= |t|
    ensures NextToken(t, p) == AfterWhite(t, RunEnd(t, p, IsWhite))
  {
    hide AfterWhite;
  }

  lemma NextTokenBlack(t: string, s: nat)
    requires s <= |t| && (s < |t| ==> !IsWhite(t[s]))
    ensures NextToken(t, s) == AfterWhite(t, s)
  {
    hide AfterWhite;
    assert RunEnd(t, s, IsWhite) == s;
  }

  lemma NextTokenEof(t: string)
    ensures NextToken(t, |t|) == Scan(None, |t|, [])
  {
  }

  /** The lexer reads everything from `p` on without failing its assertion. */
  predicate Lexable(t: string, p: nat)
    requires p <= |t|
    decreases |t| - p
  {
    var r := NextToken(t, p);
    r.Scan? && (r.token.Some? ==> Lexable(t, r.next))
  }

  /** All tokens from `p` on. */
  function Lexemes(t: string, p: nat): seq<Lexeme>
    requires p <= |t| && Lexable(t, p)
    decreases |t| - p
  {
    var r := NextToken(t, p);
    if r.token.None? then [] else [r.token.value] + Lexemes(t, r.next)
  }

  /** All complaints from `p` on. */
  function Complaints(t: string, p: nat): seq<LexError>
    requires p <= |t| && Lexable(t, p)
    decreases |t| - p
  {
    var r := NextToken(t, p);
    r.errors + if r.token.None? then [] else Complaints(t, r.next)
  }
}
