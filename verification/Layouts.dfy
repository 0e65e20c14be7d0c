/** How texts are laid out: which spellings there are, what each of them means and what may come
    behind it. Nothing here refers to the way the lexer finds tokens.

    A text is a row of items, each a gap of white space and comments with a spelling behind it,
    and a tail. The spellings of strings include the damaged ones, which mean a token and a
    complaint. */
module Layouts {
  import opened Wrappers
  import opened Lexing

  // ---- Characters ------------------------------------------------------------------------

  const LETTERS := set c: char | 'A' <= c <= 'Z' || 'a' <= c <= 'z' || c == '_'

  const DIGITS := set c: char | '0' <= c <= '9'

  /** The characters that end the delimiter of a raw string. */
  const NO_DELIMITER := [' ', ')', '(', '\t', 11 as char, '\r', '\n']

  const KEYWORDS := map[
    "task" := TaskKeyword, "true" := TrueKeyword, "false" := FalseKeyword,
    "depends" := DependsKeyword, "run_level" := RunLevelKeyword]

  const SYMBOLS := map[
    '{' := LBrace, '}' := RBrace, '=' := Equals, ';' := Semicolon, ',' := Comma, ':' := Colon]

  /** What a backslash and a character stand for. */
  const ESCAPES := map[
    'a' := 7 as char, 'b' := 8 as char, 'f' := 12 as char, 'n' := '\n', 'r' := '\r', 't' := '\t',
    'v' := 11 as char, '\\' := '\\', '\'' := '\'', '\"' := '\"']

  /** The largest value of the program's `int`. */
  const MAX_INT := 0x7fff_ffff

  // ---- Gaps ------------------------------------------------------------------------------

  predicate Occurs(s: string, v: string) { exists i :: 0 <= i < |v| && At(v, i, s) }

  datatype Piece = Blank(c: char) | LineComment(s: string) | BlockComment(s: string)
  {
    predicate Ok() {
      match this
      case Blank(c) => c <= ' '
      case LineComment(s) => '\n' !in s
      case BlockComment(s) => !Occurs("*/", s)
    }

    function Text(): (r: string)
      ensures r != ""
    {
      match this
      case Blank(c) => [c]
      case LineComment(s) => "//" + s + "\n"
      case BlockComment(s) => "/*" + s + "*/"
    }
  }

  predicate GapOk(gap: seq<Piece>) { forall i :: 0 <= i < |gap| ==> gap[i].Ok() }

  function GapText(gap: seq<Piece>): string {
    if gap == [] then "" else gap[0].Text() + GapText(gap[1..])
  }

  /** What stands behind the last token: a gap and possibly a comment that is not closed. */
  datatype Tail = Tail(gap: seq<Piece>, open: Option<string>)
  {
    predicate Ok() { GapOk(gap) && (open.Some? ==> !Occurs("*/", open.value)) }

    function Text(): string {
      GapText(gap) + match open case None => "" case Some(s) => "/*" + s
    }
  }

  // ---- Spellings -------------------------------------------------------------------------

  /** A character inside quotes, or a backslash with the character behind it. */
  datatype Unit = Plain(c: char) | Pair(c: char)
  {
    predicate Ok() { Plain? ==> c != '\"' && c != '\\' && c != '\n' }

    /** The pair has a meaning. */
    predicate Clean() { Pair? ==> c in ESCAPES }

    function Text(): (s: string)
      ensures s != ""
    {
      if Plain? then [c] else ['\\', c]
    }

    /** A pair without a meaning stands for itself. */
    function Value(): string {
      if Pair? && c in ESCAPES then [ESCAPES[c]] else Text()
    }

    function Errors(p: nat): seq<LexError> {
      if Clean() then [] else [LexError(p, p + 2, "invalid escape character")]
    }
  }

  predicate UnitsOk(units: seq<Unit>) { forall i :: 0 <= i < |units| ==> units[i].Ok() }

  predicate UnitsClean(units: seq<Unit>) { forall i :: 0 <= i < |units| ==> units[i].Clean() }

  function UnitsText(units: seq<Unit>): string {
    if units == [] then "" else units[0].Text() + UnitsText(units[1..])
  }

  function UnitsValue(units: seq<Unit>): string {
    if units == [] then "" else units[0].Value() + UnitsValue(units[1..])
  }

  function UnitsErrors(units: seq<Unit>, p: nat): seq<LexError> {
    if units == [] then [] else units[0].Errors(p) + UnitsErrors(units[1..], p + |units[0].Text()|)
  }

  /** A string in quotes is closed, or its line ends first, or the text ends behind a backslash. */
  datatype Ending = Closed | Cut | CutBackslash
  {
    function Text(): string {
      match this case Closed => "\"" case Cut => "" case CutBackslash => "\\"
    }

    predicate Before(rest: string) {
      match this
      case Closed => true
      case Cut => rest == "" || rest[0] == '\n'
      case CutBackslash => rest == ""
    }
  }

  function Zeros(k: nat): string { seq(k, _ => '0') }

  function Decimal(n: nat): (s: string)
    ensures s != ""
  {
    var digit := ('0' as int + n % 10) as char;
    if n < 10 then [digit] else Decimal(n / 10) + [digit]
  }

  predicate IsWord(x: string) {
    x != "" && x[0] in LETTERS && forall i :: 0 <= i < |x| ==> x[i] in LETTERS || x[i] in DIGITS
  }

  predicate IsDelimiterText(d: string) { forall i :: 0 <= i < |d| ==> d[i] !in NO_DELIMITER }

  function RawClose(d: string): (s: string)
    ensures s != ""
  {
    ")" + d + "\""
  }

  /** The spellings of tokens. A raw string may lack its closing mark, or the parenthesis behind
      its delimiter; a single character that begins nothing else is a symbol. */
  datatype Form =
    | Word(x: string)
    | Digits(zeros: nat, n: nat)
    | Quoted(units: seq<Unit>, ending: Ending)
    | Raw(delimiter: string, value: string)
    | RawCut(delimiter: string, value: string)
    | RawOpen(delimiter: string)
    | Symbol(c: char)
  {
    predicate Ok() {
      match this
      case Word(x) => IsWord(x)
      case Digits(_, n) => n <= MAX_INT
      case Quoted(units, _) => UnitsOk(units)
      case Raw(d, v) => IsDelimiterText(d) && !Occurs(RawClose(d), v)
      case RawCut(d, v) => IsDelimiterText(d) && !Occurs(RawClose(d), v)
      case RawOpen(d) => IsDelimiterText(d)
      case Symbol(c) => c > ' ' && c !in LETTERS && c !in DIGITS && c != '\"'
    }

    function Text(): string {
      match this
      case Word(x) => x
      case Digits(zeros, n) => Zeros(zeros) + Decimal(n)
      case Quoted(units, ending) => "\"" + (UnitsText(units) + ending.Text())
      case Raw(d, v) => "R\"" + d + "(" + v + RawClose(d)
      case RawCut(d, v) => "R\"" + d + "(" + v
      case RawOpen(d) => "R\"" + d
      case Symbol(c) => [c]
    }

    function Meaning(): Token {
      match this
      case Word(x) => if x in KEYWORDS then KEYWORDS[x] else Identifier(x)
      case Digits(_, n) => IntegerLiteral(n)
      case Quoted(units, _) => StringLiteral(UnitsValue(units))
      case Raw(_, v) => StringLiteral(v)
      case RawCut(_, v) => StringLiteral(v)
      case RawOpen(_) => StringLiteral("")
      case Symbol(c) => if c in SYMBOLS then SYMBOLS[c] else Unknown
    }

    /** The complaints about it when it stands at `p`. */
    function Errors(p: nat): seq<LexError> {
      match this
      case Quoted(units, ending) =>
        UnitsErrors(units, p + 1) +
        if ending.Closed? then [] else [LexError(p, p + |Text()|, "unterminated string")]
      case RawCut(_, _) => [LexError(p, p + |Text()|, "unterminated string")]
      case RawOpen(_) => [LexError(p, p + |Text()|, "expected '(' in raw string literal")]
      case _ => []
    }

    predicate Clean() {
      match this
      case Quoted(units, ending) => UnitsClean(units) && ending.Closed?
      case RawCut(_, _) => false
      case RawOpen(_) => false
      case _ => true
    }

    /** It ends where `rest` begins: a word does not go on with a letter or digit, a number with a
        digit, the word `R` with a quote, a slash with what makes it a comment; a damaged string
        reaches to where it is cut. */
    predicate Before(rest: string) {
      match this
      case Word(x) =>
        rest == "" || (rest[0] !in LETTERS && rest[0] !in DIGITS && !(x == "R" && rest[0] == '\"'))
      case Digits(_, _) => rest == "" || rest[0] !in DIGITS
      case Quoted(_, ending) => ending.Before(rest)
      case Raw(_, _) => true
      case RawCut(_, _) => rest == ""
      case RawOpen(_) => rest == "" || (rest[0] in NO_DELIMITER && rest[0] != '(')
      case Symbol(c) => c == '/' ==> rest == "" || (rest[0] != '/' && rest[0] != '*')
    }
  }

  // ---- Texts -----------------------------------------------------------------------------

  datatype Item = Item(gap: seq<Piece>, form: Form)
  {
    predicate Ok() { GapOk(gap) && form.Ok() }
  }

  function Render(items: seq<Item>, tail: Tail): string {
    if items == [] then tail.Text()
    else GapText(items[0].gap) + (items[0].form.Text() + Render(items[1..], tail))
  }

  predicate ItemsOk(items: seq<Item>, tail: Tail) {
    tail.Ok() && forall i :: 0 <= i < |items| ==> items[i].Ok()
  }

  /** Each token ends where the text behind it begins. */
  predicate Seams(items: seq<Item>, tail: Tail) {
    items == [] || (items[0].form.Before(Render(items[1..], tail)) && Seams(items[1..], tail))
  }

  /** A layout: tokens may touch wherever they do not run into each other. */
  predicate LayoutOk(items: seq<Item>, tail: Tail) {
    ItemsOk(items, tail) && Seams(items, tail)
  }

  /** Nothing in the layout is damaged. */
  predicate Clean(items: seq<Item>, tail: Tail) {
    tail.open.None? && forall i :: 0 <= i < |items| ==> items[i].form.Clean()
  }

  /** The tokens where the layout puts them, from `p` on. */
  function Laid(items: seq<Item>, p: nat): (ls: seq<Lexeme>) {
    if items == [] then []
    else
      var s := p + |GapText(items[0].gap)|;
      var e := s + |items[0].form.Text()|;
      [Lexeme(items[0].form.Meaning(), s, e)] + Laid(items[1..], e)
  }

  /** The complaints about a layout that begins at `p`. */
  function LaidErrors(items: seq<Item>, tail: Tail, p: nat): seq<LexError> {
    if items == [] then
      var e := p + |tail.Text()|;
      if tail.open.None? then [] else [LexError(e, e, "unterminated comment")]
    else
      var s := p + |GapText(items[0].gap)|;
      items[0].form.Errors(s) + LaidErrors(items[1..], tail, s + |items[0].form.Text()|)
  }

  function ItemTokens(items: seq<Item>): (ts: seq<Token>)
    ensures |ts| == |items| && forall i :: 0 <= i < |ts| ==> ts[i] == items[i].form.Meaning()
  {
    if items == [] then [] else [items[0].form.Meaning()] + ItemTokens(items[1..])
  }
}
