/** The word splitter that reads the value of a `cmd_line` property.

    A line is spelt as words with white space between them, a word as one or more segments that
    are either a plain character or a text in quotes that does not contain its own quote. The
    splitter reads exactly the lines that can be spelt so, and reads every spelling of a list of
    arguments as that list. */
module CommandLine {
  import opened Wrappers
  import opened Lexing
  import opened LexingTheorems

  datatype CmdLine = CmdLine(executable: string, arguments: seq<string>)

  /** `Failed` is the empty result with the message of the error. */
  datatype Outcome = Read(line: CmdLine) | Failed(message: string)

  // ---- The splitter ----------------------------------------------------------------------

  datatype Word = Word(arg: string, end: nat) | Unmatched(quote: char)
  {
    function Behind(s: string): Word {
      if Word? then Word(s + arg, end) else this
    }
  }

  datatype Words = Words(args: seq<string>) | Unclosed(quote: char)
  {
    function Behind(ws: seq<string>): Words {
      if Words? then Words(ws + args) else this
    }
  }

  function FindChar(t: string, p: nat, c: char): (q: nat)
    requires p <= |t|
    ensures p <= q <= |t| && (forall i :: p <= i < q ==> t[i] != c) && (q < |t| ==> t[q] == c)
    decreases |t| - p
  {
    if p == |t| || t[p] == c then p else FindChar(t, p + 1, c)
  }

  /** The character an iterator shows; the one at the end shows NUL, which is white. */
  function CharAt(t: string, p: nat): char
    requires p <= |t|
  {
    if p == |t| then 0 as char else t[p]
  }

  predicate IsQuote(c: char) { c == '\'' || c == '\"' }

  function WordAt(t: string, p: nat): (w: Word)
    requires p <= |t|
    ensures w.Word? ==> p <= w.end <= |t| && (!IsWhite(CharAt(t, p)) ==> p < w.end)
    decreases |t| - p
  {
    var c := CharAt(t, p);
    if IsQuote(c) then
      var j := FindChar(t, p + 1, c);
      if j == |t| then Unmatched(c) else WordAt(t, j + 1).Behind(t[p + 1..j])
    else if IsWhite(c) then Word("", p)
    else WordAt(t, p + 1).Behind([c])
  }

  function WordsFrom(t: string, p: nat): Words
    requires p <= |t|
    decreases |t| - p
  {
    var s := RunEnd(t, p, IsWhite);
    if s == |t| then Words([])
    else match WordAt(t, s)
      case Unmatched(quote) => Unclosed(quote)
      case Word(arg, end) => WordsFrom(t, end).Behind([arg])
  }

  function Reading(t: string): Outcome {
    match WordsFrom(t, 0)
    case Unclosed(quote) => Failed(if quote == '\'' then "unmatched '" else "unmatched \"")
    case Words(args) => if args == [] then Failed("empty command line") else Read(CmdLine(args[0], args[1..]))
  }

  method ReadCmdLine(value: string) returns (r: Outcome)
    ensures r == Reading(value)
  {
    hide WordAt, WordsFrom, RunEnd;
    var split: seq<string> := [];
    var i := 0;
    WordsBehindNothing(WordsFrom(value, 0));
    while true
      invariant i <= |value| && WordsFrom(value, i).Behind(split) == WordsFrom(value, 0)
      decreases |value| - i
    {
      WordsTurn(value, i, split);
      i := SkipWhite(value, i);
      if i == |value| {
        break;
      }
      var word := ReadWord(value, i);
      match word {
        case Unmatched(quote) =>
          return Failed(if quote == '\'' then "unmatched '" else "unmatched \"");
        case Word(arg, end) =>
          split, i := split + [arg], end;
      }
    }
    if split == [] {
      return Failed("empty command line");
    }
    return Read(CmdLine(split[0], split[1..]));
  }

  /** The inner loop of the splitter. */
  method ReadWord(value: string, start: nat) returns (word: Word)
    requires start <= |value|
    ensures word == WordAt(value, start)
  {
    hide WordAt, FindChar;
    var i, arg := start, "";
    WordBehindNothing(WordAt(value, start));
    while true
      invariant start <= i <= |value| && WordAt(value, i).Behind(arg) == WordAt(value, start)
      decreases |value| - i
    {
      WordTurn(value, i, arg);
      var c := if i == |value| then 0 as char else value[i];
      if c == '\'' {
        i := i + 1;
        var j := SkipTo(value, i, '\'');
        if j == |value| {
          return Unmatched('\'');
        }
        arg := arg + value[i..j];
        i := j + 1;
      } else if c == '\"' {
        i := i + 1;
        var j := SkipTo(value, i, '\"');
        if j == |value| {
          return Unmatched('\"');
        }
        arg := arg + value[i..j];
        i := j + 1;
      } else if IsWhite(c) {
        break;
      } else {
        arg := arg + [c];
        i := i + 1;
      }
    }
    word := Word(arg, i);
  }

  method SkipWhite(t: string, p: nat) returns (q: nat)
    requires p <= |t|
    ensures q == RunEnd(t, p, IsWhite)
  {
    q := p;
    while q < |t| && IsWhite(t[q])
      invariant p <= q <= |t| && RunEnd(t, q, IsWhite) == RunEnd(t, p, IsWhite)
    {
      q := q + 1;
    }
  }

  method SkipTo(t: string, p: nat, c: char) returns (q: nat)
    requires p <= |t|
    ensures q == FindChar(t, p, c)
  {
    q := p;
    while q < |t| && t[q] != c
      invariant p <= q <= |t| && FindChar(t, q, c) == FindChar(t, p, c)
    {
      q := q + 1;
    }
  }

  // ---- One turn of each loop -------------------------------------------------------------

  lemma WordBehindNothing(w: Word)
    ensures w.Behind("") == w
  {
    if w.Word? {
      assert "" + w.arg == w.arg;
    }
  }

  lemma WordBehindTwice(w: Word, s: string, s': string)
    ensures w.Behind(s').Behind(s) == w.Behind(s + s')
  {
    if w.Word? {
      assert s + (s' + w.arg) == s + s' + w.arg;
    }
  }

  lemma WordsBehindNothing(w: Words)
    ensures w.Behind([]) == w
  {
    if w.Words? {
      assert [] + w.args == w.args;
    }
  }

  lemma WordsBehindTwice(w: Words, s: seq<string>, s': seq<string>)
    ensures w.Behind(s').Behind(s) == w.Behind(s + s')
  {
    if w.Words? {
      assert s + (s' + w.args) == s + s' + w.args;
    }
  }

  lemma WordTurn(t: string, p: nat, arg: string)
    requires p <= |t|
    ensures WordAt(t, p).Behind(arg) ==
      var c := CharAt(t, p);
      if IsQuote(c) then
        var j := FindChar(t, p + 1, c);
        if j == |t| then Unmatched(c) else WordAt(t, j + 1).Behind(arg + t[p + 1..j])
      else if IsWhite(c) then Word(arg, p)
      else WordAt(t, p + 1).Behind(arg + [c])
  {
    var c := CharAt(t, p);
    if IsQuote(c) {
      var j := FindChar(t, p + 1, c);
      if j < |t| {
        WordBehindTwice(WordAt(t, j + 1), arg, t[p + 1..j]);
      }
    } else if !IsWhite(c) {
      WordBehindTwice(WordAt(t, p + 1), arg, [c]);
    } else {
      assert arg + "" == arg;
    }
  }

  lemma WordsTurn(t: string, p: nat, split: seq<string>)
    requires p <= |t|
    ensures WordsFrom(t, p).Behind(split) ==
      var s := RunEnd(t, p, IsWhite);
      if s == |t| then Words(split)
      else match WordAt(t, s)
        case Unmatched(quote) => Unclosed(quote)
        case Word(arg, end) => WordsFrom(t, end).Behind(split + [arg])
  {
    var s := RunEnd(t, p, IsWhite);
    if s == |t| {
      assert split + [] == split;
    } else {
      match WordAt(t, s)
      case Unmatched(_) =>
      case Word(arg, end) => WordsBehindTwice(WordsFrom(t, end), split, [arg]);
    }
  }

  // ---- Spellings -------------------------------------------------------------------------

  datatype Segment = Plain(c: char) | Quoted(quote: char, text: string)
  {
    predicate Ok() {
      match this
      case Plain(c) => !IsWhite(c) && !IsQuote(c)
      case Quoted(quote, text) => IsQuote(quote) && quote !in text
    }

    function Text(): (r: string)
      ensures r != ""
    {
      match this
      case Plain(c) => [c]
      case Quoted(quote, text) => [quote] + (text + [quote])
    }

    function Value(): string {
      match this
      case Plain(c) => [c]
      case Quoted(_, text) => text
    }
  }

  predicate SegmentsOk(segs: seq<Segment>) { forall i :: 0 <= i < |segs| ==> segs[i].Ok() }

  function SegmentsText(segs: seq<Segment>): string {
    if segs == [] then "" else segs[0].Text() + SegmentsText(segs[1..])
  }

  function SegmentsValue(segs: seq<Segment>): string {
    if segs == [] then "" else segs[0].Value() + SegmentsValue(segs[1..])
  }

  predicate IsGap(s: string) { forall i :: 0 <= i < |s| ==> IsWhite(s[i]) }

  /** A word as it is spelt, with the white space before it. */
  datatype Spelt = Spelt(gap: string, segs: seq<Segment>)
  {
    predicate Ok() { IsGap(gap) && SegmentsOk(segs) && segs != [] }
  }

  /** Only the first word may come without a gap. */
  predicate LineOk(line: seq<Spelt>) {
    && (forall i :: 0 <= i < |line| ==> line[i].Ok())
    && (forall i :: 0 < i < |line| ==> line[i].gap != "")
  }

  /** The spelt words and what comes behind them. */
  function LineText(line: seq<Spelt>, rest: string): string {
    if line == [] then rest
    else line[0].gap + (SegmentsText(line[0].segs) + LineText(line[1..], rest))
  }

  function LineValues(line: seq<Spelt>): (args: seq<string>)
    ensures |args| == |line|
  {
    if line == [] then [] else [SegmentsValue(line[0].segs)] + LineValues(line[1..])
  }

  /** `text` spells the arguments `args`. */
  ghost predicate Spells(text: string, args: seq<string>) {
    exists line: seq<Spelt>, tail ::
      LineOk(line) && IsGap(tail) && text == LineText(line, tail) && args == LineValues(line)
  }

  /** The beginning of a word that runs into an opening quote with no partner. */
  ghost predicate IsTorn(torn: string, quote: char) {
    exists segs: seq<Segment>, behind :: TornAs(torn, quote, segs, behind)
  }

  ghost predicate TornAs(torn: string, quote: char, segs: seq<Segment>, behind: string) {
    SegmentsOk(segs) && IsQuote(quote) && quote !in behind && torn == SegmentsText(segs) + ([quote] + behind)
  }

  /** `text` spells words and then opens a quote that it does not close. */
  ghost predicate LeavesOpen(text: string, quote: char) {
    exists line: seq<Spelt>, gap, torn :: OpenAs(text, quote, line, gap, torn)
  }

  ghost predicate OpenAs(text: string, quote: char, line: seq<Spelt>, gap: string, torn: string) {
    && LineOk(line) && IsGap(gap) && (line != [] ==> gap != "") && IsTorn(torn, quote)
    && text == LineText(line, gap + torn)
  }

  // ---- Every spelling is read as its words -----------------------------------------------

  lemma FindCharIs(t: string, p: nat, q: nat, c: char)
    requires p <= q <= |t| && (forall i :: p <= i < q ==> t[i] != c) && (q < |t| ==> t[q] == c)
    ensures FindChar(t, p, c) == q
  {
  }

  lemma NoQuoteInside(t: string, p: nat, s: string, c: char)
    requires At(t, p, s) && c !in s
    ensures forall i :: p <= i < p + |s| ==> t[i] != c
  {
    forall i | p <= i < p + |s| ensures t[i] != c {
      AtChar(t, p, s, i - p);
    }
  }

  lemma QuotedParts(t: string, p: nat, quote: char, text: string)
    requires quote !in text && At(t, p, [quote] + (text + [quote]))
    ensures p + |text| + 2 <= |t| && t[p] == quote
    ensures FindChar(t, p + 1, quote) == p + 1 + |text| && t[p + 1..p + 1 + |text|] == text
  {
    hide At, FindChar;
    AtParts(t, p, [quote], text + [quote]);
    AtFirst(t, p, [quote]);
    AtParts(t, p + 1, text, [quote]);
    AtFirst(t, p + 1 + |text|, [quote]);
    NoQuoteInside(t, p + 1, text, quote);
    FindCharIs(t, p + 1, p + 1 + |text|, quote);
    AtSlice(t, p + 1, text);
  }

  lemma PlainRead(t: string, p: nat)
    requires p < |t| && !IsWhite(t[p]) && !IsQuote(t[p])
    ensures WordAt(t, p) == WordAt(t, p + 1).Behind([t[p]])
  {
  }

  lemma QuotedRead(t: string, p: nat)
    requires p < |t| && IsQuote(t[p]) && FindChar(t, p + 1, t[p]) < |t|
    ensures var j := FindChar(t, p + 1, t[p]);
      WordAt(t, p) == WordAt(t, j + 1).Behind(t[p + 1..j])
  {
    hide FindChar;
  }

  lemma SegmentRead(t: string, p: nat, seg: Segment)
    requires seg.Ok() && At(t, p, seg.Text())
    ensures p + |seg.Text()| <= |t|
    ensures WordAt(t, p) == WordAt(t, p + |seg.Text()|).Behind(seg.Value())
  {
    hide At, FindChar, WordAt, Word.Behind;
    match seg
    case Plain(c) =>
      AtFirst(t, p, [c]);
      PlainRead(t, p);
    case Quoted(quote, text) =>
      QuotedParts(t, p, quote, text);
      QuotedRead(t, p);
  }

  lemma {:induction false} SegmentsRead(t: string, p: nat, segs: seq<Segment>)
    requires p <= |t| && SegmentsOk(segs) && At(t, p, SegmentsText(segs))
    ensures p + |SegmentsText(segs)| <= |t|
    ensures WordAt(t, p) == WordAt(t, p + |SegmentsText(segs)|).Behind(SegmentsValue(segs))
    decreases |segs|
  {
    hide WordAt, At, Segment.Ok, Segment.Text, Segment.Value;
    if segs == [] {
      WordBehindNothing(WordAt(t, p));
    } else {
      AtParts(t, p, segs[0].Text(), SegmentsText(segs[1..]));
      SegmentRead(t, p, segs[0]);
      var e := p + |segs[0].Text()|;
      SegmentsRead(t, e, segs[1..]);
      WordBehindTwice(WordAt(t, e + |SegmentsText(segs[1..])|), segs[0].Value(), SegmentsValue(segs[1..]));
    }
  }

  lemma SegmentsStart(t: string, p: nat, segs: seq<Segment>)
    requires SegmentsOk(segs) && segs != [] && At(t, p, SegmentsText(segs))
    ensures p < |t| && !IsWhite(t[p])
  {
    assert segs[0].Ok();
    AtParts(t, p, segs[0].Text(), SegmentsText(segs[1..]));
    AtFirst(t, p, segs[0].Text());
  }

  lemma GapSkipped(t: string, p: nat, gap: string)
    requires IsGap(gap) && At(t, p, gap) && (p + |gap| < |t| ==> !IsWhite(t[p + |gap|]))
    ensures p + |gap| <= |t| && RunEnd(t, p, IsWhite) == p + |gap|
  {
    forall i | p <= i < p + |gap| ensures IsWhite(t[i]) {
      AtChar(t, p, gap, i - p);
    }
    RunEndIs(t, p, p + |gap|, IsWhite);
  }

  lemma WordEnds(t: string, p: nat)
    requires p <= |t| && IsWhite(CharAt(t, p))
    ensures WordAt(t, p) == Word("", p)
  {
  }

  /** The first word of a line is read, and the reading goes on behind it. */
  lemma FirstWordRead(t: string, p: nat, line: seq<Spelt>, rest: string)
    requires LineOk(line) && line != [] && At(t, p, LineText(line, rest)) && p + |LineText(line, rest)| == |t|
    requires (|line| == 1 && rest != "") ==> IsWhite(rest[0])
    ensures var e := p + |line[0].gap| + |SegmentsText(line[0].segs)|;
      && At(t, e, LineText(line[1..], rest)) && e + |LineText(line[1..], rest)| == |t|
      && WordsFrom(t, p) == WordsFrom(t, e).Behind([SegmentsValue(line[0].segs)])
  {
    hide At, RunEnd, WordAt, SegmentsText, SegmentsValue, SegmentsOk, IsGap;
    var w, more := line[0], LineText(line[1..], rest);
    assert w.Ok();
    AtParts(t, p, w.gap, SegmentsText(w.segs) + more);
    var s := p + |w.gap|;
    AtParts(t, s, SegmentsText(w.segs), more);
    SegmentsStart(t, s, w.segs);
    GapSkipped(t, p, w.gap);
    SegmentsRead(t, s, w.segs);
    var e := s + |SegmentsText(w.segs)|;
    MoreIsWhite(line, rest);
    if more != "" {
      AtFirst(t, e, more);
    }
    WordEnds(t, e);
    assert SegmentsValue(w.segs) + "" == SegmentsValue(w.segs);
  }

  lemma MoreIsWhite(line: seq<Spelt>, rest: string)
    requires LineOk(line) && line != []
    requires (|line| == 1 && rest != "") ==> IsWhite(rest[0])
    ensures LineText(line[1..], rest) != "" ==> IsWhite(LineText(line[1..], rest)[0])
  {
    if |line| > 1 {
      assert line[1..][0] == line[1] && line[1].gap != "" && line[1].Ok();
      assert IsWhite(line[1].gap[0]);
    }
  }

  lemma LineTail(line: seq<Spelt>)
    requires LineOk(line) && line != []
    ensures LineOk(line[1..]) && (|line| > 1 ==> line[1..][0].gap != "")
  {
    forall i | 0 < i < |line[1..]| ensures line[1..][i].gap != "" {
      assert line[1..][i] == line[i + 1];
    }
  }

  lemma {:induction false} LineRead(t: string, p: nat, line: seq<Spelt>, rest: string)
    requires LineOk(line) && At(t, p, LineText(line, rest)) && p + |LineText(line, rest)| == |t|
    requires (line != [] && rest != "") ==> IsWhite(rest[0])
    ensures |t| - |rest| >= 0 && At(t, |t| - |rest|, rest)
    ensures WordsFrom(t, p) == WordsFrom(t, |t| - |rest|).Behind(LineValues(line))
    decreases |line|
  {
    hide At, WordsFrom, LineOk;
    if line == [] {
      WordsBehindNothing(WordsFrom(t, p));
    } else {
      FirstWordRead(t, p, line, rest);
      LineTail(line);
      var e := p + |line[0].gap| + |SegmentsText(line[0].segs)|;
      LineRead(t, e, line[1..], rest);
      WordsBehindTwice(WordsFrom(t, |t| - |rest|), [SegmentsValue(line[0].segs)], LineValues(line[1..]));
    }
  }

  // ---- What is read is spelt so ----------------------------------------------------------

  /** The segment that a word goes on with at `p`, if it is closed. */
  lemma SegmentSpelt(t: string, p: nat) returns (seg: Segment)
    requires p < |t| && !IsWhite(t[p]) && (IsQuote(t[p]) ==> FindChar(t, p + 1, t[p]) < |t|)
    ensures seg.Ok() && At(t, p, seg.Text()) && p + |seg.Text()| <= |t|
    ensures WordAt(t, p) == WordAt(t, p + |seg.Text()|).Behind(seg.Value())
  {
    if IsQuote(t[p]) {
      var j := FindChar(t, p + 1, t[p]);
      seg := Quoted(t[p], t[p + 1..j]);
      SliceStands(t, p + 1, j);
      AtJoined(t, p + 1, t[p + 1..j], [t[p]]);
      AtJoined(t, p, [t[p]], t[p + 1..j] + [t[p]]);
    } else {
      seg := Plain(t[p]);
    }
    SegmentRead(t, p, seg);
  }

  lemma SegmentsFirst(seg: Segment, more: seq<Segment>)
    requires seg.Ok() && SegmentsOk(more)
    ensures SegmentsOk([seg] + more)
    ensures SegmentsText([seg] + more) == seg.Text() + SegmentsText(more)
    ensures SegmentsValue([seg] + more) == seg.Value() + SegmentsValue(more)
  {
    assert ([seg] + more)[1..] == more;
  }

  /** `segs` spells the word at `p`, or the part of it before a quote that nothing closes. */
  ghost predicate WordAs(t: string, p: nat, segs: seq<Segment>)
    requires p <= |t|
  {
    && SegmentsOk(segs) && At(t, p, SegmentsText(segs)) && p + |SegmentsText(segs)| <= |t|
    && var e := p + |SegmentsText(segs)|;
       match WordAt(t, p)
       case Word(arg, end) => end == e && arg == SegmentsValue(segs) && IsWhite(CharAt(t, e))
       case Unmatched(quote) => OpensAt(t, e, quote)
  }

  lemma NoSegments(t: string, p: nat)
    requires p <= |t|
    requires p == |t| || IsWhite(t[p]) || (IsQuote(t[p]) && FindChar(t, p + 1, t[p]) == |t|)
    ensures WordAs(t, p, [])
  {
    hide FindChar;
  }

  lemma OneMoreSegment(t: string, p: nat, seg: Segment, more: seq<Segment>)
    requires seg.Ok() && At(t, p, seg.Text()) && p + |seg.Text()| <= |t|
    requires WordAt(t, p) == WordAt(t, p + |seg.Text()|).Behind(seg.Value())
    requires WordAs(t, p + |seg.Text()|, more)
    ensures WordAs(t, p, [seg] + more)
  {
    hide At, FindChar, WordAt, SegmentsOk, SegmentsText, SegmentsValue, Segment.Ok, Segment.Text;
    SegmentsFirst(seg, more);
    AtJoined(t, p, seg.Text(), SegmentsText(more));
  }

  lemma {:induction false} WordSpelt(t: string, p: nat) returns (segs: seq<Segment>)
    requires p <= |t|
    ensures WordAs(t, p, segs)
    decreases |t| - p
  {
    hide At, FindChar, WordAt, WordAs, Segment.Ok, Segment.Value;
    if p == |t| || IsWhite(t[p]) || (IsQuote(t[p]) && FindChar(t, p + 1, t[p]) == |t|) {
      segs := [];
      NoSegments(t, p);
    } else {
      var seg := SegmentSpelt(t, p);
      var more := WordSpelt(t, p + |seg.Text()|);
      segs := [seg] + more;
      OneMoreSegment(t, p, seg, more);
    }
  }

  /** A quote at `q` that nothing closes. */
  predicate OpensAt(t: string, q: nat, quote: char) {
    q < |t| && IsQuote(quote) && t[q] == quote && FindChar(t, q + 1, quote) == |t|
  }

  lemma TornHere(t: string, p: nat, segs: seq<Segment>, quote: char)
    requires SegmentsOk(segs) && At(t, p, SegmentsText(segs)) && OpensAt(t, p + |SegmentsText(segs)|, quote)
    ensures p <= |t| && IsTorn(t[p..], quote)
  {
    hide SegmentsOk, SegmentsText;
    var q := p + |SegmentsText(segs)|;
    AtSlice(t, p, SegmentsText(segs));
    Cut(t, p, q);
    Cut(t, q, q + 1);
    assert t[q..q + 1] == [quote];
    assert TornAs(t[p..], quote, segs, t[q + 1..]);
  }

  lemma Cut(t: string, p: nat, q: nat)
    requires p <= q <= |t|
    ensures t[p..] == t[p..q] + t[q..]
  {
  }

  /** The text from `p` on is the words `line`, a gap and then, if it is not read, the word in
      which a quote is left open. */
  ghost predicate LineAs(t: string, p: nat, line: seq<Spelt>, gap: string, torn: string)
    requires p <= |t|
  {
    && LineOk(line) && IsGap(gap) && t[p..] == LineText(line, gap + torn)
    && (p < |t| && IsWhite(t[p]) ==> (if line == [] then gap else line[0].gap) != "")
    && match WordsFrom(t, p)
       case Words(args) => torn == "" && args == LineValues(line)
       case Unclosed(quote) => IsTorn(torn, quote) && (line != [] ==> gap != "")
  }

  lemma NoWord(t: string, p: nat)
    requires p <= |t| && RunEnd(t, p, IsWhite) == |t|
    ensures LineAs(t, p, [], t[p..], "")
  {
    assert t[p..] + "" == t[p..];
  }

  lemma TornWord(t: string, p: nat, segs: seq<Segment>)
    requires p <= |t| && RunEnd(t, p, IsWhite) < |t|
    requires WordAs(t, RunEnd(t, p, IsWhite), segs) && WordAt(t, RunEnd(t, p, IsWhite)).Unmatched?
    ensures var s := RunEnd(t, p, IsWhite);
      LineAs(t, p, [], t[p..s], t[s..])
  {
    hide WordAt, At, IsTorn, OpensAt, SegmentsOk, SegmentsText;
    var s := RunEnd(t, p, IsWhite);
    TornHere(t, s, segs, WordAt(t, s).quote);
    Cut(t, p, s);
  }

  lemma OneMoreWord(t: string, p: nat, segs: seq<Segment>, more: seq<Spelt>, gap: string, torn: string)
    requires p <= |t| && RunEnd(t, p, IsWhite) < |t|
    requires var s := RunEnd(t, p, IsWhite);
      WordAs(t, s, segs) && WordAt(t, s).Word? && LineAs(t, WordAt(t, s).end, more, gap, torn)
    ensures LineAs(t, p, [Spelt(t[p..RunEnd(t, p, IsWhite)], segs)] + more, gap, torn)
  {
    hide WordAt, At, IsTorn, OpensAt, SegmentsOk, SegmentsText, SegmentsValue, LineOk, LineText, RunEnd;
    var s := RunEnd(t, p, IsWhite);
    var end := WordAt(t, s).end;
    var first := Spelt(t[p..s], segs);
    SegmentsPresent(t, s, segs);
    WordCut(t, p, s, segs);
    MoreGap(t, end, more, gap, torn);
    LineFirst(first, more, gap + torn);
    FirstGap(first, more);
    assert WordsFrom(t, p) == WordsFrom(t, end).Behind([SegmentsValue(segs)]);
  }

  lemma WordCut(t: string, p: nat, s: nat, segs: seq<Segment>)
    requires p <= s <= |t| && At(t, s, SegmentsText(segs)) && s + |SegmentsText(segs)| <= |t|
    ensures t[p..] == t[p..s] + (SegmentsText(segs) + t[s + |SegmentsText(segs)|..])
  {
    hide At, SegmentsText;
    AtSlice(t, s, SegmentsText(segs));
    Cut(t, p, s);
    Cut(t, s, s + |SegmentsText(segs)|);
  }

  lemma MoreGap(t: string, end: nat, more: seq<Spelt>, gap: string, torn: string)
    requires end <= |t| && IsWhite(CharAt(t, end)) && LineAs(t, end, more, gap, torn)
    ensures more != [] ==> more[0].gap != ""
    ensures more == [] && WordsFrom(t, end).Unclosed? ==> gap != ""
  {
    hide WordAt, IsTorn, LineOk, LineText;
  }

  lemma FirstGap(first: Spelt, more: seq<Spelt>)
    ensures ([first] + more)[0] == first && [first] + more != []
  {
  }

  lemma {:induction false} LineSpelt(t: string, p: nat) returns (line: seq<Spelt>, gap: string, torn: string)
    requires p <= |t|
    ensures LineAs(t, p, line, gap, torn)
    decreases |t| - p
  {
    hide WordAt, LineAs, WordAs;
    var s := RunEnd(t, p, IsWhite);
    if s == |t| {
      line, gap, torn := [], t[p..], "";
      NoWord(t, p);
    } else {
      var segs := WordSpelt(t, s);
      match WordAt(t, s) {
        case Unmatched(_) =>
          line, gap, torn := [], t[p..s], t[s..];
          TornWord(t, p, segs);
        case Word(_, end) =>
          var more;
          more, gap, torn := LineSpelt(t, end);
          line := [Spelt(t[p..s], segs)] + more;
          OneMoreWord(t, p, segs, more, gap, torn);
      }
    }
  }

  lemma SegmentsPresent(t: string, s: nat, segs: seq<Segment>)
    requires s + |SegmentsText(segs)| <= |t| && s < |t| && !IsWhite(t[s])
    requires IsWhite(CharAt(t, s + |SegmentsText(segs)|))
    ensures segs != []
  {
  }

  lemma LineFirst(first: Spelt, more: seq<Spelt>, rest: string)
    requires first.Ok() && LineOk(more) && (more != [] ==> more[0].gap != "")
    ensures LineOk([first] + more)
    ensures LineText([first] + more, rest) == first.gap + (SegmentsText(first.segs) + LineText(more, rest))
    ensures LineValues([first] + more) == [SegmentsValue(first.segs)] + LineValues(more)
  {
    var line := [first] + more;
    assert line[1..] == more;
    forall i | 0 < i < |line| ensures line[i].gap != "" {
      assert line[i] == more[i - 1];
    }
  }

  // ---- The splitter reads exactly the spellings ------------------------------------------

  lemma GapReads(t: string, p: nat, tail: string)
    requires IsGap(tail) && At(t, p, tail) && p + |tail| == |t|
    ensures WordsFrom(t, p) == Words([])
  {
    GapSkipped(t, p, tail);
  }

  /** The words are `args` exactly when the text spells `args`. */
  lemma WordsExactly(t: string, args: seq<string>)
    ensures WordsFrom(t, 0) == Words(args) <==> Spells(t, args)
  {
    hide WordsFrom, LineOk, LineText, LineValues;
    if WordsFrom(t, 0) == Words(args) {
      var line, gap, torn := LineSpelt(t, 0);
      assert gap + torn == gap && t[0..] == t;
    }
    if Spells(t, args) {
      var line: seq<Spelt>, tail :|
        LineOk(line) && IsGap(tail) && t == LineText(line, tail) && args == LineValues(line);
      LineRead(t, 0, line, tail);
      GapReads(t, |t| - |tail|, tail);
      assert args + [] == args;
    }
  }

  lemma TornReads(t: string, p: nat, torn: string, quote: char)
    requires IsTorn(torn, quote) && At(t, p, torn) && p + |torn| == |t|
    ensures p < |t| && !IsWhite(t[p]) && WordAt(t, p) == Unmatched(quote)
  {
    hide WordAt, At, FindChar, SegmentsText, SegmentsOk;
    var segs, behind :| TornAs(torn, quote, segs, behind);
    var q := p + |SegmentsText(segs)|;
    AtParts(t, p, SegmentsText(segs), [quote] + behind);
    AtParts(t, q, [quote], behind);
    AtFirst(t, q, [quote]);
    SegmentsRead(t, p, segs);
    NoQuoteInside(t, q + 1, behind, quote);
    FindCharIs(t, q + 1, |t|, quote);
    QuoteOpens(t, q, quote);
    if segs != [] {
      SegmentsStart(t, p, segs);
    } else {
      NoSegmentText();
    }
  }

  lemma NoSegmentText()
    ensures SegmentsText([]) == ""
  {
  }

  lemma QuoteOpens(t: string, q: nat, quote: char)
    requires OpensAt(t, q, quote)
    ensures WordAt(t, q) == Unmatched(quote)
  {
  }

  /** The text is not read because of an open quote exactly when it leaves that quote open. */
  lemma UnclosedExactly(t: string, quote: char)
    ensures WordsFrom(t, 0) == Unclosed(quote) <==> LeavesOpen(t, quote)
  {
    hide LineOk, LineText, LineValues, IsTorn, WordAt, At, RunEnd;
    if WordsFrom(t, 0) == Unclosed(quote) {
      var line, gap, torn := LineSpelt(t, 0);
      assert t[0..] == t;
      assert OpenAs(t, quote, line, gap, torn);
    }
    if LeavesOpen(t, quote) {
      var line: seq<Spelt>, gap, torn :| OpenAs(t, quote, line, gap, torn);
      SelfAt(t);
      LineRead(t, 0, line, gap + torn);
      var p := |t| - |gap + torn|;
      AtParts(t, p, gap, torn);
      TornReads(t, p + |gap|, torn, quote);
      GapSkipped(t, p, gap);
    }
  }

  /** A command line is read exactly when the value spells at least one word; the result is
      empty exactly when it spells none or leaves a quote open. */
  lemma ReadingExactly(value: string)
    ensures forall line: CmdLine ::
      Reading(value) == Read(line) <==> Spells(value, [line.executable] + line.arguments)
    ensures Reading(value) == Failed("empty command line") <==> Spells(value, [])
    ensures Reading(value) == Failed("unmatched '") <==> LeavesOpen(value, '\'')
    ensures Reading(value) == Failed("unmatched \"") <==> LeavesOpen(value, '\"')
  {
    hide WordsFrom, Spells, LeavesOpen;
    forall line: CmdLine
      ensures Reading(value) == Read(line) <==> Spells(value, [line.executable] + line.arguments)
    {
      WordsExactly(value, [line.executable] + line.arguments);
    }
    WordsExactly(value, []);
    UnclosedExactly(value, '\'');
    UnclosedExactly(value, '\"');
    var line, gap, torn := LineSpelt(value, 0);
  }

  // ---- Every list of arguments has a spelling --------------------------------------------

  /** One way to spell an argument: every character in quotes, an empty one as two quotes. */
  function SegmentsOf(arg: string): (segs: seq<Segment>)
    ensures SegmentsOk(segs) && SegmentsValue(segs) == arg
  {
    if arg == "" then []
    else
      var first := Quoted(if arg[0] == '\'' then '\"' else '\'', [arg[0]]);
      var more := SegmentsOf(arg[1..]);
      SegmentsFirst(first, more);
      [first] + more
  }

  function SpeltArgument(arg: string): (w: Spelt)
    ensures w.Ok() && w.gap != "" && SegmentsValue(w.segs) == arg
  {
    var first := Quoted('\'', "");
    SegmentsFirst(first, SegmentsOf(arg));
    Spelt(" ", [first] + SegmentsOf(arg))
  }

  function SpeltLine(args: seq<string>): (line: seq<Spelt>) {
    if args == [] then [] else [SpeltArgument(args[0])] + SpeltLine(args[1..])
  }

  lemma {:induction false} SpeltLineSpells(args: seq<string>)
    ensures LineOk(SpeltLine(args)) && LineValues(SpeltLine(args)) == args
    ensures args != [] ==> SpeltLine(args) != [] && SpeltLine(args)[0].gap != ""
    decreases |args|
  {
    hide LineOk, LineValues, SegmentsValue, SpeltArgument, Spelt.Ok;
    if args == [] {
      NoLine();
    } else {
      SpeltLineSpells(args[1..]);
      LineFirst(SpeltArgument(args[0]), SpeltLine(args[1..]), "");
      assert [args[0]] + args[1..] == args;
    }
  }

  lemma NoLine()
    ensures LineOk([]) && LineValues([]) == []
  {
  }

  /** For every list of one or more arguments, whatever characters they hold, there is a value
      that reads as exactly that list. */
  lemma ArgumentsRoundTrip(args: seq<string>)
    requires args != []
    ensures Reading(LineText(SpeltLine(args), "")) == Read(CmdLine(args[0], args[1..]))
  {
    hide WordsFrom, LineOk, LineText, LineValues, SpeltLine;
    SpeltLineSpells(args);
    assert Spells(LineText(SpeltLine(args), ""), args);
    WordsExactly(LineText(SpeltLine(args), ""), args);
  }
}
