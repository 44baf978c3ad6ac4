/** Every way to spell a command, and what each spelling reads as. */
module ShellSpelling {
  import opened ShellLexer
  import ShellRuns

  // ----- spellings

  /** A character as itself, or behind a backslash. */
  datatype Piece = Raw(c: char) | Slashed(c: char)

  /** A stretch of a word: outside quotes, or in double quotes. */
  datatype Segment = Bare(pieces: seq<Piece>) | InQuotes(pieces: seq<Piece>)

  type Spelling = seq<Segment>

  predicate Plain(c: char) {
    c != ' ' && c != '\t' && c != '\n' && c != '\r' && c != ';' && c != '"' && c != '\\'
  }

  /** What may stand as itself: in quotes anything but the quote and the backslash. */
  predicate Good(s: Segment) {
    forall i :: 0 <= i < |s.pieces| && s.pieces[i].Raw? ==>
      if s.Bare? then Plain(s.pieces[i].c) else s.pieces[i].c != '"' && s.pieces[i].c != '\\'
  }

  function PieceText(p: Piece): string { if p.Raw? then [p.c] else ['\\', p.c] }

  function PiecesText(ps: seq<Piece>): string {
    if ps == [] then "" else PieceText(ps[0]) + PiecesText(ps[1..])
  }

  function SegmentText(s: Segment): string {
    if s.Bare? then PiecesText(s.pieces) else "\"" + PiecesText(s.pieces) + "\""
  }

  function Text(w: Spelling): string {
    if w == [] then "" else SegmentText(w[0]) + Text(w[1..])
  }

  // ----- meanings

  /** Behind a backslash seven letters stand for control characters, by their codes; anything else is itself. */
  function PieceMeans(p: Piece): char {
    if p.Raw? then p.c
    else if p.c == 'a' then 7 as char
    else if p.c == 'b' then 8 as char
    else if p.c == 't' then 9 as char
    else if p.c == 'n' then 10 as char
    else if p.c == 'v' then 11 as char
    else if p.c == 'f' then 12 as char
    else if p.c == 'r' then 13 as char
    else p.c
  }

  function PiecesMean(ps: seq<Piece>): string {
    if ps == [] then "" else [PieceMeans(ps[0])] + PiecesMean(ps[1..])
  }

  function Means(w: Spelling): string {
    if w == [] then "" else PiecesMean(w[0].pieces) + Means(w[1..])
  }

  // ----- reading a word

  lemma SlashReads(l: Lex, c: char)
    requires l.state == Word || l.state == Quotation || (l.state == Ready && l.word == "")
    ensures Tokenize(l, ['\\', c]) ==
            ([], l.(state := if l.state == Quotation then Quotation else Word, word := l.word + [PieceMeans(Slashed(c))]))
  {
    var e := l.(state := if l.state == Quotation then EscapeInQuot else EscapeInWord);
    OneChar(l, '\\');
    OneChar(e, c);
    TokenizeAppend(l, ['\\'], [c]);
    assert ['\\'] + [c] == ['\\', c];
  }

  lemma PieceReads(l: Lex, p: Piece)
    requires l.state == Word || l.state == Quotation || (l.state == Ready && l.word == "")
    requires Good(if l.state == Quotation then InQuotes([p]) else Bare([p]))
    ensures Tokenize(l, PieceText(p)) ==
            ([], l.(state := if l.state == Quotation then Quotation else Word, word := l.word + [PieceMeans(p)]))
  {
    var s := if l.state == Quotation then InQuotes([p]) else Bare([p]);
    assert s.pieces[0] == p;
    if p.Raw? { OneChar(l, p.c); } else { SlashReads(l, p.c); }
  }

  lemma FirstPiece(s: Segment)
    requires Good(s) && s.pieces != []
    ensures Good(s.(pieces := [s.pieces[0]])) && Good(s.(pieces := s.pieces[1..]))
    ensures PiecesText(s.pieces) == PieceText(s.pieces[0]) + PiecesText(s.pieces[1..])
    ensures PiecesMean(s.pieces) == [PieceMeans(s.pieces[0])] + PiecesMean(s.pieces[1..])
  {
  }

  /** Pieces after the first stay in the state that the first leaves. */
  lemma {:induction false} PiecesRead(l: Lex, s: Segment)
    requires Good(s) && if s.InQuotes? then l.state == Quotation else l.state == Word || (l.state == Ready && l.word == "")
    ensures Tokenize(l, PiecesText(s.pieces)) ==
            ([], if s.pieces == [] then l
                 else l.(state := if l.state == Quotation then Quotation else Word, word := l.word + PiecesMean(s.pieces)))
    decreases |s.pieces|
  {
    if s.pieces != [] {
      hide Tokenize, PieceMeans, PiecesText, Good;
      var p, rest := s.pieces[0], s.(pieces := s.pieces[1..]);
      var l' := l.(state := if l.state == Quotation then Quotation else Word, word := l.word + [PieceMeans(p)]);
      FirstPiece(s);
      PieceReads(l, p);
      PiecesRead(l', rest);
      TokenizeAppend(l, PieceText(p), PiecesText(rest.pieces));
      WordGrows(l.word, s.pieces);
      assert forall cs: seq<Command> :: [] + cs == cs;
    }
  }

  lemma WordGrows(word: string, ps: seq<Piece>)
    requires ps != []
    ensures word + [PieceMeans(ps[0])] + PiecesMean(ps[1..]) == word + PiecesMean(ps)
    ensures |ps| == 1 ==> word + [PieceMeans(ps[0])] == word + PiecesMean(ps)
  {
    hide PieceMeans;
    assert PiecesMean(ps) == [PieceMeans(ps[0])] + PiecesMean(ps[1..]);
    assert |ps| == 1 ==> PiecesMean(ps[1..]) == "";
    hide PiecesMean;
    Regroup(word, [PieceMeans(ps[0])], PiecesMean(ps[1..]));
  }

  lemma Regroup(a: string, b: string, c: string)
    ensures a + b + c == a + (b + c) && b + "" == b
  {
  }

  /** Where reading a spelled word leaves the lexer: in the word, or still before it when nothing is written. */
  function After(l: Lex, w: Spelling): Lex {
    if Text(w) == "" then l else l.(state := Word, word := l.word + Means(w))
  }

  lemma SegmentReads(l: Lex, s: Segment)
    requires (l.state == Word || (l.state == Ready && l.word == "")) && Good(s)
    ensures Tokenize(l, SegmentText(s)) ==
            ([], if SegmentText(s) == "" then l else l.(state := Word, word := l.word + PiecesMean(s.pieces)))
  {
    if s.Bare? {
      PiecesRead(l, s);
    } else {
      var q := l.(state := Quotation);
      var r := q.(word := l.word + PiecesMean(s.pieces));
      OneChar(l, '"');
      PiecesRead(q, s);
      assert s.pieces == [] ==> l.word + PiecesMean(s.pieces) == l.word;
      OneChar(r, '"');
      assert "\"" == ['"'];
      hide Tokenize, PiecesText, PiecesMean;
      TokenizeAppend(l, "\"", PiecesText(s.pieces));
      TokenizeAppend(l, "\"" + PiecesText(s.pieces), "\"");
    }
  }

  lemma {:induction false} WordReads(l: Lex, w: Spelling)
    requires (l.state == Word || (l.state == Ready && l.word == "")) && forall i :: 0 <= i < |w| ==> Good(w[i])
    ensures Tokenize(l, Text(w)) == ([], After(l, w))
    decreases |w|
  {
    if w != [] {
      hide Tokenize, SegmentText, PiecesMean, Good;
      var l' := if SegmentText(w[0]) == "" then l else l.(state := Word, word := l.word + PiecesMean(w[0].pieces));
      SegmentReads(l, w[0]);
      WordReads(l', w[1..]);
      NothingMeans(w[0]);
      NoTextNoMeaning(w[1..]);
      TokenizeAppend(l, SegmentText(w[0]), Text(w[1..]));
      assert Text(w) == SegmentText(w[0]) + Text(w[1..]) && Means(w) == PiecesMean(w[0].pieces) + Means(w[1..]);
      hide Text, Means;
      AfterBoth(l, w, SegmentText(w[0]), PiecesMean(w[0].pieces), Text(w[1..]), Means(w[1..]));
      assert forall cs: seq<Command> :: [] + cs == cs;
    }
  }

  lemma AfterBoth(l: Lex, w: Spelling, t: string, m: string, ts: string, ms: string)
    requires Text(w) == t + ts && Means(w) == m + ms && (t == "" ==> m == "") && (ts == "" ==> ms == "")
    ensures var l' := if t == "" then l else l.(state := Word, word := l.word + m);
      After(l, w) == if ts == "" then l' else l'.(state := Word, word := l'.word + ms)
  {
    hide Text, Means;
    Regroup(l.word, m, ms);
    assert "" + ms == ms && m + "" == m;
  }

  lemma NothingMeans(s: Segment)
    ensures SegmentText(s) == "" ==> PiecesMean(s.pieces) == ""
  {
  }

  lemma {:induction false} NoTextNoMeaning(w: Spelling)
    ensures Text(w) == "" ==> Means(w) == ""
    decreases |w|
  {
    if w != [] && Text(w) == "" {
      NothingMeans(w[0]);
      NoTextNoMeaning(w[1..]);
    }
  }

  // ----- reading a command

  predicate Blank(s: string) { forall i :: 0 <= i < |s| ==> s[i] == ' ' || s[i] == '\t' }

  /** Blank gaps, non-empty between words; only the last may be empty. */
  predicate Gapped(gaps: seq<string>) {
    forall i :: 0 <= i < |gaps| ==> Blank(gaps[i]) && (i < |gaps| - 1 ==> gaps[i] != "")
  }

  predicate GoodWords(words: seq<Spelling>) {
    forall i, j :: 0 <= i < |words| && 0 <= j < |words[i]| ==> Good(words[i][j])
  }

  /** The words, each followed by its gap. */
  function Line(words: seq<Spelling>, gaps: seq<string>): string
    requires |words| == |gaps|
  {
    if words == [] then "" else Text(words[0]) + (gaps[0] + Line(words[1..], gaps[1..]))
  }

  /** The words meant, without the empty ones. */
  function Meanings(words: seq<Spelling>): Command {
    if words == [] then []
    else (if Means(words[0]) == "" then [] else [Means(words[0])]) + Meanings(words[1..])
  }

  lemma BlankIs(s: string)
    ensures Blank(s) <==> AllBlank(s)
  {
  }

  lemma EndReads(l: Lex, end: char)
    requires (l.state == Word || l.state == Ready) && (end == '\n' || end == '\r' || end == ';')
    ensures Tokenize(l, [end]) == ([Flush(l).words], START)
  {
    OneChar(l, end);
  }

  lemma RestGapped(words: seq<Spelling>, gaps: seq<string>)
    requires |words| == |gaps| && words != [] && Gapped(gaps) && GoodWords(words)
    ensures Blank(gaps[0]) && Gapped(gaps[1..]) && GoodWords(words[1..]) && (gaps[0] == "" ==> |gaps| == 1)
    ensures forall j :: 0 <= j < |words[0]| ==> Good(words[0][j])
  {
    forall i | 0 <= i < |gaps| - 1 ensures gaps[1..][i] == gaps[i + 1] {}
  }

  lemma AfterMeans(l: Lex, w: Spelling)
    requires l.state == Ready && l.word == ""
    ensures After(l, w).word == Means(w) && After(l, w).words == l.words
  {
    NoTextNoMeaning(w);
    hide Text, Means;
    assert "" + Means(w) == Means(w);
  }

  lemma WordJoins(l: Lex, words: seq<Spelling>)
    requires l.state == Ready && l.word == "" && words != []
    ensures var l1 := Flush(After(l, words[0])); l1.word == "" && l1.words + Meanings(words[1..]) == l.words + Meanings(words)
  {
    var w, rest := Means(words[0]), Meanings(words[1..]);
    AfterMeans(l, words[0]);
    assert w == "" ==> Meanings(words) == [] + rest;
    assert w != "" ==> Meanings(words) == [w] + rest;
    hide Meanings, After, Means;
    Joined(l.words, w, rest);
  }

  lemma Joined(words: Command, w: string, rest: Command)
    ensures words + ([] + rest) == words + rest && words + [w] + rest == words + ([w] + rest)
  {
  }

  lemma {:induction false} LineReads(l: Lex, words: seq<Spelling>, gaps: seq<string>, end: char)
    requires |words| == |gaps| && Gapped(gaps) && GoodWords(words) && (end == '\n' || end == '\r' || end == ';')
    requires l.state == Ready && l.word == ""
    ensures Tokenize(l, Line(words, gaps) + [end]) == ([l.words + Meanings(words)], START)
    decreases |words|
  {
    assert forall cs: seq<Command> :: [] + cs == cs;
    if words == [] {
      EndReads(l, end);
      assert l.words + [] == l.words;
      assert "" + [end] == [end];
    } else {
      var l1 := After(l, words[0]);
      var rest := Line(words[1..], gaps[1..]) + [end];
      RestGapped(words, gaps);
      WordReads(l, words[0]);
      WordJoins(l, words);
      assert Line(words, gaps) + [end] == Text(words[0]) + (gaps[0] + rest);
      TokenizeAppend(l, Text(words[0]), gaps[0] + rest);
      GapThen(l1, words, gaps, end);
    }
  }

  /** The gap after the first word, and the rest of the line. */
  lemma {:induction false} GapThen(l: Lex, words: seq<Spelling>, gaps: seq<string>, end: char)
    requires |words| == |gaps| && words != [] && Gapped(gaps) && GoodWords(words) && (end == '\n' || end == '\r' || end == ';')
    requires (l.state == Ready || l.state == Word) && Flush(l).word == ""
    ensures Tokenize(l, gaps[0] + (Line(words[1..], gaps[1..]) + [end])) == ([Flush(l).words + Meanings(words[1..])], START)
    decreases |words|, 0
  {
    var l2 := Flush(l).(state := Ready);
    var rest := Line(words[1..], gaps[1..]) + [end];
    RestGapped(words, gaps);
    if gaps[0] == "" {
      assert gaps[0] + rest == [end] && Meanings(words[1..]) == [];
      assert Flush(l).words + [] == Flush(l).words;
      EndReads(l, end);
    } else {
      BlankIs(gaps[0]);
      BlanksRead(l, gaps[0]);
      LineReads(l2, words[1..], gaps[1..], end);
      TokenizeAppend(l, gaps[0], rest);
      assert forall cs: seq<Command> :: [] + cs == cs;
    }
  }

  /**
   * Any line of spelled words, with blanks before and between them and an operator at the end, is one command: the
   * words meant, in order, without the empty ones.
   */
  lemma SpellingsRead(lead: string, words: seq<Spelling>, gaps: seq<string>, end: char)
    requires Blank(lead) && |words| == |gaps| && Gapped(gaps) && GoodWords(words) && (end == '\n' || end == '\r' || end == ';')
    ensures Tokenize(START, lead + Line(words, gaps) + [end]) == ([Meanings(words)], START)
  {
    var line := Line(words, gaps) + [end];
    LineReads(START, words, gaps, end);
    assert [] + Meanings(words) == Meanings(words);
    assert lead + Line(words, gaps) + [end] == lead + line;
    if lead == "" {
      assert "" + line == line;
    } else {
      BlankIs(lead);
      BlanksRead(START, lead);
      TokenizeAppend(START, lead, line);
      assert forall cs: seq<Command> :: [] + cs == cs;
    }
  }

  // ----- reading a text

  datatype CommandLine = CommandLine(lead: string, words: seq<Spelling>, gaps: seq<string>, end: char)

  predicate GoodLine(x: CommandLine) {
    Blank(x.lead) && |x.words| == |x.gaps| && Gapped(x.gaps) && GoodWords(x.words) && (x.end == '\n' || x.end == '\r' || x.end == ';')
  }

  function Script(lines: seq<CommandLine>): string
    requires forall i :: 0 <= i < |lines| ==> GoodLine(lines[i])
  {
    if lines == [] then ""
    else
      assert GoodLine(lines[0]);
      lines[0].lead + Line(lines[0].words, lines[0].gaps) + [lines[0].end] + Script(lines[1..])
  }

  function Commands(lines: seq<CommandLine>): (cs: seq<Command>)
    ensures |cs| == |lines| && forall i :: 0 <= i < |lines| ==> cs[i] == Meanings(lines[i].words)
  {
    if lines == [] then [] else [Meanings(lines[0].words)] + Commands(lines[1..])
  }

  /** A text of such lines is their commands, one each, and nothing is left over. */
  lemma {:induction false} ScriptReads(lines: seq<CommandLine>)
    requires forall i :: 0 <= i < |lines| ==> GoodLine(lines[i])
    ensures Tokenize(START, Script(lines)) == (Commands(lines), START)
    decreases |lines|
  {
    if lines != [] {
      var x, rest := lines[0], lines[1..];
      SpellingsRead(x.lead, x.words, x.gaps, x.end);
      ScriptReads(rest);
      assert Script(lines) == x.lead + Line(x.words, x.gaps) + [x.end] + Script(rest);
      TokenizeAppend(START, x.lead + Line(x.words, x.gaps) + [x.end], Script(rest));
    }
  }

  /** The parser itself, fed such a text in any pieces and called until it starves, returns those commands. */
  method ReadScript(lines: seq<CommandLine>, ops: seq<ShellRuns.Op>) returns (out: seq<Command>)
    requires forall i :: 0 <= i < |lines| ==> GoodLine(lines[i])
    requires ShellRuns.Legal(ops, false) && ShellRuns.Fed(ops) == Script(lines)
    requires ops != [] && ops[|ops| - 1] == ShellRuns.ParseOp
    requires var s := ShellRuns.Run(ops[..|ops| - 1]); Parse(s.lex, s.avail).Starved?
    ensures out == Commands(lines)
  {
    ScriptReads(lines);
    ShellRuns.StarvedHasAll(ops);
    out := ShellRuns.Drive(ops);
  }

  // ----- a writer

  /** A spelling outside quotes for every character: control characters by their letters, special ones behind a backslash. */
  function Spell(c: char): Piece {
    if c as int == 7 then Slashed('a')
    else if c as int == 8 then Slashed('b')
    else if c as int == 9 then Slashed('t')
    else if c as int == 10 then Slashed('n')
    else if c as int == 11 then Slashed('v')
    else if c as int == 12 then Slashed('f')
    else if c as int == 13 then Slashed('r')
    else if Plain(c) then Raw(c)
    else Slashed(c)
  }

  function SpellAll(w: string): (ps: seq<Piece>)
    ensures |ps| == |w| && forall i :: 0 <= i < |w| ==> ps[i] == Spell(w[i])
  {
    if w == "" then [] else [Spell(w[0])] + SpellAll(w[1..])
  }

  function Written(words: seq<string>): (ws: seq<Spelling>)
    ensures |ws| == |words| && forall i :: 0 <= i < |words| ==> ws[i] == [Bare(SpellAll(words[i]))]
  {
    if words == [] then [] else [[Bare(SpellAll(words[0]))]] + Written(words[1..])
  }

  lemma SpellMeans(c: char)
    ensures PieceMeans(Spell(c)) == c && (Spell(c).Raw? ==> Plain(Spell(c).c))
  {
  }

  lemma {:induction false} SpellAllMeans(w: string)
    ensures PiecesMean(SpellAll(w)) == w && Good(Bare(SpellAll(w))) && Means([Bare(SpellAll(w))]) == w
    decreases |w|
  {
    forall i | 0 <= i < |w| ensures SpellAll(w)[i].Raw? ==> Plain(SpellAll(w)[i].c) { SpellMeans(w[i]); }
    if w != "" {
      SpellMeans(w[0]);
      SpellAllMeans(w[1..]);
      assert SpellAll(w)[1..] == SpellAll(w[1..]);
    }
    var s: Spelling := [Bare(SpellAll(w))];
    assert s[1..] == [] && Means(s) == PiecesMean(SpellAll(w)) + "";
  }

  lemma {:induction false} WrittenMeans(words: seq<string>)
    requires forall i :: 0 <= i < |words| ==> words[i] != ""
    ensures Meanings(Written(words)) == words
    decreases |words|
  {
    if words != [] {
      var w := [Bare(SpellAll(words[0]))];
      SpellAllMeans(words[0]);
      WrittenMeans(words[1..]);
      assert Written(words) == [w] + Written(words[1..]);
      hide Means, SpellAll, Written, Good;
      FirstMeaning(w, Written(words[1..]));
      assert [words[0]] + words[1..] == words;
    }
  }

  lemma FirstMeaning(w: Spelling, rest: seq<Spelling>)
    requires Means(w) != ""
    ensures Meanings([w] + rest) == [Means(w)] + Meanings(rest)
  {
    hide Means;
    assert ([w] + rest)[1..] == rest;
  }

  lemma WrittenGood(words: seq<string>)
    ensures GoodWords(Written(words))
  {
    forall i, j | 0 <= i < |words| && 0 <= j < |Written(words)[i]| ensures Good(Written(words)[i][j]) {
      SpellAllMeans(words[i]);
    }
  }

  /** Any words at all, written without quotes, read back. */
  lemma WriteRoundTrip(words: seq<string>, gaps: seq<string>, end: char)
    requires |words| == |gaps| && Gapped(gaps) && (end == '\n' || end == '\r' || end == ';')
    requires forall i :: 0 <= i < |words| ==> words[i] != ""
    ensures Tokenize(START, Line(Written(words), gaps) + [end]) == ([words], START)
  {
    WrittenMeans(words);
    WrittenGood(words);
    SpellingsRead("", Written(words), gaps, end);
    hide Tokenize, Line;
    assert "" + Line(Written(words), gaps) + [end] == Line(Written(words), gaps) + [end];
  }

  // ----- single characters

  /** A backslash and a character, outside quotes and inside: one word of the character it stands for. */
  lemma EscapeReads(c: char)
    ensures var code := match c
        case 'a' => 7 case 'b' => 8 case 'f' => 12 case 'n' => 10 case 'r' => 13 case 't' => 9 case 'v' => 11
        case _ => c as int;
      && Tokenize(START, ['\\', c, '\n']) == ([[[code as char]]], START)
      && Tokenize(START, ['"', '\\', c, '"', '\n']) == ([[[code as char]]], START)
  {
    var ps := [Slashed(c)];
    assert ps[1..] == [] && PiecesText(ps) == ['\\', c] && PiecesMean(ps) == [PieceMeans(ps[0])];
    OneWord(Bare(ps));
    OneWord(InQuotes(ps));
    assert ['\\', c] + "\n" == ['\\', c, '\n'];
    assert "\"" + ['\\', c] + "\"" + "\n" == ['"', '\\', c, '"', '\n'];
  }

  lemma OneSegment(s: Segment)
    requires PiecesMean(s.pieces) != ""
    ensures Line([[s]], [""]) == SegmentText(s) && Meanings([[s]]) == [PiecesMean(s.pieces)]
  {
    var w: Spelling := [s];
    assert w[1..] == [] && [w][1..] == [] && [""][1..] == [];
    assert Text(w) == SegmentText(s) && Means(w) == PiecesMean(s.pieces);
    assert Line([w], [""]) == Text(w) + ("" + "");
    assert Meanings([w]) == [Means(w)] + [];
  }

  lemma OneWord(s: Segment)
    requires Good(s) && PiecesMean(s.pieces) != ""
    ensures Tokenize(START, SegmentText(s) + "\n") == ([[PiecesMean(s.pieces)]], START)
  {
    var w: Spelling := [s];
    OneSegment(s);
    hide Tokenize, Text, Means, Line, Meanings, SegmentText, PiecesMean;
    SpellingsRead("", [w], [""], '\n');
    assert "" + SegmentText(s) + ['\n'] == SegmentText(s) + "\n";
  }

  lemma Reads(l: Lex, c: char, rest: string)
    ensures var f := Feed(l, c);
      Tokenize(l, [c] + rest) ==
        if f.More? then Tokenize(f.lex, rest) else ([f.command] + Tokenize(START, rest).0, Tokenize(START, rest).1)
  {
    assert ([c] + rest)[1..] == rest;
  }

  /** What each character does between two plain ones. */
  lemma CharReads(c: char)
    ensures Tokenize(START, ['x', c, 'y', '\n']) ==
      if c == ' ' || c == '\t' then ([["x", "y"]], START)
      else if c == '\n' || c == '\r' || c == ';' then ([["x"], ["y"]], START)
      else if c == '\\' then ([["xy"]], START)
      else if c == '"' then ([], Lex(Quotation, "xy\n", []))
      else ([[['x', c, 'y']]], START)
  {
    var l := Lex(Word, "x", []);
    assert ['x', c, 'y', '\n'] == ['x'] + ([c] + (['y'] + ['\n']));
    Reads(START, 'x', [c] + (['y'] + ['\n']));
    assert Feed(START, 'x') == More(l) by { assert "" + ['x'] == "x"; }
    Reads(l, c, ['y'] + ['\n']);
    if c == '\n' || c == '\r' || c == ';' {
      assert [] + ["x"] == ["x"] && [] + ["y"] == ["y"];
      LastTwo(START);
      assert [["x"]] + [["y"]] == [["x"], ["y"]];
    } else {
      assert [] + ["x"] == ["x"] && ["x"] + ["y"] == ["x", "y"] && "x" + [c] + ['y'] == ['x', c, 'y'] && "x" + ['y'] == "xy";
      LastTwo(Feed(l, c).lex);
    }
  }

  lemma LastTwo(l: Lex)
    requires l == START || l == Lex(Ready, "", ["x"]) || l == Lex(EscapeInWord, "x", []) || l == Lex(Quotation, "x", [])
          || (l.state == Word && l.words == [])
    ensures Tokenize(l, ['y'] + ['\n']) ==
      if l.state == Word || l.state == EscapeInWord then ([[l.word + ['y']]], START)
      else if l.state == Ready then ([l.words + ["y"]], START)
      else ([], Lex(Quotation, "xy\n", []))
  {
    Reads(l, 'y', ['\n']);
    OneChar(Feed(l, 'y').lex, '\n');
    assert "" + ['y'] == "y" && "x" + ['y'] + ['\n'] == "xy\n" && [] + [l.word + ['y']] == [l.word + ['y']];
  }
}
