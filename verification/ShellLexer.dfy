/** The shell's command syntax, one character at a time, and what it means on whole texts. */
module ShellLexer {

  datatype State = Ready | Word | Quotation | EscapeInQuot | EscapeInWord | Operator | Complete

  /** What the parser remembers between characters: its state, the word so far, the words before it. */
  datatype Lex = Lex(state: State, word: string, words: seq<string>)

  type Command = seq<string>

  const START := Lex(Ready, "", [])

  predicate IsBlank(c: char) { c == ' ' || c == '\t' }
  predicate IsOperator(c: char) { c == '\r' || c == '\n' || c == ';' }

  /** A state the parser can be in when it has just consumed a character. */
  predicate Between(s: State) { s != Operator && s != Complete }

  /** The character an escape stands for. */
  function Unescape(c: char): char {
    match c
    case 'a' => 7 as char
    case 'b' => 8 as char
    case 'f' => 12 as char
    case 'n' => '\n'
    case 'r' => '\r'
    case 't' => '\t'
    case 'v' => 11 as char
    case _ => c
  }

  /** A finished word joins the command; an empty one is dropped. */
  function Flush(l: Lex): Lex {
    if l.word == "" then l else l.(word := "", words := l.words + [l.word])
  }

  datatype Fed = More(lex: Lex) | Done(command: Command)

  function FeedWord(l: Lex, c: char): Fed {
    if c == '"' then More(l.(state := Quotation))
    else if c == '\\' then More(l.(state := EscapeInWord))
    else if IsBlank(c) then More(Flush(l).(state := Ready))
    else if IsOperator(c) then Done(Flush(l).words)
    else More(l.(state := Word, word := l.word + [c]))
  }

  /** The effect of consuming one character. */
  function Feed(l: Lex, c: char): Fed {
    match l.state
    case Ready =>
      if IsBlank(c) then More(Flush(l))
      else if IsOperator(c) then Done(Flush(l).words)
      else FeedWord(Flush(l), c)
    case Word => FeedWord(l, c)
    case Quotation =>
      if c == '\\' then More(l.(state := EscapeInQuot))
      else if c == '"' then More(l.(state := Word))
      else More(l.(word := l.word + [c]))
    case EscapeInQuot => More(l.(state := Quotation, word := l.word + [Unescape(c)]))
    case EscapeInWord => More(l.(state := Word, word := l.word + [Unescape(c)]))
    case Operator => Done(l.words)
    case Complete => Done(l.words)
  }

  // ----- one command

  /** Either the text ran out inside a command, or a command ended and some text is left. */
  datatype Parsed = Starved(lex: Lex) | Parsed(command: Command, rest: string)

  function Parse(l: Lex, text: string): Parsed
    decreases |text|
  {
    if text == "" then Starved(l)
    else
      match Feed(l, text[0])
      case More(l') => Parse(l', text[1..])
      case Done(command) => Parsed(command, text[1..])
  }

  lemma {:induction false} ParseShrinks(l: Lex, text: string)
    ensures Parse(l, text).Parsed? ==> |Parse(l, text).rest| < |text|
    ensures Between(l.state) && Parse(l, text).Starved? ==> Between(Parse(l, text).lex.state)
    decreases |text|
  {
    if text != "" {
      var f := Feed(l, text[0]);
      if f.More? { ParseShrinks(f.lex, text[1..]); }
    }
  }

  /** More text after a finished command changes nothing; after a starved one it resumes. */
  lemma {:induction false} ParseAppend(l: Lex, s: string, t: string)
    ensures Parse(l, s + t) ==
            match Parse(l, s)
            case Starved(l') => Parse(l', t)
            case Parsed(command, rest) => Parsed(command, rest + t)
    decreases |s|
  {
    if s == "" {
      assert s + t == t;
    } else {
      assert (s + t)[1..] == s[1..] + t;
      var f := Feed(l, s[0]);
      if f.More? { ParseAppend(f.lex, s[1..], t); }
    }
  }

  // ----- a whole text in one pass

  /** All commands of a text, and what the parser is left with. */
  function Tokenize(l: Lex, text: string): (seq<Command>, Lex)
    decreases |text|
  {
    if text == "" then ([], l)
    else
      match Feed(l, text[0])
      case More(l') => Tokenize(l', text[1..])
      case Done(command) =>
        var (commands, end) := Tokenize(START, text[1..]);
        ([command] + commands, end)
  }

  /** Tokenizing can stop and resume anywhere. */
  lemma {:induction false} TokenizeAppend(l: Lex, s: string, t: string)
    ensures var (cs, l') := Tokenize(l, s); var (ds, end) := Tokenize(l', t);
      Tokenize(l, s + t) == (cs + ds, end)
    decreases |s|
  {
    if s == "" {
      assert s + t == t;
      assert [] + Tokenize(l, t).0 == Tokenize(l, t).0;
    } else {
      assert (s + t)[1..] == s[1..] + t;
      var f := Feed(l, s[0]);
      var next := if f.More? then f.lex else START;
      TokenizeAppend(next, s[1..], t);
      if f.Done? {
        var (cs, l') := Tokenize(START, s[1..]);
        var (ds, end) := Tokenize(l', t);
        assert [f.command] + (cs + ds) == ([f.command] + cs) + ds;
      }
    }
  }

  /** One command at a time is the same as all at once. */
  lemma {:induction false} TokenizeByParse(l: Lex, text: string)
    ensures Tokenize(l, text) ==
            match Parse(l, text)
            case Starved(l') => ([], l')
            case Parsed(command, rest) => ([command] + Tokenize(START, rest).0, Tokenize(START, rest).1)
    decreases |text|
  {
    if text != "" {
      var f := Feed(l, text[0]);
      if f.More? { TokenizeByParse(f.lex, text[1..]); }
    }
  }

  // ----- quoting

  function QuoteBody(w: string): string {
    if w == "" then ""
    else QuoteChar(w[0]) + QuoteBody(w[1..])
  }

  /** A word in double quotes, with a backslash before each quote and backslash. */
  function Quote(w: string): string { "\"" + QuoteBody(w) + "\"" }

  function QuoteChar(c: char): string {
    if c == '"' || c == '\\' then ['\\', c] else [c]
  }

  lemma OneChar(l: Lex, c: char)
    ensures Tokenize(l, [c]) ==
            match Feed(l, c)
            case More(l') => ([], l')
            case Done(command) => ([command], START)
  {
    assert [c][1..] == "";
    var f := Feed(l, c);
    if f.Done? { assert [f.command] + Tokenize(START, "").0 == [f.command]; }
  }

  lemma QuotedCharReads(l: Lex, c: char)
    requires l.state == Quotation
    ensures Tokenize(l, QuoteChar(c)) == ([], l.(word := l.word + [c]))
  {
    OneChar(l, c);
    if c == '"' || c == '\\' {
      var e := l.(state := EscapeInQuot);
      OneChar(l, '\\');
      OneChar(e, c);
      TokenizeAppend(l, ['\\'], [c]);
      assert ['\\'] + [c] == QuoteChar(c);
    }
  }

  /** Inside quotes, the body of a quoted word adds exactly the word. */
  lemma {:induction false} QuoteBodyReads(l: Lex, w: string)
    requires l.state == Quotation
    ensures Tokenize(l, QuoteBody(w)) == ([], l.(word := l.word + w))
    decreases |w|
  {
    if w == "" {
      assert l.word + w == l.word;
    } else {
      var l' := l.(word := l.word + [w[0]]);
      var head := QuoteChar(w[0]);
      assert l'.word + w[1..] == l.word + w;
      QuotedCharReads(l, w[0]);
      QuoteBodyReads(l', w[1..]);
      TokenizeAppend(l, head, QuoteBody(w[1..]));
    }
  }

  lemma QuoteReads(l: Lex, w: string)
    requires l.state == Ready || l.state == Word
    ensures var l0 := if l.state == Ready then Flush(l) else l;
      Tokenize(l, Quote(w)) == ([], l0.(state := Word, word := l0.word + w))
  {
    var l0 := if l.state == Ready then Flush(l) else l;
    var q := l0.(state := Quotation);
    assert Feed(l, '"') == More(q);
    assert "\""[1..] == "";
    assert Tokenize(l, "\"") == ([], q);
    QuoteBodyReads(q, w);
    TokenizeAppend(l, "\"", QuoteBody(w));
    var r := q.(word := l0.word + w);
    assert Feed(r, '"') == More(r.(state := Word));
    assert Tokenize(r, "\"") == ([], r.(state := Word));
    TokenizeAppend(l, "\"" + QuoteBody(w), "\"");
  }

  predicate AllBlank(s: string) { forall i :: 0 <= i < |s| ==> IsBlank(s[i]) }

  lemma {:induction false} BlanksRead(l: Lex, gap: string)
    requires (l.state == Ready || l.state == Word) && AllBlank(gap) && gap != ""
    ensures Tokenize(l, gap) == ([], Flush(l).(state := Ready))
    decreases |gap|
  {
    var l' := Flush(l).(state := Ready);
    assert Feed(l, gap[0]) == More(l');
    if |gap| > 1 {
      BlanksRead(l', gap[1..]);
    }
  }

  /** The words quoted one by one, each followed by its gap. */
  function Quoted(words: seq<string>, gaps: seq<string>): string
    requires |words| == |gaps|
  {
    if words == [] then "" else Quote(words[0]) + gaps[0] + Quoted(words[1..], gaps[1..])
  }

  function NonEmpty(words: seq<string>): seq<string> {
    if words == [] then [] else (if words[0] == "" then [] else [words[0]]) + NonEmpty(words[1..])
  }

  /** Blank gaps, non-empty between words; only the last may be empty. */
  predicate GoodGaps(gaps: seq<string>) {
    forall i :: 0 <= i < |gaps| ==> AllBlank(gaps[i]) && (i < |gaps| - 1 ==> gaps[i] != "")
  }

  lemma {:induction false} QuotedReads(l: Lex, words: seq<string>, gaps: seq<string>, op: char)
    requires |words| == |gaps| && l.state == Ready && l.word == "" && GoodGaps(gaps) && IsOperator(op)
    ensures Tokenize(l, Quoted(words, gaps) + [op]) == ([l.words + NonEmpty(words)], START)
    decreases |words|, 1
  {
    if words == [] {
      assert l.words + NonEmpty(words) == l.words;
      OneChar(l, op);
    } else {
      hide Tokenize, Quote, GoodGaps, AllBlank, Feed;
      var w := words[0];
      var l1 := l.(state := Word, word := w);
      var rest := Quoted(words[1..], gaps[1..]) + [op];
      assert l.word + w == w;
      QuoteReads(l, w);
      TokenizeAppend(l, Quote(w), gaps[0] + rest);
      assert Quoted(words, gaps) + [op] == Quote(w) + (gaps[0] + rest);
      GapReads(l, l1, words, gaps, rest, op);
      assert forall cs: seq<Command> :: [] + cs == cs;
    }
  }

  lemma WordEnds(l: Lex, op: char)
    requires l.state == Word && IsOperator(op)
    ensures Tokenize(l, [op]) == ([Flush(l).words], START)
  {
    OneChar(l, op);
  }

  lemma FlushedWords(l: Lex, l1: Lex, words: seq<string>)
    requires words != [] && l.word == "" && l1 == l.(state := Word, word := words[0])
    ensures Flush(l1).word == "" && Flush(l1).words + NonEmpty(words[1..]) == l.words + NonEmpty(words)
  {
    var first := if words[0] == "" then [] else [words[0]];
    var more := NonEmpty(words[1..]);
    assert NonEmpty(words) == first + more;
    hide NonEmpty;
    assert Flush(l1).words == l.words + first;
    assert l.words + first + more == l.words + (first + more);
  }

  lemma RestOfGaps(gaps: seq<string>)
    requires GoodGaps(gaps) && gaps != []
    ensures AllBlank(gaps[0]) && GoodGaps(gaps[1..]) && (gaps[0] == "" ==> |gaps| == 1)
  {
    forall i | 0 <= i < |gaps| - 1 ensures AllBlank(gaps[1..][i]) && (i < |gaps| - 2 ==> gaps[1..][i] != "") {
      assert gaps[1..][i] == gaps[i + 1];
    }
  }

  lemma NoMoreWords(words: seq<string>)
    requires words == []
    ensures NonEmpty(words) == []
  {
  }

  /** After a word: the gap, and whatever follows it. */
  lemma {:induction false} GapReads(l: Lex, l1: Lex, words: seq<string>, gaps: seq<string>, rest: string, op: char)
    requires |words| == |gaps| && words != [] && l.word == "" && GoodGaps(gaps) && IsOperator(op)
    requires l1 == l.(state := Word, word := words[0]) && rest == Quoted(words[1..], gaps[1..]) + [op]
    ensures Tokenize(l1, gaps[0] + rest) == ([l.words + NonEmpty(words)], START)
    decreases |words|, 0
  {
    var l2 := Flush(l1).(state := Ready);
    FlushedWords(l, l1, words);
    RestOfGaps(gaps);
    hide Tokenize, Feed, AllBlank, GoodGaps, Flush, NonEmpty;
    if gaps[0] == "" {
      assert gaps[0] + rest == [op];
      NoMoreWords(words[1..]);
      assert l2.words + NonEmpty(words[1..]) == l2.words;
      WordEnds(l1, op);
    } else {
      BlanksRead(l1, gaps[0]);
      QuotedReads(l2, words[1..], gaps[1..], op);
      TokenizeAppend(l1, gaps[0], rest);
      assert forall cs: seq<Command> :: [] + cs == cs;
    }
  }

  lemma {:induction false} NonEmptyAll(words: seq<string>)
    ensures |NonEmpty(words)| <= |words|
    ensures NonEmpty(words) == words <==> forall i :: 0 <= i < |words| ==> words[i] != ""
    decreases |words|
  {
    if words != [] {
      NonEmptyAll(words[1..]);
      if words[0] != "" {
        assert NonEmpty(words)[1..] == NonEmpty(words[1..]);
      }
    }
  }

  /**
   * The quoting round trip: quoted words with blanks between them and an operator at the
   * end read back as one command holding the non-empty words in order. So the list comes
   * back unchanged exactly when no word is empty.
   */
  lemma QuoteRoundTrip(words: seq<string>, gaps: seq<string>, op: char)
    requires |words| == |gaps| && IsOperator(op) && GoodGaps(gaps)
    ensures Tokenize(START, Quoted(words, gaps) + [op]) == ([NonEmpty(words)], START)
    ensures Tokenize(START, Quoted(words, gaps) + [op]) == ([words], START) <==>
            forall i :: 0 <= i < |words| ==> words[i] != ""
  {
    hide Tokenize, Quoted;
    QuotedReads(START, words, gaps, op);
    assert START.words + NonEmpty(words) == NonEmpty(words);
    NonEmptyAll(words);
    assert [NonEmpty(words)][0] == NonEmpty(words) && [words][0] == words;
  }
}
