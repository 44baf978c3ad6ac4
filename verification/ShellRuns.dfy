/** Feeding the parser in pieces, in any interleaving, gives the commands of the whole text. */
module ShellRuns {
  import opened ShellLexer
  import opened ShellInput
  import opened ShellParser
  import CharBufs

  datatype Op = AddOp(piece: string) | ParseOp

  /** The parser as its caller can know it. */
  datatype Shell = Shell(lex: Lex, avail: string, blocked: bool)

  const FRESH := Shell(START, "", false)

  function AfterOp(s: Shell, op: Op): Shell {
    match op
    case AddOp(piece) => Shell(s.lex, if s.blocked then s.avail else s.avail + piece, s.blocked || piece == "")
    case ParseOp =>
      match Parse(s.lex, s.avail)
      case Starved(l) => s.(lex := l, avail := "")
      case Parsed(_, rest) => s.(lex := START, avail := rest)
  }

  /** The command a call returns, if it completes one. */
  function OutOf(s: Shell, op: Op): seq<Command> {
    if op.AddOp? then []
    else
      match Parse(s.lex, s.avail)
      case Starved(_) => []
      case Parsed(command, _) => [command]
  }

  function Run(ops: seq<Op>): Shell {
    if ops == [] then FRESH else AfterOp(Run(ops[..|ops| - 1]), ops[|ops| - 1])
  }

  /** All commands returned during a run. */
  function Output(ops: seq<Op>): seq<Command> {
    if ops == [] then [] else Output(ops[..|ops| - 1]) + OutOf(Run(ops[..|ops| - 1]), ops[|ops| - 1])
  }

  predicate AddsEmpty(ops: seq<Op>) { AddOp("") in ops }

  /** All the text added, up to the first empty piece. */
  function Fed(ops: seq<Op>): string {
    if ops == [] then ""
    else
      var before := ops[..|ops| - 1];
      var op := ops[|ops| - 1];
      if op.AddOp? && !AddsEmpty(before) then Fed(before) + op.piece else Fed(before)
  }

  /**
   * In every run, the commands already returned followed by those still in the input are
   * exactly the one-pass commands of the text fed in, and the parser will end in the same state.
   */
  lemma {:induction false} AnyCutSameCommands(ops: seq<Op>)
    ensures var s := Run(ops); var (todo, end) := Tokenize(s.lex, s.avail);
      Tokenize(START, Fed(ops)) == (Output(ops) + todo, end)
    ensures Run(ops).blocked <==> AddsEmpty(ops)
    decreases |ops|
  {
    hide Tokenize;
    if ops == [] {
      TokenizeNothing(START);
      assert Output(ops) + [] == [];
    } else {
      var before := ops[..|ops| - 1];
      var op := ops[|ops| - 1];
      AnyCutSameCommands(before);
      assert ops == before + [op];
      assert AddsEmpty(ops) <==> AddsEmpty(before) || op == AddOp("");
      var s := Run(before);
      var (todo, end) := Tokenize(s.lex, s.avail);
      if op.AddOp? {
        AddStep(before, op.piece);
      } else {
        TokenizeByParse(s.lex, s.avail);
        var p := Parse(s.lex, s.avail);
        if p.Starved? {
          TokenizeNothing(p.lex);
          assert Output(before) + [] == Output(before);
        } else {
          var more := Tokenize(START, p.rest).0;
          assert Output(before) + ([p.command] + more) == (Output(before) + [p.command]) + more;
        }
      }
    }
  }

  lemma TokenizeNothing(l: Lex)
    ensures Tokenize(l, "") == ([], l)
  {
  }

  /** More text, not yet parsed, is more commands to come. */
  lemma AddStep(before: seq<Op>, piece: string)
    requires var s := Run(before); var (todo, end) := Tokenize(s.lex, s.avail);
      Tokenize(START, Fed(before)) == (Output(before) + todo, end)
    requires Run(before).blocked <==> AddsEmpty(before)
    ensures var ops := before + [AddOp(piece)]; var s := Run(ops); var (todo, end) := Tokenize(s.lex, s.avail);
      Tokenize(START, Fed(ops)) == (Output(ops) + todo, end)
  {
    hide Tokenize;
    var ops := before + [AddOp(piece)];
    assert ops[..|ops| - 1] == before;
    var s := Run(before);
    assert Output(ops) == Output(before) + [] == Output(before);
    if !s.blocked {
      TokenizeAppend(s.lex, s.avail, piece);
      TokenizeAppend(START, Fed(before), piece);
      var (todo, end) := Tokenize(s.lex, s.avail);
      var (more, _) := Tokenize(end, piece);
      assert Output(before) + (todo + more) == (Output(before) + todo) + more;
    }
  }

  /** A starved parse has returned every command there was. */
  lemma StarvedHasAll(ops: seq<Op>)
    requires ops != [] && ops[|ops| - 1] == ParseOp
    requires var s := Run(ops[..|ops| - 1]); Parse(s.lex, s.avail).Starved?
    ensures Output(ops) == Tokenize(START, Fed(ops)).0
  {
    AnyCutSameCommands(ops);
    TokenizeNothing(Run(ops).lex);
    assert Output(ops) + [] == Output(ops);
  }

  /** Two runs on the same text agree: the cuts and the moments of parsing do not matter. */
  lemma CutsDoNotMatter(ops: seq<Op>, ops': seq<Op>)
    requires ops != [] && ops[|ops| - 1] == ParseOp && ops' != [] && ops'[|ops'| - 1] == ParseOp
    requires var s := Run(ops[..|ops| - 1]); Parse(s.lex, s.avail).Starved?
    requires var s := Run(ops'[..|ops'| - 1]); Parse(s.lex, s.avail).Starved?
    requires Fed(ops) == Fed(ops')
    ensures Output(ops) == Output(ops') && Run(ops).lex == Run(ops').lex
  {
    StarvedHasAll(ops);
    StarvedHasAll(ops');
    AnyCutSameCommands(ops);
    AnyCutSameCommands(ops');
    TokenizeNothing(Run(ops).lex);
    TokenizeNothing(Run(ops').lex);
  }

  /** What is added behind a piece can be read exactly when the piece is not empty. */
  lemma LaterTextReached(ops: seq<Op>, piece: string)
    requires !AddsEmpty(ops)
    ensures (forall later: string {:trigger AddOp(later)} ::
               Run(ops + [AddOp(piece)] + [AddOp(later)]).avail == Run(ops).avail + piece + later)
       <==> piece != ""
  {
    AnyCutSameCommands(ops);
    OneCall(ops, AddOp(piece));
    var a := ops + [AddOp(piece)];
    forall later: string
      ensures Run(a + [AddOp(later)]).avail == if piece == "" then Run(ops).avail + piece else Run(ops).avail + piece + later
    {
      OneCall(a, AddOp(later));
    }
    if piece == "" {
      var x := AddOp("x");
      assert |Run(a + [x]).avail| == |Run(ops).avail + piece|;
    }
  }

  /** An empty piece first, and a whole command behind it is never seen. */
  lemma EmptyPieceLosesCommand()
    ensures var ops := [AddOp(""), AddOp("x\n"), ParseOp];
      Output(ops) == [] && Tokenize(START, "x\n").0 == [["x"]]
  {
    var o1 := [AddOp("")];
    var o2 := o1 + [AddOp("x\n")];
    OneCall([], AddOp(""));
    OneCall(o1, AddOp("x\n"));
    OneCall(o2, ParseOp);
    assert [] + [AddOp("")] == o1 && o2 + [ParseOp] == [AddOp(""), AddOp("x\n"), ParseOp];
    assert Run(o2) == Shell(START, "", true) && Output(o2) == [];
    OneCommand();
  }

  lemma OneCommand()
    ensures Tokenize(START, "x\n").0 == [["x"]]
  {
    var l := Lex(Word, "x", []);
    assert START.word + ['x'] == "x" && "x\n"[1..] == "\n" && "\n"[1..] == "";
    assert Feed(START, 'x') == More(l);
    assert Feed(l, '\n') == Done(["x"]);
    OneChar(l, '\n');
    OneCharMore(START, 'x', "\n", l);
  }

  lemma OneCall(ops: seq<Op>, op: Op)
    ensures Run(ops + [op]) == AfterOp(Run(ops), op) && Output(ops + [op]) == Output(ops) + OutOf(Run(ops), op)
  {
    assert (ops + [op])[..|ops + [op]| - 1] == ops;
  }

  lemma OneCharMore(l: Lex, c: char, rest: string, l1: Lex)
    requires Feed(l, c) == More(l1)
    ensures Tokenize(l, [c] + rest) == Tokenize(l1, rest)
  {
    assert ([c] + rest)[1..] == rest;
  }

  /** A run of calls that parses only once some input has been added, and adds C strings. */
  predicate Legal(ops: seq<Op>, started: bool) {
    ops == [] ||
    match ops[0]
    case AddOp(piece) => CharBufs.NUL !in piece && Legal(ops[1..], true)
    case ParseOp => started && Legal(ops[1..], started)
  }

  /** One call on the parser follows the model. */
  method DriveOne(p: Parser, op: Op, ghost s: Shell) returns (out: seq<Command>)
    requires p.Valid() && Shell(p.Now(), Avail(p.In()), Blocked(p.In())) == s
    requires match op case AddOp(piece) => CharBufs.NUL !in piece case ParseOp => p.chain != []
    modifies p, p.token, p.token.data
    ensures p.Valid() && Shell(p.Now(), Avail(p.In()), Blocked(p.In())) == AfterOp(s, op) && out == OutOf(s, op)
    ensures p.chain != [] && (p.token.data == old(p.token.data) || fresh(p.token.data))
  {
    hide Parse, Avail;
    out := [];
    match op
    case AddOp(piece) =>
      AddReads(p.In(), piece);
      p.AddInput(piece);
    case ParseOp =>
      var r := p.ParseInput();
      if r.ParsedCommand? { out := [r.words]; }
  }

  /** The parser itself, driven through any legal calls, returns what the model says. */
  method Drive(ops: seq<Op>) returns (out: seq<Command>)
    requires Legal(ops, false)
    ensures out == Output(ops)
  {
    hide AfterOp, OutOf, Avail, Blocked;
    var p := new Parser();
    out := [];
    assert ops[..0] == [] && ops[0..] == ops;
    NothingYet();
    for i := 0 to |ops|
      invariant p.Valid() && fresh(p) && fresh(p.token) && fresh(p.token.data)
      invariant Legal(ops[i..], p.chain != [])
      invariant Shell(p.Now(), Avail(p.In()), Blocked(p.In())) == Run(ops[..i]) && out == Output(ops[..i])
    {
      assert ops[..i + 1][..|ops[..i + 1]| - 1] == ops[..i] && ops[i..][1..] == ops[i + 1..];
      var more := DriveOne(p, ops[i], Run(ops[..i]));
      out := out + more;
    }
    assert ops[..|ops|] == ops;
  }

  lemma NothingYet()
    ensures Avail(EMPTY) == "" && !Blocked(EMPTY)
  {
  }
}
