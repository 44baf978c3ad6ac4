/** The resumable command parser: its states, its tokens, and the loop over its input. */
module ShellParser {
  import opened ShellLexer
  import opened ShellInput
  import CharBufs

  function Reversed<T>(xs: seq<T>): (r: seq<T>)
    ensures |r| == |xs| && forall k :: 0 <= k < |xs| ==> r[k] == xs[|xs| - 1 - k]
  {
    if xs == [] then [] else Reversed(xs[1..]) + [xs[0]]
  }

  lemma ReversedPush<T>(x: T, xs: seq<T>)
    ensures Reversed([x] + xs) == Reversed(xs) + [x]
  {
    assert ([x] + xs)[1..] == xs;
  }

  datatype ParseResult = ParsedCommand(length: nat, words: Command) | ParseIncomplete

  /** Turns the parser's newest-first list into the command's oldest-first one. */
  method MkParsedCommand(tokens: seq<string>) returns (pc: ParseResult)
    ensures pc == ParsedCommand(|tokens|, Reversed(tokens))
  {
    var length := 0;
    var words: Command := [];
    var rest := tokens;
    assert Reversed(tokens) + words == Reversed(tokens);
    while rest != []
      invariant length + |rest| == |tokens| && Reversed(tokens) == Reversed(rest) + words
      decreases |rest|
    {
      assert Reversed(rest) + words == Reversed(rest[1..]) + ([rest[0]] + words);
      words := [rest[0]] + words;
      length := length + 1;
      rest := rest[1..];
    }
    assert Reversed(rest) + words == words;
    pc := ParsedCommand(length, words);
  }

  /** How many rounds without consuming input can still follow. */
  function Rank(l: Lex, a: string): nat {
    if a == "" then 0
    else
      var plain := !IsBlank(a[0]) && !IsOperator(a[0]);
      match l.state
      case Word => if plain then 0 else 3
      case Ready => if plain then 1 else 2
      case Operator => 1
      case _ => 0
  }

  lemma ParseNothing(l: Lex)
    ensures Parse(l, "") == Starved(l)
  {
  }

  class Parser {
    var tokens: seq<string>
    const token: CharBufs.CharBuf
    var chain: seq<string>
    var pos: nat
    var last: bool
    var state: State

    ghost predicate Inner()
      reads this, token, token.data
    {
      token.Valid() && Ok(In())
    }

    ghost predicate Valid()
      reads this, token, token.data
    {
      Inner() && Between(state)
    }

    ghost function In(): Input
      reads this
    {
      Input(chain, pos, last)
    }

    ghost function Now(): Lex
      reads this, token, token.data
      requires token.Valid()
    {
      Lex(state, token.Contents(), Reversed(tokens))
    }

    constructor ()
      ensures Valid() && Now() == START && In() == EMPTY && fresh(token) && fresh(token.data)
    {
      token := new CharBufs.CharBuf(32);
      tokens := [];
      chain := [];
      pos := 0;
      last := false;
      state := Ready;
    }

    /** More input, to be read after what is already there. */
    method AddInput(piece: string)
      requires Valid() && CharBufs.NUL !in piece
      modifies this`chain, this`pos, this`last
      ensures Valid() && Now() == old(Now()) && In() == Add(old(In()), piece)
      ensures Avail(In()) == if Blocked(old(In())) then old(Avail(In())) else old(Avail(In())) + piece
    {
      AddReads(In(), piece);
      if last {
        chain := chain + [piece];
      } else {
        chain := [piece];
        pos := 0;
      }
      last := true;
    }

    /** Moves the input pointer on, into the next piece when this one is used up. */
    method AdvanceInput()
      requires chain != [] && pos <= |chain[0]|
      modifies this`chain, this`pos, this`last
      ensures In() == Advance(old(In()))
      decreases |chain[0]| - pos
    {
      if pos < |chain[0]| {
        pos := pos + 1;
        if pos == |chain[0]| { AdvanceInput(); }
      } else if |chain| > 1 {
        chain := chain[1..];
        pos := 0;
      } else {
        last := false;
      }
    }

    method Consume()
      requires Inner() && Avail(In()) != ""
      modifies this`chain, this`pos, this`last
      ensures Inner() && Avail(In()) == old(Avail(In()))[1..] && chain != [] && (Blocked(In()) <==> old(Blocked(In())))
    {
      AdvanceReads(In());
      AdvanceInput();
    }

    method HasUnparsedInput() returns (r: bool)
      requires Valid()
      ensures r <==> last || Avail(In()) != ""
      ensures !Blocked(In()) ==> (r <==> Avail(In()) != "")
    {
      PeekAvail(In());
      UnparsedMeans(In());
      r := Peek(Input(chain, pos, last)) != CharBufs.NUL || last;
    }

    /** Consumes the current character, adding `c` to the word. */
    method Take(c: char)
      requires Inner() && Avail(In()) != "" && c != CharBufs.NUL
      modifies this`chain, this`pos, this`last, token, token.data
      ensures Inner() && Avail(In()) == old(Avail(In()))[1..] && chain != [] && (Blocked(In()) <==> old(Blocked(In())))
      ensures token.Contents() == old(token.Contents()) + [c]
      ensures token.data == old(token.data) || fresh(token.data)
    {
      var ok := token.Append(c, true);
      Consume();
    }

    /** In the ready state: a finished word joins the command, then the character decides. */
    method StepReady(c: char)
      requires Inner() && Avail(In()) != "" && c == Avail(In())[0] && state == Ready
      modifies this, token, token.data
      ensures Stepped(old(Now()), old(Avail(In()))) && (Blocked(In()) <==> old(Blocked(In()))) && chain != []
      ensures token.data == old(token.data) || fresh(token.data)
    {
      ghost var l, a := Now(), Avail(In());
      var empty := token.IsEmpty();
      if !empty {
        var word := token.Text();
        ReversedPush(word, tokens);
        tokens := [word] + tokens;
        token.Clear();
      }
      assert Now() == Flush(l);
      if IsBlank(c) {
        Consume();
      } else if IsOperator(c) {
        state := Operator;
      } else {
        state := Word;
      }
    }

    method StepWord(c: char)
      requires Inner() && Avail(In()) != "" && c == Avail(In())[0] && state == Word && c != CharBufs.NUL
      modifies this, token, token.data
      ensures Stepped(old(Now()), old(Avail(In()))) && (Blocked(In()) <==> old(Blocked(In()))) && chain != []
      ensures token.data == old(token.data) || fresh(token.data)
    {
      if c == '"' {
        Consume();
        state := Quotation;
      } else if c == '\\' {
        Consume();
        state := EscapeInWord;
      } else if IsBlank(c) || IsOperator(c) {
        state := Ready;
      } else {
        Take(c);
      }
    }

    method StepQuotation(c: char)
      requires Inner() && Avail(In()) != "" && c == Avail(In())[0] && state == Quotation && c != CharBufs.NUL
      modifies this, token, token.data
      ensures Stepped(old(Now()), old(Avail(In()))) && (Blocked(In()) <==> old(Blocked(In()))) && chain != []
      ensures token.data == old(token.data) || fresh(token.data)
    {
      if c == '\\' {
        Consume();
        state := EscapeInQuot;
      } else if c == '"' {
        Consume();
        state := Word;
      } else {
        Take(c);
      }
    }

    method StepEscape(c: char)
      requires Inner() && Avail(In()) != "" && c == Avail(In())[0] && c != CharBufs.NUL
      requires state == EscapeInWord || state == EscapeInQuot
      modifies this, token, token.data
      ensures Stepped(old(Now()), old(Avail(In()))) && (Blocked(In()) <==> old(Blocked(In()))) && chain != []
      ensures token.data == old(token.data) || fresh(token.data)
    {
      Take(Unescape(c));
      state := if state == EscapeInWord then Word else Quotation;
    }

    /** One round of the parser's loop from `l` with `a` to read: progress, and the same outcome ahead. */
    ghost predicate Stepped(l: Lex, a: string)
      reads this, token, token.data
    {
      && Inner() && (state == Operator || state == Complete ==> token.Contents() == "")
      && (state == Operator ==> Avail(In()) != "" && IsOperator(Avail(In())[0]))
      && (state == Complete ==> Parse(l, a) == Parsed(Now().words, Avail(In())))
      && (state != Complete ==> Parse(l, a) == Parse(Now(), Avail(In())))
      && (|Avail(In())| < |a| || (|Avail(In())| == |a| && Rank(Now(), Avail(In())) < Rank(l, a)))
    }

    /** Parses one command, or as much of one as there is input for. */
    method ParseInput() returns (r: ParseResult)
      requires Valid() && chain != []
      modifies this, token, token.data
      ensures Valid() && chain != [] && (Blocked(In()) <==> old(Blocked(In())))
      ensures token.data == old(token.data) || fresh(token.data)
      ensures match Parse(old(Now()), old(Avail(In())))
        case Starved(l) => r == ParseIncomplete && Now() == l && Avail(In()) == ""
        case Parsed(command, rest) => r == ParsedCommand(|command|, command) && Now() == START && Avail(In()) == rest
    {
      hide Parse, Avail, Rank, Feed;
      ghost var l, a := Now(), Avail(In());
      PeekAvail(In());
      while Peek(Input(chain, pos, last)) != CharBufs.NUL && state != Complete
        invariant Inner() && chain != [] && (Blocked(In()) <==> old(Blocked(In())))
        invariant token.data == old(token.data) || fresh(token.data)
        invariant state == Operator || state == Complete ==> token.Contents() == ""
        invariant state == Operator ==> Avail(In()) != "" && IsOperator(Avail(In())[0])
        invariant state == Complete ==> Parse(l, a) == Parsed(Now().words, Avail(In()))
        invariant state != Complete ==> Parse(l, a) == Parse(Now(), Avail(In()))
        decreases |Avail(In())|, Rank(Now(), Avail(In()))
      {
        PeekAvail(In());
        var c := Peek(Input(chain, pos, last));
        match state
        case Ready => StepReady(c);
        case Word => StepWord(c);
        case Quotation => StepQuotation(c);
        case EscapeInQuot => StepEscape(c);
        case EscapeInWord => StepEscape(c);
        case Operator => StepOperator();
        case Complete =>
      }
      PeekAvail(In());
      if state != Complete {
        ParseNothing(Now());
        ParseShrinks(l, a);
        return ParseIncomplete;
      }
      r := MkParsedCommand(tokens);
      tokens := [];
      token.Clear();
      state := Ready;
    }

    method StepOperator()
      requires Inner() && Avail(In()) != "" && state == Operator && token.Contents() == ""
      modifies this, token, token.data
      ensures Stepped(old(Now()), old(Avail(In()))) && (Blocked(In()) <==> old(Blocked(In()))) && chain != []
      ensures token.data == old(token.data) || fresh(token.data)
    {
      Consume();
      state := Complete;
    }
  }
}
