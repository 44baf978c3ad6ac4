/** The parser's chain of input pieces, read one character at a time. */
module ShellInput {
  import CharBufs

  /** The pieces from the current one on, the place in it, and whether a last link is known. */
  datatype Input = Input(chain: seq<string>, pos: nat, last: bool)

  const EMPTY := Input([], 0, false)

  /** What holds of every chain the operations build; an empty piece can only be where reading stopped. */
  predicate Ok(i: Input) {
    && (i.chain == [] ==> i.pos == 0 && !i.last)
    && (i.chain != [] ==> i.pos <= |i.chain[0]|)
    && (!i.last ==> |i.chain| <= 1 && (i.chain != [] ==> i.pos == |i.chain[0]|))
    && (i.last && i.pos == |i.chain[0]| ==> i.chain[0] == "")
    && (forall k :: 0 <= k < |i.chain| ==> CharBufs.NUL !in i.chain[k])
  }

  /** The character under the input pointer; NUL at the end of a piece. */
  function Peek(i: Input): char {
    if i.chain != [] && i.pos < |i.chain[0]| then i.chain[0][i.pos] else CharBufs.NUL
  }

  /** `addInputParser`: behind the last link, or as a new chain when there is none. */
  function Add(i: Input, piece: string): Input {
    if i.last then i.(chain := i.chain + [piece]) else Input([piece], 0, true)
  }

  /** `advanceInputParser` at the end of a piece: the next link, or none. */
  function NextLink(i: Input): Input
    requires i.chain != []
  {
    if |i.chain| > 1 then Input(i.chain[1..], 0, i.last) else i.(last := false)
  }

  function Advance(i: Input): Input
    requires i.chain != []
  {
    if i.pos < |i.chain[0]| then
      var j := i.(pos := i.pos + 1);
      if j.pos == |j.chain[0]| then NextLink(j) else j
    else NextLink(i)
  }

  /** The text of some pieces, as far as the first empty one. */
  function Text(chain: seq<string>): string {
    if chain == [] || chain[0] == "" then "" else chain[0] + Text(chain[1..])
  }

  /** What the parser can still read. */
  function Avail(i: Input): string
    requires Ok(i)
  {
    if i.chain == [] || i.pos == |i.chain[0]| then "" else i.chain[0][i.pos..] + Text(i.chain[1..])
  }

  /** An empty piece lies ahead: nothing behind it will be reached. */
  predicate Blocked(i: Input) { i.last && "" in i.chain }

  lemma PeekAvail(i: Input)
    requires Ok(i)
    ensures Peek(i) == CharBufs.NUL <==> Avail(i) == ""
    ensures Avail(i) != "" ==> Peek(i) == Avail(i)[0]
  {
  }

  /** Advancing consumes exactly the character under the pointer. */
  lemma AdvanceReads(i: Input)
    requires Ok(i) && Avail(i) != ""
    ensures Ok(Advance(i)) && Avail(Advance(i)) == Avail(i)[1..] && (Blocked(Advance(i)) <==> Blocked(i))
    ensures Advance(i).chain != []
  {
    var j := Advance(i);
    assert i.chain == [i.chain[0]] + i.chain[1..];
    if i.pos + 1 == |i.chain[0]| {
      assert i.chain[0][i.pos..] == [i.chain[0][i.pos]];
      if |i.chain| > 1 {
        assert j.chain[0][0..] == j.chain[0];
      }
    } else {
      assert i.chain[0][i.pos..][1..] == i.chain[0][i.pos + 1..];
    }
  }

  lemma {:induction false} TextAdd(chain: seq<string>, piece: string)
    ensures Text(chain + [piece]) == if "" in chain then Text(chain) else Text(chain) + piece
  {
    if chain == [] {
      assert chain + [piece] == [piece] && [piece][1..] == [];
      assert Text([piece]) == piece + Text([]);
    } else {
      assert (chain + [piece])[1..] == chain[1..] + [piece];
      if chain[0] != "" {
        TextAdd(chain[1..], piece);
      }
    }
  }

  lemma InChain(first: string, others: seq<string>, chain: seq<string>)
    requires chain != [] && first == chain[0] && others == chain[1..]
    ensures forall s :: s in chain <==> s == first || s in others
  {
    assert chain == [first] + others;
  }

  /** A new piece extends what can be read, unless an empty piece blocks the way. */
  lemma AddReads(i: Input, piece: string)
    requires Ok(i) && CharBufs.NUL !in piece
    ensures Ok(Add(i, piece)) && Add(i, piece).chain != []
    ensures Avail(Add(i, piece)) == if Blocked(i) then Avail(i) else Avail(i) + piece
    ensures Blocked(Add(i, piece)) <==> Blocked(i) || piece == ""
  {
    if i.last {
      hide Text;
      assert (i.chain + [piece])[1..] == i.chain[1..] + [piece] && (i.chain + [piece])[0] == i.chain[0];
      TextAdd(i.chain[1..], piece);
      InChain(i.chain[0], i.chain[1..], i.chain);
    } else {
      assert [piece][1..] == [];
    }
  }

  /** Unless blocked, input remains exactly while a last link is known. */
  lemma UnparsedMeans(i: Input)
    requires Ok(i)
    ensures !Blocked(i) ==> (i.last <==> Avail(i) != "")
  {
    if i.last { assert i.chain[0] in i.chain; }
  }
}
