/** The shell's growing character buffer: a C string in an oversized array. */
module CharBufs {

  const NUL := '\0'

  /** The C string that starts at the front of `s`: up to its first NUL. */
  function CString(s: seq<char>): (r: seq<char>)
    ensures NUL !in r && r <= s
    ensures |r| < |s| ==> s[|r|] == NUL
  {
    if s == [] || s[0] == NUL then [] else [s[0]] + CString(s[1..])
  }

  /** The terminator is where the text ends. */
  lemma {:induction false} CStringIs(s: seq<char>, n: nat)
    requires n < |s| && s[n] == NUL && NUL !in s[..n]
    ensures CString(s) == s[..n]
  {
    if n > 0 {
      assert s[0] == s[..n][0];
      assert s[1..][..n - 1] == s[..n][1..];
      CStringIs(s[1..], n - 1);
    }
  }

  /** `memcpy` of the characters `s` to `a` at `at`. */
  method CopyIn(a: array<char>, at: nat, s: seq<char>)
    requires at + |s| <= a.Length
    modifies a
    ensures a[..at] == old(a[..at]) && a[at..at + |s|] == s && a[at + |s|..] == old(a[at + |s|..])
  {
    forall i | 0 <= i < |s| { a[at + i] := s[i]; }
  }

  class CharBuf {
    var data: array<char>
    var size: nat
    var used: nat

    ghost predicate Valid()
      reads this, data
    {
      used < size == data.Length && data[used] == NUL && NUL !in data[..used]
    }

    ghost function Contents(): seq<char>
      reads this, data
      requires Valid()
    {
      data[..used]
    }

    /** The allocator hands out zeroed memory, so a new buffer is the empty string. */
    constructor (n: nat)
      requires 0 < n
      ensures Valid() && Contents() == [] && fresh(data) && size == n
    {
      data := new char[n](_ => NUL);
      size := n;
      used := 0;
    }

    method Clear()
      requires Valid()
      modifies this`used, data
      ensures Valid() && Contents() == [] && data == old(data)
    {
      data[0] := NUL;
      used := 0;
    }

    method IsEmpty() returns (r: bool)
      requires Valid()
      ensures r <==> Contents() == []
    {
      r := used == 0;
    }

    /** What `strlen`-bounded reading of the buffer sees is exactly the contents. */
    method Text() returns (r: seq<char>)
      requires Valid()
      ensures r == Contents()
    {
      CStringIs(data[..], used);
      assert data[..][..used] == data[..used];
      r := CString(data[..]);
    }

    /**
     * Appends a C string, doubling the buffer when it would not fit with its terminator.
     * When memory for that runs out, nothing changes.
     */
    method Concat(str: seq<char>, memory: bool) returns (ok: bool)
      requires Valid()
      modifies this, data
      ensures Valid() && (data == old(data) || fresh(data))
      ensures ok ==> Contents() == old(Contents()) + CString(str)
      ensures !ok ==> Contents() == old(Contents()) && !memory && size == old(size)
      ensures size == if ok && old(size) - old(used) < |CString(str)| + 1 then |CString(str)| + 2 * old(size) else old(size)
      ensures memory || old(used) + |CString(str)| < old(size) ==> ok
    {
      var s := CString(str);
      ok := Reserve(|s|, memory);
      if !ok { return; }
      ghost var before := data[..used];
      CopyIn(data, used, s);
      assert data[..used + |s|] == before + s;
      used := used + |s|;
      data[used] := NUL;
      assert data[..used] == before + s;
    }

    /** Room for `n` more characters and the terminator. */
    method Reserve(n: nat, memory: bool) returns (ok: bool)
      requires Valid()
      modifies this
      ensures Valid() && Contents() == old(Contents()) && used == old(used) && (data == old(data) || fresh(data))
      ensures ok <==> memory || old(used) + n < old(size)
      ensures ok ==> used + n < size
      ensures size == if ok && old(size) - old(used) < n + 1 then n + 2 * old(size) else old(size)
    {
      if size - used < n + 1 {
        if !memory { return false; }
        Grow(n + size * 2);
      }
      return true;
    }

    /** Moves the text to a larger array. */
    method Grow(size': nat)
      requires Valid() && used < size'
      modifies this
      ensures Valid() && Contents() == old(Contents()) && used == old(used) && fresh(data) && size == size'
    {
      var data' := new char[size'](_ => NUL);
      CopyIn(data', 0, data[..used]);
      assert data'[..used] == data[..used];
      data := data';
      size := size';
    }

    method Append(c: char, memory: bool) returns (ok: bool)
      requires Valid()
      modifies this, data
      ensures Valid() && (data == old(data) || fresh(data))
      ensures ok ==> Contents() == if c == NUL then old(Contents()) else old(Contents()) + [c]
      ensures !ok ==> Contents() == old(Contents())
      ensures memory ==> ok
    {
      assert c != NUL ==> CString([c, NUL]) == [c] by { assert [c, NUL][1..] == [NUL]; }
      ok := Concat([c, NUL], memory);
    }

    /** Takes the last character off, or answers NUL when there is none. */
    method DropLast() returns (c: char)
      requires Valid()
      modifies this`used, data
      ensures Valid() && data == old(data)
      ensures if old(Contents()) == [] then c == NUL && Contents() == []
              else old(Contents()) == Contents() + [c]
    {
      c := NUL;
      if used != 0 {
        used := used - 1;
        c := data[used];
        assert data[..used + 1] == data[..used] + [c];
        data[used] := NUL;
      }
    }
  }
}
