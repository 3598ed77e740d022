/** The backward scan of get_last_timestamp (utility_scripts/download_trades.py and
    backend/app/tasks.py): the last line of a file, found from its end. A byte is a char. */
module LastLine {

  const NEWLINE := '\n'

  /** The length of the first line of a non-empty text, its newline included. */
  function LineLength(s: string): (n: nat)
    requires s != []
    ensures 1 <= n <= |s|
  {
    if s[0] == NEWLINE || |s| == 1 then 1 else 1 + LineLength(s[1..])
  }

  /** The lines of a text, each with its newline: what splitting on newlines gives. */
  function Lines(s: string): seq<string> {
    if s == [] then [] else [s[..LineLength(s)]] + Lines(s[LineLength(s)..])
  }

  function Last(lines: seq<string>): string {
    if lines == [] then [] else lines[|lines| - 1]
  }

  /** A file opened for reading. */
  class File {
    const bytes: string
    var position: nat

    constructor (bytes: string)
      ensures this.bytes == bytes && position == 0
    {
      this.bytes := bytes;
      position := 0;
    }

    /** A seek to before the file's start fails and leaves the position alone. */
    method Seek(target: int) returns (ok: bool)
      modifies this
      ensures ok <==> target >= 0
      ensures position == if ok then target else old(position)
    {
      ok := target >= 0;
      if ok {
        position := target;
      }
    }

    method ReadByte() returns (b: string)
      modifies this
      ensures b == if old(position) < |bytes| then [bytes[old(position)]] else []
      ensures position == old(position) + |b|
    {
      if position < |bytes| {
        b := [bytes[position]];
        position := position + 1;
      } else {
        b := [];
      }
    }

    method ReadLine() returns (line: string)
      modifies this
      ensures line == if old(position) < |bytes|
                      then bytes[old(position)..old(position) + LineLength(bytes[old(position)..])] else []
    {
      line := [];
      ghost var start := position;
      while position < |bytes| && (line == [] || line[|line| - 1] != NEWLINE)
        invariant start <= position && (start < |bytes| ==> position <= |bytes|) && (start >= |bytes| ==> line == [])
        invariant start < |bytes| ==> line == bytes[start..position]
        invariant start < |bytes| ==> forall i :: start <= i < position - 1 ==> bytes[i] != NEWLINE
        decreases |bytes| - position
      {
        line := line + [bytes[position]];
        position := position + 1;
      }
      if start < |bytes| {
        LineEnd(bytes[start..], position - start);
      }
    }

    /** Two bytes from the end, then one byte back at a time until a newline has been read; a
        seek that fails goes to the start instead. */
    method ReadLastLine() returns (line: string)
      modifies this
      ensures line == Last(Lines(bytes))
    {
      var ok := Seek(|bytes| - 2);
      var found := false;
      while ok && !found
        invariant ok ==> position < |bytes|
        invariant ok && !found ==> position + 2 <= |bytes| && NoNewline(bytes, position + 1)
        invariant found ==> ok && 1 <= position && bytes[position - 1] == NEWLINE && NoNewline(bytes, position)
        invariant !ok ==> NoNewline(bytes, 0)
        decreases ok && !found, position
      {
        var b := ReadByte();
        if b == [NEWLINE] {
          found := true;
        } else {
          ok := Seek(position - 2);
        }
      }
      if !ok {
        var _ := Seek(0);
      }
      LastFrom(bytes, position);
      line := ReadLine();
    }
  }

  /** No newline from position `from` on, the final byte aside. */
  predicate NoNewline(s: string, from: nat) {
    forall i :: from <= i < |s| - 1 ==> s[i] != NEWLINE
  }

  lemma {:induction false} LineEnd(s: string, n: nat)
    requires 1 <= n <= |s| && (forall i :: 0 <= i < n - 1 ==> s[i] != NEWLINE)
    requires n == |s| || s[n - 1] == NEWLINE
    ensures LineLength(s) == n
  {
    if n > 1 {
      assert s[0] != NEWLINE;
      LineEnd(s[1..], n - 1);
    }
  }

  /** The last line begins at the file's start or behind a newline, and holds no newline
      before its own last byte. */
  lemma {:induction false} LastFrom(s: string, start: nat)
    requires start == 0 || (start < |s| && s[start - 1] == NEWLINE)
    requires NoNewline(s, start)
    ensures start < |s| ==> Last(Lines(s)) == s[start..] && LineLength(s[start..]) == |s| - start
    ensures s == [] ==> Last(Lines(s)) == []
    decreases |s|
  {
    if s != [] {
      LineEnd(s[start..], |s| - start);
      if start == 0 {
        assert s[0..] == s && Lines(s[|s|..]) == [];
      } else {
        var n := LineLength(s);
        FirstLineShort(s, start);
        LastFrom(s[n..], start - n);
        assert s[n..][start - n..] == s[start..];
      }
    }
  }

  lemma {:induction false} FirstLineShort(s: string, start: nat)
    requires 1 <= start <= |s| && s[start - 1] == NEWLINE
    ensures LineLength(s) <= start
    ensures LineLength(s) < start ==> s[LineLength(s)..][start - LineLength(s) - 1] == NEWLINE
  {
    if s[0] != NEWLINE && |s| > 1 {
      FirstLineShort(s[1..], start - 1);
    }
  }
}
