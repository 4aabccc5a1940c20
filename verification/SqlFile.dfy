/** Importing a file of SQL statements through a buffer that is read into, compacted and grown. */
module SqlFile {
  import opened Bytes
  import opened SqlScan
  import SqlPieces

  class BufState {
    var buffer: array<byte>
    var offset: nat
    var end: nat

    ghost predicate Valid()
      reads this
    {
      offset <= end <= buffer.Length
    }

    /** The bytes read and not yet given out in a statement. */
    ghost function Unparsed(): seq<byte>
      requires Valid()
      reads this, buffer
    {
      buffer[offset..end]
    }

    constructor ()
      ensures Valid() && fresh(buffer) && buffer.Length == 16384 && end == 0 && Unparsed() == []
    {
      buffer := new byte[16384];
      offset, end := 0, 0;
    }

    /** `parseQueries`: the finished statements in the buffer; `offset` moves behind them. */
    method ParseQueries() returns (queries: seq<seq<byte>>)
      requires Valid()
      modifies this`offset
      ensures Valid() && Pieces(queries, Unparsed()) == Split(old(Unparsed()))
    {
      hide SqlScan.Next, Splits, Switch;
      ghost var goal := Split(Unparsed());
      queries := [];
      var s := START;
      var i := offset;
      assert buffer[i..end] == Unparsed() && buffer[offset..i] == [];
      while i < end
        invariant offset <= i <= end <= buffer.Length
        invariant Join(Pieces(queries, []), SplitFrom(s, buffer[offset..i], buffer[i..end])) == goal
      {
        var currByte := buffer[i];
        assert buffer[i..end][0] == currByte && buffer[i..end][1..] == buffer[i + 1..end];
        assert buffer[offset..i + 1] == buffer[offset..i] + [currByte];
        if Splits(s, currByte) {
          PutPiece(queries, buffer[offset..i], SplitFrom(SqlScan.Next(s, currByte), [], buffer[i + 1..end]));
          queries := queries + [buffer[offset..i]];
          offset := i + 1;
          assert buffer[offset..i + 1] == [];
        }
        s := SqlScan.Next(s, currByte);
        i := i + 1;
      }
      assert buffer[i..end] == [];
      assert queries + [] == queries;
    }

    /** `buffer.copy(buffer, 0, from, from + n)` */
    method CopyDown(from: nat, n: nat)
      requires from + n <= buffer.Length
      modifies buffer
      ensures buffer[0..n] == old(buffer[from..from + n])
    {
      forall i | 0 <= i < n {
        buffer[i] := buffer[from + i];
      }
      forall i | 0 <= i < n
        ensures buffer[0..n][i] == old(buffer[from..from + n])[i]
      {
        assert buffer[i] == old(buffer[from + i]);
      }
    }

    /** Between two reads: give back the room of what has been parsed, or make more. */
    method MakeRoom()
      requires Valid() && 16384 <= buffer.Length
      modifies this, buffer
      ensures Valid() && Unparsed() == old(Unparsed()) && (buffer == old(buffer) || fresh(buffer))
      ensures buffer.Length - end >= 8192 && 16384 <= buffer.Length
    {
      if offset == end {
        offset := 0;
        end := 0;
      } else if offset > 8192 {
        CopyDown(offset, end - offset);
        end := end - offset;
        offset := 0;
      } else if buffer.Length - end < 8192 {
        Double();
      }
    }

    /** A buffer of twice the length, with the unparsed bytes at its start. */
    method Double()
      requires Valid()
      modifies this
      ensures Valid() && Unparsed() == old(Unparsed()) && fresh(buffer)
      ensures buffer.Length == 2 * old(buffer.Length) && end == old(end) - old(offset)
    {
      var n := end - offset;
      ghost var kept := buffer[offset..end];
      var tmpBuf := new byte[buffer.Length * 2];
      forall i | 0 <= i < n {
        tmpBuf[i] := buffer[offset + i];
      }
      forall i | 0 <= i < n
        ensures tmpBuf[..n][i] == kept[i]
      {
      }
      assert tmpBuf[..n] == kept;
      buffer := tmpBuf;
      end := n;
      offset := 0;
      assert Unparsed() == tmpBuf[..n];
    }
  }

  lemma PutPiece(queries: seq<seq<byte>>, q: seq<byte>, p: Pieces)
    ensures Join(Pieces(queries, []), Put(q, p)) == Join(Pieces(queries + [q], []), p)
  {
    assert queries + ([q] + p.queries) == queries + [q] + p.queries;
  }

  /** An open file; `size` says how much the next read would like to return. */
  class File {
    const bytes: seq<byte>
    var pos: nat

    ghost predicate Valid()
      reads this
    {
      pos <= |bytes|
    }

    constructor (bytes: seq<byte>)
      ensures Valid() && this.bytes == bytes && pos == 0
    {
      this.bytes := bytes;
      pos := 0;
    }

    /** `fd.read(buffer, end, length - end)`: some bytes, but none only at the end of the file or
        when no room was given. */
    method Read(buf: BufState, size: nat) returns (bytesRead: nat)
      requires Valid() && buf.Valid()
      modifies this, buf.buffer
      ensures Valid() && pos == old(pos) + bytesRead
      ensures bytesRead <= buf.buffer.Length - buf.end
      ensures bytesRead == 0 <==> old(pos) == |bytes| || buf.end == buf.buffer.Length
      ensures buf.buffer[..buf.end] == old(buf.buffer[..buf.end])
      ensures buf.buffer[buf.end..buf.end + bytesRead] == bytes[old(pos)..pos]
    {
      var most := Min(buf.buffer.Length - buf.end, |bytes| - pos);
      bytesRead := if most == 0 then 0 else Max(1, Min(size, most));
      var from := pos;
      forall i | 0 <= i < bytesRead {
        buf.buffer[buf.end + i] := bytes[from + i];
      }
      pos := pos + bytesRead;
    }
  }

  /** One turn of the import loop: a read, the statements it finishes, and room for the next read.
      A read returns no byte only at the end of the file. */
  method ReadOnce(fd: File, buf: BufState, size: nat) returns (eof: bool, queries: seq<seq<byte>>)
    requires fd.Valid() && buf.Valid() && buf.buffer.Length - buf.end >= 8192 && 16384 <= buf.buffer.Length
    modifies fd, buf, buf.buffer
    ensures fd.Valid() && buf.Valid() && (buf.buffer == old(buf.buffer) || fresh(buf.buffer))
    ensures buf.buffer.Length - buf.end >= 8192 && 16384 <= buf.buffer.Length
    ensures eof <==> old(fd.pos) == |fd.bytes|
    ensures eof ==> queries == [] && buf.Unparsed() == old(buf.Unparsed()) && fd.pos == old(fd.pos)
    ensures !eof ==> old(fd.pos) < fd.pos
    ensures Split(old(buf.Unparsed()) + fd.bytes[old(fd.pos)..])
            == Join(Pieces(queries, []), Split(buf.Unparsed() + fd.bytes[fd.pos..]))
    ensures !eof ==> Whole(START, buf.Unparsed())
  {
    hide Split, Whole;
    ghost var u, from := buf.Unparsed(), fd.pos;
    var bytesRead := fd.Read(buf, size);
    SubSlice(buf.buffer[..], buf.offset, buf.end, buf.end + bytesRead);
    assert buf.buffer[buf.offset..buf.end] == u by { KeptBytes(buf.buffer[..], old(buf.buffer[..]), buf.offset, buf.end); }
    if bytesRead == 0 {
      JoinNothing(Split(u + fd.bytes[fd.pos..]));
      return true, [];
    }
    ghost var got, rest := fd.bytes[from..fd.pos], fd.bytes[fd.pos..];
    buf.end := buf.end + bytesRead;
    assert buf.Unparsed() == u + got && fd.bytes[from..] == got + rest;
    queries := buf.ParseQueries();
    OneRead(u, got, rest, queries, buf.Unparsed());
    buf.MakeRoom();
    eof := false;
  }

  lemma KeptBytes(a: seq<byte>, b: seq<byte>, i: nat, j: nat)
    requires i <= j <= |a| == |b| && a[..j] == b[..j]
    ensures a[i..j] == b[i..j]
  {
    assert a[i..j] == a[..j][i..] && b[i..j] == b[..j][i..];
  }

  lemma JoinNothing(p: Pieces)
    ensures Join(Pieces([], []), p) == p
  {
    assert [] + p.queries == p.queries;
  }

  /** `importFile`: the statements sent for a file, for whatever sizes its reads return, are those of one
      scan, and of a file without tight comments those that end at its semicolon tokens; the text after
      the last semicolon is not sent. */
  method ImportFile(bytes: seq<byte>, sizes: nat -> nat) returns (sent: seq<seq<byte>>)
    ensures sent == Split(bytes).queries
    ensures SqlPieces.Loose(bytes, 0) ==> sent == SqlPieces.Reference(bytes).queries
  {
    hide Split, Whole, SqlPieces.Loose, SqlPieces.Reference;
    SqlPieces.StatementsExactly(bytes);
    var fd := new File(bytes);
    var buf := new BufState();
    sent := [];
    var readNo := 0;
    JoinNothing(Split(bytes));
    NothingWhole();
    assert bytes[0..] == bytes && [] + bytes == bytes;
    while true
      invariant fresh(fd) && fresh(buf) && fresh(buf.buffer) && fd.bytes == bytes
      invariant fd.Valid() && buf.Valid() && buf.buffer.Length - buf.end >= 8192 && 16384 <= buf.buffer.Length
      invariant Join(Pieces(sent, []), Split(buf.Unparsed() + bytes[fd.pos..])) == Split(bytes)
      invariant Whole(START, buf.Unparsed())
      decreases |bytes| - fd.pos
    {
      var eof, queries := ReadOnce(fd, buf, sizes(readNo));
      readNo := readNo + 1;
      if eof {
        AtEnd(sent, buf.Unparsed(), bytes);
        break;
      }
      JoinMore(sent, queries, Split(buf.Unparsed() + bytes[fd.pos..]));
      sent := sent + queries;
    }
  }

  lemma JoinMore(sent: seq<seq<byte>>, queries: seq<seq<byte>>, p: Pieces)
    ensures Join(Pieces(sent, []), Join(Pieces(queries, []), p)) == Join(Pieces(sent + queries, []), p)
  {
    assert sent + (queries + p.queries) == sent + queries + p.queries;
  }

  lemma NothingWhole()
    ensures Whole(START, [])
  {
  }

  /** The statements of one read come first, and the tail waits for the next. */
  lemma OneRead(u: seq<byte>, got: seq<byte>, rest: seq<byte>, queries: seq<seq<byte>>, tail: seq<byte>)
    requires Pieces(queries, tail) == Split(u + got)
    ensures Split(u + (got + rest)) == Join(Pieces(queries, []), Split(tail + rest))
    ensures Whole(START, tail)
  {
    hide Split;
    SplitAgain(u + got, rest);
    assert u + got + rest == u + (got + rest);
    TailWhole(u + got);
  }

  lemma TailWhole(text: seq<byte>)
    ensures Whole(START, Split(text).tail)
  {
    SplitIsFinest(START, [], text);
  }

  lemma AtEnd(sent: seq<seq<byte>>, u: seq<byte>, bytes: seq<byte>)
    requires Whole(START, u)
    requires Join(Pieces(sent, []), Split(u + bytes[|bytes|..])) == Split(bytes)
    ensures sent == Split(bytes).queries
  {
    WholeSplit(START, [], u, []);
    assert u + bytes[|bytes|..] == u + [];
    assert sent + [] == sent;
  }
}
