/** The types under which the rows of a batch are sent: which rows the program checks against the
    types their command announces, and what a server can make of the others. */
module BulkTypes {
  import opened Bytes
  import opened Framing
  import opened OutputModel
  import opened BinaryParams
  import opened BinaryReader
  import opened BulkModel
  import opened BulkProofs

  predicate AllAnnounced(c: Command) {
    forall r :: r in c.rows ==> RowAnnounced(c.types, r)
  }

  /** Every row directly behind one that was cut off, the only rows that are not compared with the
      types of their command, agrees with them, unless it is refused. `checked` says whether the next
      row has been compared. */
  predicate FollowersAgree(cfg: Config, c: Command, rows: seq<Row>, checked: bool)
    requires RowsOk(cfg, c.rows) && RowsOk(cfg, rows) && |c.types| == cfg.paramCount
    decreases |rows|
  {
    rows == []
    || if c.rows != [] && Overflows(cfg, c, rows[0]) then
         || (Limited(cfg) && |RowBytes(rows[0], cfg.paramCount)| >= cfg.maxAllowed.value)
         || ((checked || RowAnnounced(c.types, rows[0]))
             && FollowersAgree(cfg, Command(c.types, [rows[0]]), rows[1..], false))
       else
         var c1 := c.(rows := c.rows + [rows[0]]);
         (checked || RowAnnounced(c.types, rows[0]))
         && if rows[1..] != [] && !SameHeader(c.types, rows[1]) then
              FollowersAgree(cfg, Command(HeaderTypes(rows[1], cfg.paramCount), []), rows[1..], true)
            else FollowersAgree(cfg, c1, rows[1..], true)
  }

  predicate CutAnnounced(cut: Cut) {
    forall d :: d in cut.commands ==> AllAnnounced(d)
  }

  /** The first command keeps its types and the rows it has. */
  lemma {:induction false} FirstKeeps(cfg: Config, c: Command, rows: seq<Row>)
    requires RowsOk(cfg, c.rows) && RowsOk(cfg, rows) && |c.types| == cfg.paramCount
    ensures var cut := CutRows(cfg, c, rows);
            cut.commands != [] && cut.commands[0].types == c.types && c.rows <= cut.commands[0].rows
    decreases |rows|
  {
    hide Overflows, SameHeader, RowBytes, HeaderTypes;
    if rows != [] {
      FirstKeeps(cfg, c.(rows := c.rows + [rows[0]]), rows[1..]);
    }
  }

  lemma Unannounced(cfg: Config, c: Command, rows: seq<Row>, row: Row)
    requires RowsOk(cfg, c.rows) && RowsOk(cfg, rows) && |c.types| == cfg.paramCount
    requires row in c.rows && !RowAnnounced(c.types, row)
    ensures !CutAnnounced(CutRows(cfg, c, rows))
  {
    hide CutRows, RowAnnounced;
    FirstKeeps(cfg, c, rows);
    var d := CutRows(cfg, c, rows).commands[0];
    assert row in d.rows && d in CutRows(cfg, c, rows).commands;
  }

  lemma PutAnnounced(c: Command, cut: Cut)
    ensures CutAnnounced(Put(c, cut)) <==> AllAnnounced(c) && CutAnnounced(cut)
  {
    hide AllAnnounced;
    assert c in Put(c, cut).commands;
    assert forall d :: d in cut.commands ==> d in Put(c, cut).commands;
  }

  /** Every row of every command agrees with the types its command announces exactly when the rows
      behind cut-off ones do. */
  lemma {:induction false} AnnouncedExactly(cfg: Config, c: Command, rows: seq<Row>, checked: bool)
    requires RowsOk(cfg, c.rows) && RowsOk(cfg, rows) && |c.types| == cfg.paramCount
    requires AllAnnounced(c) && (checked && rows != [] ==> RowAnnounced(c.types, rows[0]))
    ensures CutAnnounced(CutRows(cfg, c, rows)) <==> FollowersAgree(cfg, c, rows, checked)
    decreases |rows|
  {
    hide Overflows, SameHeader, RowBytes, HeaderTypes, RowAnnounced, CutAnnounced;
    if rows == [] || (c.rows != [] && Overflows(cfg, c, rows[0]) && Limited(cfg)
                      && |RowBytes(rows[0], cfg.paramCount)| >= cfg.maxAllowed.value) {
      OneAnnounced(cfg, c, rows);
    } else if c.rows != [] && Overflows(cfg, c, rows[0]) {
      CutOffAnnounced(cfg, c, rows, checked);
    } else {
      JoinedAnnounced(cfg, c, rows, checked);
    }
  }

  lemma OneAnnounced(cfg: Config, c: Command, rows: seq<Row>)
    requires RowsOk(cfg, c.rows) && RowsOk(cfg, rows) && |c.types| == cfg.paramCount && AllAnnounced(c)
    requires rows == [] || (c.rows != [] && Overflows(cfg, c, rows[0]) && Limited(cfg)
                            && |RowBytes(rows[0], cfg.paramCount)| >= cfg.maxAllowed.value)
    ensures CutAnnounced(CutRows(cfg, c, rows))
  {
    hide Overflows, RowBytes, AllAnnounced;
  }

  lemma CutOffAnnounced(cfg: Config, c: Command, rows: seq<Row>, checked: bool)
    requires RowsOk(cfg, c.rows) && RowsOk(cfg, rows) && |c.types| == cfg.paramCount && rows != []
    requires AllAnnounced(c) && (checked ==> RowAnnounced(c.types, rows[0]))
    requires c.rows != [] && Overflows(cfg, c, rows[0])
    requires !(Limited(cfg) && |RowBytes(rows[0], cfg.paramCount)| >= cfg.maxAllowed.value)
    ensures CutAnnounced(CutRows(cfg, c, rows)) <==> FollowersAgree(cfg, c, rows, checked)
    decreases |rows|, 0
  {
    hide Overflows, RowBytes, RowAnnounced, CutAnnounced;
    var c2 := Command(c.types, [rows[0]]);
    PutAnnounced(c, CutRows(cfg, c2, rows[1..]));
    if RowAnnounced(c.types, rows[0]) {
      AnnouncedExactly(cfg, c2, rows[1..], false);
    } else {
      Unannounced(cfg, c2, rows[1..], rows[0]);
    }
  }

  lemma JoinedAnnounced(cfg: Config, c: Command, rows: seq<Row>, checked: bool)
    requires RowsOk(cfg, c.rows) && RowsOk(cfg, rows) && |c.types| == cfg.paramCount && rows != []
    requires AllAnnounced(c) && (checked ==> RowAnnounced(c.types, rows[0]))
    requires c.rows == [] || !Overflows(cfg, c, rows[0])
    ensures CutAnnounced(CutRows(cfg, c, rows)) <==> FollowersAgree(cfg, c, rows, checked)
    decreases |rows|, 0
  {
    hide Overflows, RowBytes, RowAnnounced, CutAnnounced, SameHeader, HeaderTypes;
    var c1 := c.(rows := c.rows + [rows[0]]);
    if rows[1..] != [] {
      NextChecked(cfg, c.types, rows[1]);
    }
    if rows[1..] != [] && !SameHeader(c.types, rows[1]) {
      var c2 := Command(HeaderTypes(rows[1], cfg.paramCount), []);
      PutAnnounced(c1, CutRows(cfg, c2, rows[1..]));
      AnnouncedExactly(cfg, c2, rows[1..], true);
      assert AllAnnounced(c1) <==> RowAnnounced(c.types, rows[0]);
    } else if RowAnnounced(c.types, rows[0]) {
      AnnouncedExactly(cfg, c1, rows[1..], true);
    } else {
      Unannounced(cfg, c1, rows[1..], rows[0]);
    }
  }

  lemma NextChecked(cfg: Config, types: seq<nat>, row: Row)
    requires |types| == cfg.paramCount <= |row|
    ensures RowAnnounced(HeaderTypes(row, cfg.paramCount), row)
    ensures SameHeader(types, row) ==> RowAnnounced(types, row)
  {
    hide SameType, HeaderType;
  }

  // ---------- reading the commands ----------

  /** What a server takes from a command: the statement, whether it is to give a result for each row,
      and rows of values. */
  datatype BulkCommand = BulkCommand(stmtId: nat, unitResults: bool, rows: seq<seq<Stored>>)

  /** The types announced for `n` parameters. */
  function ReadTypes(n: nat, s: seq<byte>): Option<(seq<nat>, seq<byte>)> {
    if n == 0 then Some(([], s))
    else if |s| < 2 then None
    else
      match ReadTypes(n - 1, s[2..])
      case None => None
      case Some((types, rest)) => Some(([FromLE(s[..2])] + types, rest))
  }

  /** Rows to the end of the command. */
  function ReadRows(types: seq<nat>, s: seq<byte>): Option<seq<seq<Stored>>>
    decreases |s|
  {
    if s == [] then Some([])
    else
      match ReadRow(types, s)
      case None => None
      case Some((vs, rest)) =>
        if |rest| >= |s| then None
        else match ReadRows(types, rest) case None => None case Some(more) => Some([vs] + more)
  }

  /** COM_STMT_BULK_EXECUTE for a statement of `n` parameters: code, statement, flags, of which bit 7
      says that the types follow and bit 6 asks for unit results, and rows. */
  function ReadCommand(n: nat, s: seq<byte>): Option<BulkCommand> {
    if |s| < 7 || s[0] != 0xfa || FromLE(s[5..7]) / 128 % 2 == 0 then None
    else
      match ReadTypes(n, s[7..])
      case None => None
      case Some((types, rest)) =>
        match ReadRows(types, rest)
        case None => None
        case Some(rows) => Some(BulkCommand(FromLE(s[1..5]), FromLE(s[5..7]) / 64 % 2 == 1, rows))
  }

  /** The rows read are the rows sent, value for value. */
  predicate AllStand(n: nat, read: seq<seq<Stored>>, rows: seq<Row>) {
    |read| == |rows| && forall i :: 0 <= i < |rows| ==> |read[i]| == n && RowStands(read[i], rows[i])
  }

  lemma {:induction false} RowsBytesCons(rows: seq<Row>, n: nat)
    requires rows != [] && forall r :: r in rows ==> n <= |r|
    ensures RowsBytes(rows, n) == RowBytes(rows[0], n) + RowsBytes(rows[1..], n)
    decreases |rows|
  {
    hide RowBytes, RowsBytes;
    var k := |rows| - 1;
    RowsBytesSnoc(rows, n);
    if k > 0 {
      var more := rows[1..];
      RowsBytesCons(rows[..k], n);
      RowsBytesSnoc(more, n);
      assert rows[..k][1..] == more[..k - 1] && more[k - 1] == rows[k] && rows[..k][0] == rows[0];
    } else {
      assert rows[..0] == rows[1..] == [];
    }
  }

  lemma RowsBytesSnoc(rows: seq<Row>, n: nat)
    requires rows != [] && forall r :: r in rows ==> n <= |r|
    ensures RowsBytes([], n) == []
    ensures RowsBytes(rows, n) == RowsBytes(rows[..|rows| - 1], n) + RowBytes(rows[|rows| - 1], n)
  {
    hide RowBytes;
  }

  lemma {:induction false} RowsAreRead(types: seq<nat>, rows: seq<Row>)
    requires types != []
    requires forall r :: r in rows ==> |types| <= |r| && RowAnnounced(types, r) && RowSized(r)
    ensures var read := ReadRows(types, RowsBytes(rows, |types|));
            read.Some? && AllStand(|types|, read.value, rows)
    decreases |rows|
  {
    hide RowBytes, RowsBytes, ReadRow, ReadRows, RowSized, RowAnnounced, RowStands, AllStand;
    if rows == [] {
      NoRowsRead(types);
    } else {
      var first, rest := RowBytes(rows[0], |types|), RowsBytes(rows[1..], |types|);
      assert rows[0] in rows && forall r :: r in rows[1..] ==> r in rows;
      RowsBytesCons(rows, |types|);
      CheckedRowIsRead(types, rows[0], rest);
      RowFirstByte(rows[0], |types|);
      RowsAreRead(types, rows[1..]);
      RowThenRows(types, first, rest);
      OneMoreStands(|types|, ReadRow(types, first + rest).value.0, ReadRows(types, rest).value, rows);
    }
  }

  lemma NoRowsRead(types: seq<nat>)
    ensures ReadRows(types, RowsBytes([], |types|)) == Some([]) && AllStand(|types|, [], [])
  {
  }

  lemma RowThenRows(types: seq<nat>, first: seq<byte>, rest: seq<byte>)
    requires first != [] && ReadRow(types, first + rest).Some? && ReadRows(types, rest).Some?
    requires ReadRow(types, first + rest).value.1 == rest
    ensures ReadRows(types, first + rest)
            == Some([ReadRow(types, first + rest).value.0] + ReadRows(types, rest).value)
  {
    hide ReadRow;
  }

  lemma OneMoreStands(n: nat, vs: seq<Stored>, more: seq<seq<Stored>>, rows: seq<Row>)
    requires rows != [] && |vs| == n && RowStands(vs, rows[0]) && AllStand(n, more, rows[1..])
    ensures AllStand(n, [vs] + more, rows)
  {
    hide RowStands;
  }

  lemma {:induction false} TypesRead(types: seq<nat>, tail: seq<byte>)
    requires forall t :: t in types ==> t < 65536
    ensures ReadTypes(|types|, Flatten(TypeOps(types)) + tail) == Some((types, tail))
    decreases |types|
  {
    hide LE, FromLE, Pow256;
    if types == [] {
      assert [] + tail == tail;
    } else {
      TypeOpsCons(types);
      assert types[0] in types && forall t :: t in types[1..] ==> t in types;
      var first, rest := LE(types[0], 2), Flatten(TypeOps(types[1..])) + tail;
      var s := Flatten(TypeOps(types)) + tail;
      assert s == first + rest && s[..2] == first && s[2..] == rest;
      Pow256Values();
      LERoundTrip(types[0], 2);
      TypesRead(types[1..], tail);
      assert [types[0]] + types[1..] == types;
    }
  }

  lemma {:induction false} TypeOpsCons(types: seq<nat>)
    requires types != []
    ensures Flatten(TypeOps(types)) == LE(types[0], 2) + Flatten(TypeOps(types[1..]))
    decreases |types|
  {
    hide LE;
    var k := |types| - 1;
    FlattenSnoc(TypeOps(types[..k]), LE(types[k], 2));
    if k > 0 {
      TypeOpsCons(types[..k]);
      FlattenSnoc(TypeOps(types[1..][..k - 1]), LE(types[k], 2));
      assert types[..k][1..] == types[1..][..k - 1] && types[1..][k - 1] == types[k];
    }
  }

  /** A server gets the statement and, value for value, the rows of the command. */
  predicate IsRead(cfg: Config, c: Command)
    requires RowsOk(cfg, c.rows)
  {
    var read := ReadCommand(cfg.paramCount, CommandBytes(cfg, c));
    && read.Some? && read.value.stmtId == cfg.stmtId % 0x1_0000_0000 && read.value.unitResults == cfg.unitResults
    && AllStand(cfg.paramCount, read.value.rows, c.rows)
  }

  predicate TypesOk(cfg: Config, types: seq<nat>) {
    |types| == cfg.paramCount && forall t :: t in types ==> t < 65536
  }

  lemma CommandIsRead(cfg: Config, c: Command)
    requires RowsOk(cfg, c.rows) && TypesOk(cfg, c.types) && cfg.paramCount > 0
    requires AllAnnounced(c) && forall r :: r in c.rows ==> RowSized(r)
    ensures IsRead(cfg, c)
  {
    hide ReadRows, ReadTypes, RowsBytes, RowSized, RowAnnounced, AllAnnounced, TypeOps, CommandBytes;
    hide LE, FromLE, Pow256;
    assert c.types != [] && forall r :: r in c.rows ==> RowAnnounced(c.types, r) by { AnnouncedRows(c); }
    RowsAreRead(c.types, c.rows);
    TypesRead(c.types, RowsBytes(c.rows, cfg.paramCount));
    CommandParts(cfg, c);
    Pow256Values();
    LEIsResidue(cfg.stmtId, 4);
    LEIsResidue(Flags(cfg), 2);
  }

  lemma AnnouncedRows(c: Command)
    requires AllAnnounced(c)
    ensures forall r :: r in c.rows ==> RowAnnounced(c.types, r)
  {
    hide RowAnnounced;
  }

  lemma CommandParts(cfg: Config, c: Command)
    requires RowsOk(cfg, c.rows)
    ensures var s := CommandBytes(cfg, c);
            && |s| >= 7 && s[0] == 0xfa && s[1..5] == LE(cfg.stmtId, 4) && s[5..7] == LE(Flags(cfg), 2)
            && s[7..] == Flatten(TypeOps(c.types)) + RowsBytes(c.rows, cfg.paramCount)
  {
    hide RowsBytes, TypeOps, LE, HeaderBytes;
    HeaderStarts(cfg, c.types);
    var id, flags := LE(cfg.stmtId, 4), LE(Flags(cfg), 2);
    var rest := Flatten(TypeOps(c.types)) + RowsBytes(c.rows, cfg.paramCount);
    assert CommandBytes(cfg, c) == [0xfa] + id + flags + rest;
  }

  lemma HeaderStarts(cfg: Config, types: seq<nat>)
    ensures HeaderBytes(cfg, types) == [0xfa] + LE(cfg.stmtId, 4) + LE(Flags(cfg), 2) + Flatten(TypeOps(types))
  {
    hide LE, TypeOps;
    var first := [[0xfa], LE(cfg.stmtId, 4), LE(Flags(cfg), 2)];
    FlattenAppend(first, TypeOps(types));
    assert first[1..] == [LE(cfg.stmtId, 4), LE(Flags(cfg), 2)] && first[1..][1..] == [LE(Flags(cfg), 2)];
    assert Flatten([LE(Flags(cfg), 2)]) == LE(Flags(cfg), 2);
    assert Flatten(first[1..]) == LE(cfg.stmtId, 4) + LE(Flags(cfg), 2);
  }

  /** For a whole batch: its commands announce the types of all their rows exactly when the rows
      behind cut-off ones agree, and then a server gets every value of every command back. */
  lemma BatchIsRead(cfg: Config, rows: seq<Row>)
    requires RowsOk(cfg, rows) && rows != []
    ensures var c := FirstCommand(cfg, rows);
            CutAnnounced(CutRows(cfg, c, rows)) <==> FollowersAgree(cfg, c, rows, true)
    ensures var c := FirstCommand(cfg, rows);
            cfg.paramCount > 0 && FollowersAgree(cfg, c, rows, true) && (forall r :: r in rows ==> RowSized(r)) ==>
              forall d :: d in CutRows(cfg, c, rows).commands ==> IsRead(cfg, d)
  {
    hide CutRows, FollowersAgree, HeaderTypes, IsRead, RowSized, RowAnnounced, TypesOk;
    var c := FirstCommand(cfg, rows);
    var cut := CutRows(cfg, c, rows);
    NextChecked(cfg, c.types, rows[0]);
    KnownTypes(cfg, rows[0]);
    AnnouncedExactly(cfg, c, rows, true);
    CutKeepsRows(cfg, c, rows);
    assert [] + rows == rows;
    if CutAnnounced(cut) && cfg.paramCount > 0 && forall r :: r in rows ==> RowSized(r) {
      forall d | d in cut.commands
        ensures IsRead(cfg, d)
      {
        RowsOfCommand(cut.commands, d);
        TypesOf(cfg, c, rows, d);
        CommandIsRead(cfg, d);
      }
    }
  }

  lemma {:induction false} RowsOfCommand(cs: seq<Command>, d: Command)
    requires d in cs
    ensures forall r :: r in d.rows ==> r in Rows(cs)
  {
    if cs[0] != d {
      RowsOfCommand(cs[1..], d);
    }
  }

  lemma KnownTypes(cfg: Config, row: Row)
    requires cfg.paramCount <= |row|
    ensures TypesOk(cfg, HeaderTypes(row, cfg.paramCount))
  {
  }

  lemma {:induction false} TypesOf(cfg: Config, c: Command, rows: seq<Row>, d: Command)
    requires RowsOk(cfg, c.rows) && RowsOk(cfg, rows) && TypesOk(cfg, c.types)
    requires d in CutRows(cfg, c, rows).commands
    ensures TypesOk(cfg, d.types)
    decreases |rows|
  {
    hide Overflows, SameHeader, RowBytes, HeaderTypes;
    if d != c && rows != [] {
      var c1 := c.(rows := c.rows + [rows[0]]);
      if c.rows != [] && Overflows(cfg, c, rows[0]) {
        TypesOf(cfg, Command(c.types, [rows[0]]), rows[1..], d);
      } else if rows[1..] != [] && !SameHeader(c.types, rows[1]) {
        if d != c1 {
          KnownTypes(cfg, rows[1]);
          TypesOf(cfg, Command(HeaderTypes(rows[1], cfg.paramCount), []), rows[1..], d);
        }
      } else {
        TypesOf(cfg, c1, rows[1..], d);
      }
    }
  }

  // ---------- from the batch to the server ----------

  /** The rows in the commands that a server is sent, one after the other. */
  function ReadAll(n: nat, ms: seq<Message>): Option<seq<seq<Stored>>> {
    if ms == [] then Some([])
    else
      match (ReadCommand(n, ms[0].payload), ReadAll(n, ms[1..]))
      case (Some(c), Some(more)) => Some(c.rows + more)
      case _ => None
  }

  lemma {:induction false} AllRead(cfg: Config, cs: seq<Command>)
    requires forall c :: c in cs ==> RowsOk(cfg, c.rows) && IsRead(cfg, c)
    ensures var read := ReadAll(cfg.paramCount, ReadBack(Bodies(cfg, cs)));
            read.Some? && AllStand(cfg.paramCount, read.value, Rows(cs))
  {
    hide CommandBytes, ReadAll, AllStand, IsRead, Bodies, ReadBack;
    if cs == [] {
      NothingRead(cfg);
    } else {
      assert cs[0] in cs && forall c :: c in cs[1..] ==> c in cs;
      AllRead(cfg, cs[1..]);
      OneMoreRead(cfg, cs);
    }
  }

  lemma NothingRead(cfg: Config)
    ensures ReadAll(cfg.paramCount, ReadBack(Bodies(cfg, []))) == Some([]) && AllStand(cfg.paramCount, [], Rows([]))
  {
  }

  lemma OneMoreRead(cfg: Config, cs: seq<Command>)
    requires cs != [] && forall c :: c in cs ==> RowsOk(cfg, c.rows)
    requires IsRead(cfg, cs[0])
    requires var rest := ReadAll(cfg.paramCount, ReadBack(Bodies(cfg, cs[1..])));
             rest.Some? && AllStand(cfg.paramCount, rest.value, Rows(cs[1..]))
    ensures var read := ReadAll(cfg.paramCount, ReadBack(Bodies(cfg, cs)));
            read.Some? && AllStand(cfg.paramCount, read.value, Rows(cs))
  {
    hide CommandBytes, ReadCommand, RowStands, AllStand;
    var bodies, n := Bodies(cfg, cs), cfg.paramCount;
    assert bodies[0] == CommandBytes(cfg, cs[0]) && bodies[1..] == Bodies(cfg, cs[1..]);
    assert ReadBack(bodies)[0].payload == bodies[0] && ReadBack(bodies)[1..] == ReadBack(bodies[1..]);
    var more := ReadAll(n, ReadBack(bodies[1..])).value;
    StandTogether(n, ReadCommand(n, bodies[0]).value.rows, more, cs[0].rows, Rows(cs[1..]));
  }

  lemma StandTogether(n: nat, a: seq<seq<Stored>>, b: seq<seq<Stored>>, p: seq<Row>, q: seq<Row>)
    requires AllStand(n, a, p) && AllStand(n, b, q)
    ensures AllStand(n, a + b, p + q)
  {
    hide RowStands;
  }

  /** A safe batch whose followers agree arrives: a server that reads frames, commands, types and values
      off the wire gets exactly the values of the rows, in order, nulls included; of a batch that is
      refused, those in front of the refused row. */
  lemma BatchArrives(cfg: Config, o: Out, rows: seq<Row>)
    requires Between(o, None) && RowsOk(cfg, rows) && rows != [] && cfg.paramCount > 0
    requires Safe(cfg, FirstCommand(cfg, rows), rows, Room(o.cap))
    requires FollowersAgree(cfg, FirstCommand(cfg, rows), rows, true)
    requires forall r :: r in rows ==> RowSized(r)
    ensures var out := Run(cfg, o, rows);
            && o.wire <= out.o.wire
            && var scan := ScanBytes(None, out.o.wire[|o.wire|..]);
            var read := ReadAll(cfg.paramCount, scan.msgs);
            && scan.open.None? && scan.rest == [] && |scan.msgs| == out.packets
            && read.Some? && |read.value| <= |rows| && (out.Done? <==> |read.value| == |rows|)
            && AllStand(cfg.paramCount, read.value, rows[..|read.value|])
  {
    hide RunCommand, Safe, CutRows, FollowersAgree, HeaderTypes, IsRead, Bodies, RowSized, ReadAll, ScanBytes, RowBytes;
    var c := FirstCommand(cfg, rows);
    var cs := CutRows(cfg, c, rows).commands;
    SafeBulk(cfg, o, rows);
    BatchIsRead(cfg, rows);
    CutKeepsRows(cfg, c, rows);
    assert [] + rows == rows;
    AllRead(cfg, cs);
    BodiesStart(cfg, cs);
    ScanEncodeAll(Bodies(cfg, cs));
    BodyCount(cfg, cs);
    assert (o.wire + EncodeAll(Bodies(cfg, cs)))[|o.wire|..] == EncodeAll(Bodies(cfg, cs));
  }

  lemma {:induction false} BodyCount(cfg: Config, cs: seq<Command>)
    requires forall c :: c in cs ==> RowsOk(cfg, c.rows)
    ensures |ReadBack(Bodies(cfg, cs))| == |cs|
  {
    hide CommandBytes;
    if cs != [] {
      BodyCount(cfg, cs[1..]);
      assert Bodies(cfg, cs)[1..] == Bodies(cfg, cs[1..]);
    }
  }
}
