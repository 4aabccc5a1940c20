/** How large the commands of a batch are, and that no command is ended early. */
module BulkLimits {
  import opened Bytes
  import opened BinaryParams
  import opened BulkModel
  import opened BulkProofs
  import opened BulkTypes

  /** What a command may hold: one full frame, or `maxAllowedPacket` if that is less. */
  function Limit(cfg: Config): nat {
    if cfg.maxAllowed.Some? && 0 < cfg.maxAllowed.value < 0xffffff then cfg.maxAllowed.value else 0xffffff
  }

  /** A command whose first row fits is within the limit with all its rows. */
  predicate Within(cfg: Config, c: Command)
    requires RowsOk(cfg, c.rows)
  {
    c.rows != [] && |CommandBytes(cfg, Command(c.types, [c.rows[0]]))| <= Limit(cfg) ==>
      |CommandBytes(cfg, c)| <= Limit(cfg)
  }

  /** The row could not have joined the command: together they pass the limit, or its types differ. */
  predicate EndsFor(cfg: Config, c: Command, row: Row)
    requires RowsOk(cfg, c.rows) && cfg.paramCount <= |row|
  {
    || InBuffer(|CommandBytes(cfg, c)|) + |RowBytes(row, cfg.paramCount)| > Limit(cfg)
    || (|c.types| <= |row| && !SameHeader(c.types, row))
  }

  lemma LimitIs(cfg: Config)
    ensures MaxPacketLength(cfg) == Limit(cfg) + 4
  {
  }

  lemma OneRowWithin(cfg: Config, types: seq<nat>, row: Row)
    requires RowsOk(cfg, [row])
    ensures Within(cfg, Command(types, [row])) && Within(cfg, Command(types, []))
  {
    hide CommandBytes;
  }

  lemma JoinWithin(cfg: Config, c: Command, row: Row)
    requires RowsOk(cfg, c.rows) && cfg.paramCount <= |row| && Within(cfg, c)
    requires c.rows == [] || !Overflows(cfg, c, row)
    ensures RowsOk(cfg, c.rows + [row]) && Within(cfg, c.(rows := c.rows + [row]))
  {
    hide RowBytes, CommandBytes, HeaderBytes;
    AddRow(cfg, c, row);
    LimitIs(cfg);
    if c.rows == [] {
      assert c.(rows := c.rows + [row]) == Command(c.types, [row]);
    } else {
      assert (c.rows + [row])[0] == c.rows[0];
    }
  }

  /** Every command of a batch is within the limit if its first row is. */
  lemma {:induction false} CommandsFit(cfg: Config, c: Command, rows: seq<Row>)
    requires RowsOk(cfg, c.rows) && RowsOk(cfg, rows) && |c.types| == cfg.paramCount && Within(cfg, c)
    ensures forall d :: d in CutRows(cfg, c, rows).commands ==> Within(cfg, d)
    decreases |rows|
  {
    hide Overflows, SameHeader, RowBytes, HeaderTypes, Within;
    if rows != [] {
      if c.rows != [] && Overflows(cfg, c, rows[0]) {
        OneRowWithin(cfg, c.types, rows[0]);
        CommandsFit(cfg, Command(c.types, [rows[0]]), rows[1..]);
      } else {
        var c1 := c.(rows := c.rows + [rows[0]]);
        JoinWithin(cfg, c, rows[0]);
        if rows[1..] != [] && !SameHeader(c.types, rows[1]) {
          OneRowWithin(cfg, HeaderTypes(rows[1], cfg.paramCount), rows[1]);
          CommandsFit(cfg, Command(HeaderTypes(rows[1], cfg.paramCount), []), rows[1..]);
        } else {
          CommandsFit(cfg, c1, rows[1..]);
        }
      }
    }
  }

  /** The command was ended for the first row of the next one. */
  predicate EndsBefore(cfg: Config, c: Command, next: Command)
    requires RowsOk(cfg, c.rows) && RowsOk(cfg, next.rows)
  {
    next.rows != [] && EndsFor(cfg, c, next.rows[0])
  }

  predicate Greedy(cfg: Config, cs: seq<Command>)
    requires forall c :: c in cs ==> RowsOk(cfg, c.rows)
  {
    forall i :: 1 <= i < |cs| ==> EndsBefore(cfg, cs[i - 1], cs[i])
  }

  /** The first command starts with the first row. */
  lemma StartsWith(cfg: Config, c: Command, rows: seq<Row>)
    requires RowsOk(cfg, c.rows) && RowsOk(cfg, rows) && |c.types| == cfg.paramCount && c.rows + rows != []
    ensures var cut := CutRows(cfg, c, rows);
            cut.commands != [] && cut.commands[0].rows != [] && cut.commands[0].rows[0] == (c.rows + rows)[0]
  {
    hide Overflows, SameHeader, RowBytes, HeaderTypes, CutRows;
    FirstKeeps(cfg, c, rows);
    CutKeepsRows(cfg, c, rows);
    var cs := CutRows(cfg, c, rows).commands;
    assert cs[0] in cs && Rows(cs)[0] == cs[0].rows[0];
  }

  lemma GreedyPut(cfg: Config, c: Command, cut: Cut, row: Row)
    requires RowsOk(cfg, c.rows) && forall d :: d in cut.commands ==> RowsOk(cfg, d.rows)
    requires Greedy(cfg, cut.commands) && cfg.paramCount <= |row| && EndsFor(cfg, c, row)
    requires cut.commands != [] && cut.commands[0].rows != [] && cut.commands[0].rows[0] == row
    ensures Greedy(cfg, Put(c, cut).commands)
  {
    hide EndsFor;
    var cs := Put(c, cut).commands;
    forall i | 1 <= i < |cs|
      ensures EndsBefore(cfg, cs[i - 1], cs[i])
    {
      assert cs[i] == cut.commands[i - 1];
      if i > 1 {
        assert cs[i - 1] == cut.commands[i - 2];
      }
    }
  }

  /** No command is ended while the next row could still have joined it. */
  lemma {:induction false} CutIsGreedy(cfg: Config, c: Command, rows: seq<Row>)
    requires RowsOk(cfg, c.rows) && RowsOk(cfg, rows) && |c.types| == cfg.paramCount && c.rows + rows != []
    ensures Greedy(cfg, CutRows(cfg, c, rows).commands)
    decreases |rows|
  {
    hide Overflows, SameHeader, RowBytes, HeaderTypes, Greedy, EndsFor;
    if rows == [] || (c.rows != [] && Overflows(cfg, c, rows[0]) && Limited(cfg)
                      && |RowBytes(rows[0], cfg.paramCount)| >= cfg.maxAllowed.value) {
      OnlyOne(cfg, c);
    } else if c.rows != [] && Overflows(cfg, c, rows[0]) {
      var c2 := Command(c.types, [rows[0]]);
      CutIsGreedy(cfg, c2, rows[1..]);
      StartsWith(cfg, c2, rows[1..]);
      OverflowEnds(cfg, c, rows[0]);
      GreedyPut(cfg, c, CutRows(cfg, c2, rows[1..]), rows[0]);
    } else {
      var c1 := c.(rows := c.rows + [rows[0]]);
      if rows[1..] != [] && !SameHeader(c.types, rows[1]) {
        var c2 := Command(HeaderTypes(rows[1], cfg.paramCount), []);
        CutIsGreedy(cfg, c2, rows[1..]);
        StartsWith(cfg, c2, rows[1..]);
        TypesEnd(cfg, c1, rows[1]);
        GreedyPut(cfg, c1, CutRows(cfg, c2, rows[1..]), rows[1]);
      } else {
        CutIsGreedy(cfg, c1, rows[1..]);
      }
    }
  }

  lemma OnlyOne(cfg: Config, c: Command)
    requires RowsOk(cfg, c.rows)
    ensures Greedy(cfg, [c])
  {
  }

  lemma OverflowEnds(cfg: Config, c: Command, row: Row)
    requires RowsOk(cfg, c.rows) && cfg.paramCount <= |row| && Overflows(cfg, c, row)
    ensures EndsFor(cfg, c, row)
  {
    hide CommandBytes, RowBytes;
    LimitIs(cfg);
  }

  lemma TypesEnd(cfg: Config, c: Command, row: Row)
    requires RowsOk(cfg, c.rows) && |c.types| == cfg.paramCount <= |row| && !SameHeader(c.types, row)
    ensures EndsFor(cfg, c, row)
  {
    hide CommandBytes, RowBytes, SameHeader;
  }
}
