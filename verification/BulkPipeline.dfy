/** A bulk command in the send queue of a connection. */
module BulkPipeline {
  import opened Bytes
  import opened OutputModel
  import opened BinaryParams
  import opened BulkModel
  import opened BulkProofs
  import opened BulkExamples
  import Pipe = PipelineModel

  /** A batch that is sent emits `send_end` at the end of its start; a refused one does not. */
  function BulkCmd(out: Outcome): Pipe.Cmd { Pipe.Cmd(if out.Failed? then Pipe.Silent else Pipe.Sync, true) }

  /** When a safe batch was started last, the commands behind it wait although nothing is being sent
      exactly if one of its rows is refused. */
  lemma BatchStalls(cfg: Config, o: Out, rows: seq<Row>, s: Pipe.Lines, k: nat)
    requires Between(o, None) && RowsOk(cfg, rows) && rows != []
    requires Safe(cfg, FirstCommand(cfg, rows), rows, Room(o.cap))
    requires Pipe.Ordered(s, k) && k > 0 && s.added[k - 1] == BulkCmd(Run(cfg, o, rows))
    ensures Pipe.Stalled(s) <==> k < |s.added| && !CutRows(cfg, FirstCommand(cfg, rows), rows).complete
  {
    hide RunCommand, Safe, CutRows, HeaderTypes, Pipe.Stalled, Pipe.Ordered;
    SafeBulk(cfg, o, rows);
    Pipe.StalledExactly(s, k);
  }

  /** A stream, a batch of two texts of which the second is refused, and a third command: it is not
      sent when the stream has ended. */
  lemma RefusedStalls(cfg: Config, o: Out, a: seq<byte>, b: seq<byte>)
    requires cfg.paramCount == 1 && cfg.maxAllowed == Some(20) && |a| == 5 && |b| == 30
    requires Between(o, None) && o.cap <= MAX_BUFFER_SIZE
    ensures var bulk := BulkCmd(Run(cfg, o, [[Text(a)], [Text(b)]]));
            var s := Pipe.Run([Pipe.EvAdd(Pipe.STREAM), Pipe.EvAdd(bulk), Pipe.EvAdd(Pipe.PLAIN), Pipe.EvStreamEnd]);
            Pipe.Stalled(s) && s.queue == [2]
  {
    hide RunCommand, CutRows, Pipe.Run, Pipe.Stalled;
    RefusedExample(cfg, o, a, b);
    Pipe.StalledExample();
  }
}
