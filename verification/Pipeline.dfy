/** The send queue of a connection and the `send_end` listeners of its commands. */
module Pipeline {
  import opened Bytes
  import opened PipelineModel

  /** A command: what its start does, and the two `send_end` listeners a connection can put on it. */
  class Command {
    const id: nat
    const kind: Kind
    const response: bool
    var sending: bool
    var shiftsQueue: bool
    var sendsNext: bool

    constructor (id: nat, kind: Kind, response: bool)
      ensures this.id == id && this.kind == kind && this.response == response
      ensures !sending && !shiftsQueue && !sendsNext
    {
      this.id, this.kind, this.response := id, kind, response;
      sending, shiftsQueue, sendsNext := false, false, false;
    }

    /** Added and not started, or started without a `send_end` so far. */
    predicate Waiting()
      reads this
    {
      !sending && !shiftsQueue && sendsNext
    }

    predicate Underway()
      reads this
    {
      sending && shiftsQueue && sendsNext
    }
  }

  lemma NotQueued(ids: seq<nat>, queue: seq<Command>, c: nat)
    requires |ids| == |queue| && forall i :: 0 <= i < |ids| ==> ids[i] == queue[i].id != c
    ensures c !in ids
  {
  }

  class Connection {
    var sendQueue: seq<Command>
    var receiveQueue: seq<Command>
    var wire: seq<Mark>
    ghost var added: seq<Command>
    ghost var late: set<nat>

    constructor ()
      ensures Valid() && View() == START && added == []
    {
      sendQueue, receiveQueue, wire, added, late := [], [], [], [], {};
    }

    ghost predicate Known(c: Command)
      reads this
    {
      c.id < |added| && added[c.id] == c
    }

    /** Only the head of the queue can be sending; whoever waits will send the next one in turn. */
    ghost predicate Valid()
      reads this, added
    {
      && (forall i :: 0 <= i < |added| ==> added[i].id == i)
      && (forall i :: 0 <= i < |sendQueue| ==> Known(sendQueue[i]))
      && (forall i :: 0 <= i < |receiveQueue| ==> Known(receiveQueue[i]))
      && (forall i, j :: 0 <= i < j < |sendQueue| ==> sendQueue[i] != sendQueue[j])
      && (forall i :: 1 <= i < |sendQueue| ==> sendQueue[i].Waiting())
      && (sendQueue != [] ==> sendQueue[0].Waiting() || sendQueue[0].Underway())
      && (forall i :: 0 <= i < |added| && added[i].sending ==> sendQueue != [] && sendQueue[0] == added[i])
      && (forall c :: c in late ==> c < |added| && added[c].Waiting() && added[c] !in sendQueue)
    }

    ghost function Ids(cs: seq<Command>): (s: seq<nat>)
      ensures |s| == |cs| && forall i :: 0 <= i < |s| ==> s[i] == cs[i].id
    {
      seq(|cs|, i requires 0 <= i < |cs| => cs[i].id)
    }

    ghost function Cmds(): (s: seq<Cmd>)
      reads this
      ensures |s| == |added| && forall i :: 0 <= i < |s| ==> s[i] == Cmd(added[i].kind, added[i].response)
    {
      seq(|added|, i requires 0 <= i < |added| reads this => Cmd(added[i].kind, added[i].response))
    }

    ghost function View(): Lines
      reads this, sendQueue
    {
      Lines(Cmds(), Ids(sendQueue), if sendQueue != [] && sendQueue[0].sending then Some(sendQueue[0].id) else None,
            late, wire, Ids(receiveQueue))
    }

    lemma Names()
      requires Valid()
      ensures Named(View())
    {
    }

    lemma SendingIsQueued(c: Command)
      requires Valid() && Known(c)
      ensures c.sending ==> c.id in View().queue
    {
      if c.sending {
        assert added[c.id].sending;
        assert View().queue[0] == c.id;
      }
    }

    /** A command that is not in the queue and can be started. */
    ghost predicate Startable(c: Command)
      reads this, added
    {
      Known(c) && c.Waiting() && c !in sendQueue && c.id !in late
    }

    method SendNextCmdImmediate()
      requires Valid()
      modifies this`sendQueue, this`wire, this`late, added
      ensures Valid() && added == old(added) && receiveQueue == old(receiveQueue)
      ensures Named(old(View())) && View() == SendNext(old(View()))
      decreases |sendQueue|, 2
    {
      Names();
      if |sendQueue| != 0 {
        NextSendCmd();
      }
    }

    method NextSendCmd()
      requires Valid() && sendQueue != []
      modifies this`sendQueue, this`wire, this`late, added
      ensures Valid() && added == old(added) && receiveQueue == old(receiveQueue)
      ensures Named(old(View())) && View() == SendNext(old(View()))
      decreases |sendQueue|, 1
    {
      Names();
      HeadStreamsIff();
      var sendCmd := sendQueue[0];
      hide Valid, StartCmd;
      TakeHead();
      if sendCmd.sending {
        sendQueue := [sendCmd] + sendQueue;
        assert sendQueue == old(sendQueue);
      } else {
        StartAndQueue(sendCmd);
      }
    }

    lemma HeadStreamsIff()
      requires Valid() && sendQueue != []
      ensures View().queue != [] && View().queue[0] == sendQueue[0].id
      ensures View().streaming == if sendQueue[0].sending then Some(sendQueue[0].id) else None
    {
    }

    /** The head off the queue: it can be started unless it is sending. */
    method TakeHead()
      requires Valid() && sendQueue != []
      modifies this`sendQueue
      ensures sendQueue == old(sendQueue[1..])
      ensures var c, s := old(sendQueue[0]), old(View());
              !c.sending ==>
                && Valid() && Startable(c) && (sendQueue == [] || !sendQueue[0].sending)
                && s.queue != [] && View() == s.(queue := s.queue[1..])
    {
      ghost var before := View();
      sendQueue := sendQueue[1..];
      assert Ids(sendQueue) == before.queue[1..];
    }

    /** `start`, and back to the head of the queue when it is still sending afterwards. */
    method StartAndQueue(c: Command)
      requires Valid() && Startable(c) && (sendQueue == [] || !sendQueue[0].sending)
      modifies this`sendQueue, this`wire, this`late, added
      ensures Valid() && added == old(added) && receiveQueue == old(receiveQueue)
      ensures Named(old(View())) && View() == StartCmd(old(View()), c.id)
      decreases |sendQueue|, 5
    {
      Names();
      ghost var before := View();
      Start(c);
      if c.sending {
        sendQueue := [c] + sendQueue;
        c.shiftsQueue := true;
        assert Ids(sendQueue) == [c.id] + before.queue;
      }
    }

    /** The start of a command, up to its return. */
    method Start(c: Command)
      requires Valid() && Startable(c) && (sendQueue == [] || !sendQueue[0].sending)
      modifies this`sendQueue, this`wire, this`late, added
      ensures added == old(added) && receiveQueue == old(receiveQueue) && Named(old(View()))
      ensures c.kind == Streaming ==>
                && c.sending && !c.shiftsQueue && c.sendsNext
                && wire == old(wire) + [Begin(c.id)] && sendQueue == old(sendQueue) && late == old(late)
                && forall i :: 0 <= i < |added| && added[i] != c ==> unchanged(added[i])
      ensures c.kind != Streaming ==> Valid() && !c.sending && View() == StartCmd(old(View()), c.id)
      decreases |sendQueue|, 4
    {
      Names();
      match c.kind {
        case Sync =>
          WriteAll(c);
          EmitSendEnd(c);
        case Streaming =>
          wire := wire + [Begin(c.id)];
          c.sending := true;
        case Silent =>
          WriteAll(c);
          late := late + {c.id};
      }
    }

    /** All the bytes of a command that writes them before its start returns. */
    method WriteAll(c: Command)
      requires Valid() && Startable(c)
      modifies this`wire
      ensures Valid() && Startable(c)
      ensures View() == old(View()).(wire := old(wire) + [Begin(c.id), End(c.id)])
    {
      wire := wire + [Begin(c.id)];
      wire := wire + [End(c.id)];
      assert wire == old(wire) + [Begin(c.id), End(c.id)];
    }

    /** The listeners of `send_end` of a command that is not in the queue, once each. */
    method EmitSendEnd(c: Command)
      requires Valid() && Startable(c)
      modifies this`sendQueue, this`wire, this`late, added
      ensures Valid() && added == old(added) && receiveQueue == old(receiveQueue) && !c.sending
      ensures Named(old(View())) && View() == SendNext(old(View()))
      decreases |sendQueue|, 3
    {
      ghost var before := View();
      c.sendsNext := false;
      SendNextCmdImmediate();
      QueueShrinks(before);
      assert c.id !in before.queue by { NotQueued(before.queue, old(sendQueue), c.id); }
      SendingIsQueued(c);
    }

    /** The listener and the receive queue, before anything is sent. */
    method Enlist(cmd: Command)
      requires Valid() && cmd.id == |added| && !cmd.sending && !cmd.shiftsQueue
      modifies this`added, this`receiveQueue, cmd`sendsNext
      ensures Valid() && added == old(added) + [cmd] && Startable(cmd)
      ensures var s, c := old(View()), Cmd(cmd.kind, cmd.response);
              View() == s.(added := s.added + [c], receive := if c.response then s.receive + [cmd.id] else s.receive)
    {
      hide Valid, Startable;
      Listen(cmd);
      if cmd.response {
        Expect(cmd);
      }
    }

    method Listen(cmd: Command)
      requires Valid() && cmd.id == |added| && !cmd.sending && !cmd.shiftsQueue
      modifies this`added, cmd`sendsNext
      ensures Valid() && added == old(added) + [cmd] && Startable(cmd)
      ensures View() == old(View()).(added := old(View()).added + [Cmd(cmd.kind, cmd.response)])
    {
      ghost var before := View();
      cmd.sendsNext := true;
      added := added + [cmd];
      assert Cmds() == before.added + [Cmd(cmd.kind, cmd.response)];
    }

    method Expect(cmd: Command)
      requires Valid() && Startable(cmd)
      modifies this`receiveQueue
      ensures Valid() && Startable(cmd)
      ensures View() == old(View()).(receive := old(View()).receive + [cmd.id])
    {
      ghost var before := View();
      receiveQueue := receiveQueue + [cmd];
      assert Ids(receiveQueue) == before.receive + [cmd.id];
    }

    method PushLast(cmd: Command)
      requires Valid() && Startable(cmd) && sendQueue != []
      modifies this`sendQueue
      ensures Valid() && View() == old(View()).(queue := old(View()).queue + [cmd.id])
    {
      ghost var before := View();
      sendQueue := sendQueue + [cmd];
      assert Ids(sendQueue) == before.queue + [cmd.id];
    }

    /** A command joins: it is started when nobody is queued, and queued while it is sending. */
    method AddCommandEnablePipeline(cmd: Command)
      requires Valid() && cmd.id == |added| && !cmd.sending && !cmd.shiftsQueue
      modifies this, added, cmd
      ensures Valid() && added == old(added) + [cmd]
      ensures Named(old(View())) && View() == Add(old(View()), Cmd(cmd.kind, cmd.response))
    {
      hide StartCmd, Valid;
      Names();
      Enlist(cmd);
      if |sendQueue| == 0 {
        StartAndQueue(cmd);
      } else {
        PushLast(cmd);
      }
    }

    /** The last bytes of a stream, and the listener that takes it off the queue. */
    method LeaveQueue(c: Command)
      requires Valid() && sendQueue != [] && sendQueue[0] == c && c.sending
      modifies this`sendQueue, this`wire, c
      ensures Valid()
      ensures var s := old(View());
              View() == s.(wire := s.wire + [End(c.id)], streaming := None, queue := s.queue[1..])
    {
      ghost var before := View();
      wire := wire + [End(c.id)];
      c.sending := false;
      c.shiftsQueue := false;
      sendQueue := sendQueue[1..];
      c.sendsNext := false;
      assert Ids(sendQueue) == before.queue[1..];
    }

    /** The stream of the head command ends. */
    method EndStream(c: Command)
      requires Valid() && sendQueue != [] && sendQueue[0] == c && c.sending
      modifies this`sendQueue, this`wire, this`late, added
      ensures Valid() && added == old(added) && receiveQueue == old(receiveQueue)
      ensures Named(old(View())) && View() == StreamEnd(old(View()))
    {
      Names();
      HeadIsKnown();
      HeadStreams();
      hide Valid, SendNext;
      LeaveQueue(c);
      SendNextCmdImmediate();
    }

    lemma HeadIsKnown()
      requires Valid() && sendQueue != []
      ensures sendQueue[0] in added
    {
    }

    lemma HeadStreams()
      requires Valid() && sendQueue != [] && sendQueue[0].sending
      ensures View().streaming == Some(sendQueue[0].id) && View().queue != []
    {
    }

    /** A silent command emits `send_end` after all. */
    method LateSendEnd(c: Command)
      requires Valid() && Known(c) && c.id in late
      modifies this, added
      ensures Valid() && added == old(added) && receiveQueue == old(receiveQueue)
      ensures Named(old(View())) && View() == LateEnd(old(View()), c.id)
    {
      Names();
      ghost var before := View();
      late := late - {c.id};
      assert View() == before.(late := late);
      EmitSendEnd(c);
    }
  }
}
