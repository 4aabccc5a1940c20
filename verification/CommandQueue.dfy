/** The receive queue of a connection and the cached current command. */
module CommandQueue {
  import opened Bytes
  import opened Framing
  import opened Dispatch
  import opened Delivery

  class CommandQueue<S> {
    const step: Step<S>
    // commands in the order they were added, by identity, and the state of the unfinished ones
    var receiveQueue: seq<nat>
    var live: map<nat, S>
    // every delivery made so far
    var trace: seq<Event>
    // the cached current command
    var cmd: Option<nat>
    ghost var history: seq<Action<S>>

    ghost function View(): Disp<S>
      reads this
    {
      Disp(receiveQueue, live, trace)
    }

    /** Up to finished commands still at the head, the queue is that of the slow dispatcher, and
        exactly the same deliveries have been made. Only what was added is queued. */
    ghost predicate Valid()
      reads this
    {
      && Cached(View(), cmd) && Canon(View()) == Replay(step, history) && Once(history)
      && (forall c :: c in receiveQueue ==> c in Added(history))
      && (cmd.Some? ==> cmd.value in Added(history))
    }

    constructor (step: Step<S>)
      ensures Valid() && this.step == step && history == []
    {
      this.step := step;
      receiveQueue, live, trace, cmd := [], map[], [], None;
      history := [];
    }

    /** A new command expecting a response. */
    method Push(c: nat, s: S)
      requires Valid() && c !in Added(history)
      modifies this
      ensures Valid() && history == old(history) + [Add(c, s)]
      ensures receiveQueue == old(receiveQueue) + [c] && trace == old(trace)
    {
      hide Once, Added, Replay, Right;
      ReplayAdd(step, history, c, s);
      Snoc(history, Add(c, s), c);
      ReplayIsReference(step, history);
      LiveIsAdded(step, history, Replay(step, history));
      AddCanon(View(), c, s);
      receiveQueue := receiveQueue + [c];
      live := live[c := s];
      history := history + [Add(c, s)];
    }

    method CurrentCmd() returns (c: Option<nat>)
      modifies this`receiveQueue, this`cmd
      ensures receiveQueue == DropDone(old(receiveQueue), live)
      ensures forall x :: x in receiveQueue ==> x in old(receiveQueue)
      ensures c == cmd == if receiveQueue == [] then None else Some(receiveQueue[0])
    {
      ghost var q := receiveQueue;
      while receiveQueue != []
        invariant DropDone(receiveQueue, live) == DropDone(q, live)
        invariant forall x :: x in receiveQueue ==> x in q
        decreases |receiveQueue|
      {
        if receiveQueue[0] in live {
          cmd := Some(receiveQueue[0]);
          return cmd;
        }
        receiveQueue := receiveQueue[1..];
      }
      cmd := None;
      return None;
    }

    method ReceivePacket(m: Message)
      requires Valid()
      modifies this
      ensures Valid() && history == old(history) + [Packet(m)]
      ensures trace == old(trace) + [Handed(step, old(history), old(trace), m)]
    {
      hide Once, Added, Replay, Handed;
      PacketStep(m);
      ghost var r := ReceiveBasic(step, View(), cmd, m);
      history := history + [Packet(m)];
      var c := cmd;
      if c.None? || c.value !in live {
        c := CurrentCmd();
      }
      if c.None? {
        trace := trace + [Unexpected(m)];
      } else {
        live := Taken(step, live, c.value, m);
        trace := trace + [Received(c.value, m)];
        if c.value !in live {
          cmd := None;
          receiveQueue := receiveQueue[1..];
        }
      }
      assert View() == r.0;
    }

    /** What one more packet must do to the view. */
    lemma PacketStep(m: Message)
      requires Valid()
      ensures var r := ReceiveBasic(step, View(), cmd, m);
              && Cached(r.0, r.1) && Canon(r.0) == Replay(step, history + [Packet(m)])
              && r.0.trace == trace + [Handed(step, history, trace, m)]
      ensures Canon(DispatchOne(step, View(), m)) == Replay(step, history + [Packet(m)])
      ensures Once(history + [Packet(m)]) && Added(history + [Packet(m)]) == Added(history)
    {
      hide Once, Added, Right, Handed;
      Snoc(history, Packet(m), 0);
      ReplayIsReference(step, history);
      PacketRight(step, history, Replay(step, history), m);
      ReplayPacket(step, history, m);
      DispatchCanon(step, View(), m);
      ReceiveBasicIsDispatch(step, View(), cmd, m);
    }

    /** The row fast path: the cached command takes the message and nothing else happens. */
    method FastRow(m: Message)
      requires Valid() && cmd.Some? && cmd.value in live
      modifies this`live, this`trace, this`history
      ensures Valid() && history == old(history) + [Packet(m)]
      ensures trace == old(trace) + [Handed(step, old(history), old(trace), m)]
    {
      hide Once, Added, Replay, Handed;
      PacketStep(m);
      FastRowIsSlowRow(step, View(), m);
      ghost var e := Give(step, View(), cmd.value, m);
      history := history + [Packet(m)];
      live := Taken(step, live, cmd.value, m);
      trace := trace + [Received(cmd.value, m)];
      assert View() == e;
    }
  }
}
