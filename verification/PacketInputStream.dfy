/** The receiving half of a connection: socket chunks in, messages to commands out. */
module PacketInputStream {
  import opened Bytes
  import opened Framing
  import opened Dispatch
  import opened CommandQueue
  import opened InputModel

  class PacketInputStream<S> {
    const queue: CommandQueue<S>
    // partial header
    const header: array<byte>
    var headerLen: nat
    var packetLen: nat
    var sequenceNo: byte
    // 0 stands for null
    var remainingLen: nat
    // partial body
    var parts: Option<seq<seq<byte>>>
    var partsTotalLen: nat

    ghost predicate Valid()
      reads this
    {
      header.Length == 4 && (parts.Some? ==> partsTotalLen == |Flatten(parts.value)|)
    }

    ghost function State(): InState
      requires header.Length == 4
      reads this, header
    {
      InState(header[..Min(headerLen, 4)], packetLen, remainingLen,
              if parts.None? then None else Some(Flatten(parts.value)), sequenceNo)
    }

    constructor (queue: CommandQueue<S>)
      ensures Valid() && fresh(header) && this.queue == queue && State() == INIT
    {
      this.queue := queue;
      header := new byte[4];
      headerLen, packetLen, sequenceNo, remainingLen := 0, 0, 0, 0;
      parts, partsTotalLen := None, 0;
    }

    /** Takes one chunk from the socket. */
    method OnData(chunk: seq<byte>)
      requires Valid() && queue.Valid()
      modifies this, header, queue
      ensures Valid() && queue.Valid()
      ensures var r := InputModel.OnData(old(State()), chunk);
              State() == r.st && queue.history == old(queue.history) + Packets(r.msgs)
    {
      var pos: nat := 0;
      ghost var h := queue.history;
      ghost var ms: seq<Message> := [];
      ghost var r := InputModel.OnData(State(), chunk);
      assert chunk[0..] == chunk;
      while true
        invariant Valid() && queue.Valid() && pos <= |chunk|
        invariant pos < |chunk| || |chunk| == 0
        invariant r == Prepend(ms, InputModel.OnData(State(), chunk[pos..]))
        invariant queue.history == h + Packets(ms)
        decreases |chunk| - pos
      {
        var ended;
        pos, ended, ms := Turn(chunk, pos, h, ms);
        if ended || pos >= |chunk| {
          assert ended || chunk[pos..] == [];
          assert ms + [] == ms;
          break;
        }
      }
    }

    /** One turn of the do-while loop: the header if need be, then what the chunk holds of the body. */
    method Turn(chunk: seq<byte>, pos: nat, ghost h: seq<Action<S>>, ghost ms: seq<Message>)
      returns (pos': nat, ended: bool, ghost ms': seq<Message>)
      requires Valid() && queue.Valid() && pos <= |chunk|
      requires queue.history == h + Packets(ms)
      modifies this, header, queue
      ensures Valid() && queue.Valid() && pos <= pos' <= |chunk|
      ensures pos < pos' || ended
      ensures queue.history == h + Packets(ms')
      ensures Prepend(ms, InputModel.OnData(old(State()), chunk[pos..])) == After(ended, ms', chunk[pos'..])
    {
      hide InputModel.OnData, Rows;
      var length;
      pos', length := ReadHeader(chunk, pos);
      ms', ended := ms, true;
      if length.Some? {
        if length.value > |chunk| - pos' {
          KeepPart(chunk[pos'..], length.value);
          pos' := |chunk|;
        } else if parts.Some? {
          ms' := AddPart(chunk[pos'..pos' + length.value], chunk[pos'..], h, ms);
          pos', ended := pos' + length.value, false;
        } else if length.value > 0 {
          pos', ended, ms' := FirstPart(chunk, pos', length.value, h, ms);
        } else {
          ended := false;
        }
      }
    }

    /** What is left to do: nothing when the chunk has ended inside a frame, else another turn. */
    ghost function After(ended: bool, ms: seq<Message>, rest: seq<byte>): InResult
      requires Valid()
      reads this, header
    {
      if ended then InResult(State(), ms) else Prepend(ms, Next(State(), rest))
    }

    method ReadHeader(chunk: seq<byte>, pos: nat) returns (pos': nat, length: Option<nat>)
      requires Valid() && pos <= |chunk|
      modifies this`headerLen, this`packetLen, this`sequenceNo, header
      ensures Valid() && pos <= pos' <= |chunk|
      ensures length.None? ==> InputModel.OnData(old(State()), chunk[pos..]) == InResult(State(), [])
      ensures length.Some? ==>
                InputModel.OnData(old(State()), chunk[pos..]) == Body(State(), chunk[pos'..], length.value)
      ensures length.Some? && pos' == pos ==> length.value > 0
      ensures length == Some(0) ==> packetLen == 0
    {
      pos' := pos;
      if remainingLen != 0 {
        length := Some(remainingLen);
      } else if headerLen == 0 && |chunk| - pos >= 4 {
        packetLen := FrameLen(chunk[pos..]);
        sequenceNo := chunk[pos + 3];
        pos' := pos + 4;
        length := Some(packetLen);
        assert chunk[pos..][4..] == chunk[pos'..];
      } else {
        pos', length := CollectHeader(chunk, pos);
      }
    }

    method CollectHeader(chunk: seq<byte>, pos: nat) returns (pos': nat, length: Option<nat>)
      requires Valid() && pos <= |chunk|
      requires remainingLen == 0 && (headerLen > 0 || |chunk| - pos < 4)
      modifies this`headerLen, this`packetLen, this`sequenceNo, header
      ensures Valid() && pos <= pos' <= |chunk|
      ensures length.None? ==> InputModel.OnData(old(State()), chunk[pos..]) == InResult(State(), [])
      ensures length.Some? ==> pos < pos' && length.value == packetLen
      ensures length.Some? ==>
                InputModel.OnData(old(State()), chunk[pos..]) == Body(State(), chunk[pos'..], length.value)
    {
      hide InputModel.OnData, Body, Rows, Next, Flatten, FrameLen;
      pos', length := pos, None;
      ghost var st, s := State(), chunk[pos..];
      while |chunk| - pos' > 0
        invariant Valid() && pos <= pos' <= |chunk|
        invariant old(headerLen) >= 4 ==> headerLen >= 4 && State() == st
        invariant old(headerLen) < 4 ==> headerLen < 4 && State() == st.(header := st.header + s[..pos' - pos])
      {
        ghost var k := pos' - pos;
        StoreHeaderByte(chunk[pos']);
        assert st.header + s[..k] + [chunk[pos']] == st.header + s[..k + 1];
        pos' := pos' + 1;
        if headerLen == 4 {
          assert s[k + 1..] == chunk[pos'..];
          assert State().header == st.header + s[..k + 1];
          CollectDone(st, s, pos' - pos, State().header);
          length := HeaderDone();
          return;
        }
      }
      if old(headerLen) < 4 {
        assert s[..pos' - pos] == s;
        CollectMore(st, s);
      } else {
        CollectStuck(st, s);
      }
    }

    method HeaderDone() returns (length: Option<nat>)
      requires Valid() && headerLen == 4
      modifies this`packetLen, this`sequenceNo
      ensures Valid() && length == Some(packetLen)
      ensures var h := old(State()).header;
              |h| == 4 && packetLen == FrameLen(h) && State() == old(State()).(packetLen := packetLen, seqNo := h[3])
    {
      packetLen := FrameLen(header[..]);
      sequenceNo := header[3];
      length := Some(packetLen);
      assert header[..] == header[..4];
    }

    /** `header[headerLen++] = b`; a store past the end of a typed array does nothing. */
    method StoreHeaderByte(b: byte)
      requires Valid()
      modifies this`headerLen, header
      ensures Valid() && headerLen == old(headerLen) + 1
      ensures State() == if old(headerLen) < 4 then old(State()).(header := old(State()).header + [b]) else old(State())
    {
      if headerLen < 4 {
        header[headerLen] := b;
      }
      headerLen := headerLen + 1;
    }

    /** The chunk ends inside the frame. */
    method KeepPart(part: seq<byte>, length: nat)
      requires Valid() && |part| < length
      modifies this`parts, this`partsTotalLen, this`remainingLen
      ensures Valid() && Body(old(State()), part, length) == InResult(State(), [])
      ensures State() == old(State()).(parts := Some(Merged(old(State()).parts, part)), remaining := length - |part|)
    {
      if parts.None? {
        OpenPart(part);
      } else {
        FlattenSnoc(parts.value, part);
        parts := Some(parts.value + [part]);
        partsTotalLen := partsTotalLen + |part|;
      }
      remainingLen := length - |part|;
    }

    method ResetHeader()
      requires Valid()
      modifies this`remainingLen, this`headerLen
      ensures Valid() && State() == Reset(old(State()))
    {
      remainingLen := 0;
      headerLen := 0;
    }

    method ReceivePacket(payload: seq<byte>, ghost h: seq<Action<S>>, ghost ms: seq<Message>)
      returns (ghost ms': seq<Message>)
      requires queue.Valid() && queue.history == h + Packets(ms)
      modifies queue
      ensures ms' == ms + [Message(payload, sequenceNo)]
      ensures queue.Valid() && queue.history == h + Packets(ms')
    {
      var m := Message(payload, sequenceNo);
      queue.ReceivePacket(m);
      ms' := ms + [m];
      PacketsSnoc(h, ms, m);
    }

    /** The rest of a frame, possibly empty, that continues something. */
    method AddPart(part: seq<byte>, ghost s: seq<byte>, ghost h: seq<Action<S>>, ghost ms: seq<Message>)
      returns (ghost ms': seq<Message>)
      requires Valid() && queue.Valid() && parts.Some? && part <= s
      requires |part| == 0 ==> packetLen < MAX_PAYLOAD
      requires queue.history == h + Packets(ms)
      modifies this, queue
      ensures Valid() && queue.Valid() && queue.history == h + Packets(ms')
      ensures Prepend(ms, Body(old(State()), s, |part|)) == After(false, ms', s[|part|..])
    {
      ms' := ms;
      ghost var st := State();
      FlattenSnoc(parts.value, part);
      assert s[..|part|] == part;
      parts := Some(parts.value + [part]);
      partsTotalLen := partsTotalLen + |part|;
      ghost var all := Flatten(parts.value);
      assert all == Merged(st.parts, part);
      assert |part| == 0 ==> all == st.parts.value && s[|part|..] == s;
      if packetLen < MAX_PAYLOAD {
        var buf := Flatten(parts.value)[..partsTotalLen];
        assert buf == all;
        parts := None;
        ms' := ReceivePacket(buf, h, ms);
        PrependTwice(ms, [Message(all, sequenceNo)], Next(Reset(st.(parts := None)), s[|part|..]));
      }
      ResetHeader();
    }

    /** A whole frame body when nothing is open: a message, then the inner loop, or a first part. */
    method FirstPart(chunk: seq<byte>, pos: nat, length: nat, ghost h: seq<Action<S>>, ghost ms: seq<Message>)
      returns (pos': nat, ended: bool, ghost ms': seq<Message>)
      requires Valid() && queue.Valid() && parts.None? && 0 < length <= |chunk| - pos
      requires queue.history == h + Packets(ms)
      modifies this, queue
      ensures Valid() && queue.Valid() && queue.history == h + Packets(ms')
      ensures pos < pos' <= |chunk|
      ensures Prepend(ms, Body(old(State()), chunk[pos..], length)) == After(ended, ms', chunk[pos'..])
    {
      pos' := pos + length;
      var part := chunk[pos..pos'];
      assert chunk[pos..][..length] == part && chunk[pos..][length..] == chunk[pos'..];
      PrependTwice(ms, [Message(part, sequenceNo)], Rows(State(), chunk[pos'..]));
      ended := false;
      if packetLen < MAX_PAYLOAD {
        ms' := ReceivePacket(part, h, ms);
        pos', ended, ms' := FastRows(chunk, pos', h, ms');
      } else {
        ms' := ms;
        OpenPart(part);
      }
      if !ended {
        ResetHeader();
      }
    }

    /** Inner loop: whole frames of one packet each, without going through the header code. */
    method FastRows(chunk: seq<byte>, pos: nat, ghost h: seq<Action<S>>, ghost ms: seq<Message>)
      returns (pos': nat, ended: bool, ghost ms': seq<Message>)
      requires Valid() && queue.Valid() && parts.None? && pos <= |chunk|
      requires queue.history == h + Packets(ms)
      modifies this, queue
      ensures Valid() && queue.Valid() && queue.history == h + Packets(ms')
      ensures pos <= pos' <= |chunk|
      ensures Prepend(ms, Rows(old(State()), chunk[pos..]))
              == if ended then InResult(State(), ms') else Prepend(ms', Next(Reset(State()), chunk[pos'..]))
    {
      hide Replay, InputModel.OnData, Body, Rows;
      pos', ms', ended := pos, ms, false;
      ghost var r := Prepend(ms, Rows(State(), chunk[pos..]));
      while pos' + 4 < |chunk|
        invariant Valid() && queue.Valid() && parts.None? && pos <= pos' <= |chunk|
        invariant queue.history == h + Packets(ms')
        invariant r == Prepend(ms', Rows(State(), chunk[pos'..]))
      {
        ghost var st, s := State(), chunk[pos'..];
        var length := InnerHeader(chunk, pos');
        pos' := pos' + 4;
        if |chunk| - pos' < length {
          RowsPart(st, s);
          KeepPart(chunk[pos'..], length);
          ended := true;
          return;
        }
        var part := chunk[pos'..pos' + length];
        var first := chunk[pos'];
        pos' := pos' + length;
        assert s[4..] == part + chunk[pos'..];
        if length == MAX_PAYLOAD {
          RowsFull(st, s, part, chunk[pos'..]);
          OpenPart(part);
          break;
        }
        RowsWhole(ms', st, s, part, chunk[pos'..]);
        ms' := Row(part, first, h, ms');
      }
      if parts.None? {
        RowsEnd(State(), chunk[pos'..]);
      }
    }

    method InnerHeader(chunk: seq<byte>, pos: nat) returns (length: nat)
      requires Valid() && pos + 4 <= |chunk|
      modifies this`packetLen, this`sequenceNo
      ensures Valid() && chunk[pos..][4..] == chunk[pos + 4..]
      ensures length == packetLen == FrameLen(chunk[pos..])
      ensures State() == old(State()).(packetLen := length, seqNo := chunk[pos + 3])
    {
      length := FrameLen(chunk[pos..]);
      packetLen := length;
      sequenceNo := chunk[pos + 3];
    }

    method OpenPart(part: seq<byte>)
      requires Valid()
      modifies this`parts, this`partsTotalLen
      ensures Valid() && State() == old(State()).(parts := Some(part))
    {
      parts := Some([part]);
      partsTotalLen := |part|;
      assert Flatten([part]) == part;
    }

    /** A first byte below 0xfe is a row: straight to the cached command if it is still live. */
    method Row(part: seq<byte>, first: byte, ghost h: seq<Action<S>>, ghost ms: seq<Message>)
      returns (ghost ms': seq<Message>)
      requires queue.Valid() && queue.history == h + Packets(ms)
      modifies queue
      ensures ms' == ms + [Message(part, sequenceNo)]
      ensures queue.Valid() && queue.history == h + Packets(ms')
    {
      if queue.cmd.Some? && queue.cmd.value in queue.live && first < 0xfe {
        var m := Message(part, sequenceNo);
        queue.FastRow(m);
        ms' := ms + [m];
        PacketsSnoc(h, ms, m);
      } else {
        ms' := ReceivePacket(part, h, ms);
      }
    }
  }
}
