/** The sending half of a connection: a buffer that grows by tiers and is sent frame by frame. */
module PacketOutputStream {
  import opened Bytes
  import opened Framing
  import opened OutputModel
  import opened TextCommand
  import opened LengthCoded
  import opened Escaping
  import opened Utf8

  /** Where escaped bytes go: they stay in the buffer as it was, are sent in frames as needed, or come
      behind a buffer that has been cut down. */
  datatype Destination = Kept(o: Out) | InFrames(base: seq<byte>, s: Sending) | CutOff(o: Out)

  class PacketOutputStream {
    var buf: array<byte>
    var pos: nat
    var markPos: int
    var bufContainDataAfterMark: bool
    var cmdLength: nat
    // `this.cmd.sequenceNo`
    var sequenceNo: int
    // every byte handed to the socket
    var wire: seq<byte>
    // `opts.maxAllowedPacket`; None when it is not set
    const maxAllowedPacket: Option<nat>

    function MaxPacketLength(): nat {
      Min(MAX_BUFFER_SIZE, (if maxAllowedPacket.Some? && maxAllowedPacket.value > 0 then maxAllowedPacket.value
                            else 16777216) + 4)
    }

    ghost predicate Valid()
      reads this, buf
    {
      && 4 <= pos <= buf.Length
      && (markPos == -1 || 4 <= markPos <= pos)
    }

    ghost function View(): Out
      requires Valid()
      reads this, buf
    {
      Out(wire, sequenceNo, buf[4..pos], buf.Length,
          if markPos == -1 then None else Some(markPos - 4), bufContainDataAfterMark, cmdLength)
    }

    constructor (maxAllowedPacket: Option<nat>)
      ensures Valid() && fresh(buf) && this.maxAllowedPacket == maxAllowedPacket
      ensures View() == Out([], -1, [], SMALL_BUFFER_SIZE, None, false, 0)
    {
      this.maxAllowedPacket := maxAllowedPacket;
      pos, markPos, bufContainDataAfterMark, cmdLength := 4, -1, false, 0;
      buf := new byte[SMALL_BUFFER_SIZE];
      sequenceNo, wire := -1, [];
    }

    method CreateBufferWithMinSize(remainingLen: nat) returns (b: array<byte>)
      ensures fresh(b) && b.Length == MinCapacity(remainingLen)
    {
      var newCapacity;
      if remainingLen + 4 < SMALL_BUFFER_SIZE {
        newCapacity := SMALL_BUFFER_SIZE;
      } else if remainingLen + 4 < MEDIUM_BUFFER_SIZE {
        newCapacity := MEDIUM_BUFFER_SIZE;
      } else if remainingLen + 4 < LARGE_BUFFER_SIZE {
        newCapacity := LARGE_BUFFER_SIZE;
      } else if remainingLen + 4 < BIG_BUFFER_SIZE {
        newCapacity := BIG_BUFFER_SIZE;
      } else {
        newCapacity := MAX_BUFFER_SIZE;
      }
      b := new byte[newCapacity];
    }

    /** The frame header goes into the four bytes kept free at the start of the buffer. The length is
        that of the position, the bytes sent are those there are. */
    method WriteHeader()
      requires 4 <= pos && 4 <= buf.Length && sequenceNo >= -1
      modifies this`sequenceNo, this`wire, buf
      ensures sequenceNo == old(sequenceNo) + 1
      ensures wire == old(wire) + (LE(pos - 4, 3) + [sequenceNo % 256] + old(buf[4..Min(pos, buf.Length)]))
    {
      hide LE;
      ghost var body := buf[4..Min(pos, buf.Length)];
      buf[0] := (pos - 4) % 256;
      buf[1] := (pos - 4) / 256 % 256;
      buf[2] := (pos - 4) / 65536 % 256;
      sequenceNo := sequenceNo + 1;
      buf[3] := sequenceNo % 256;
      LE3(pos - 4);
      assert buf[..Min(pos, buf.Length)] == LE(pos - 4, 3) + [sequenceNo % 256] + body;
      wire := wire + buf[..Min(pos, buf.Length)];
    }

    method WriteEmptyPacket()
      requires sequenceNo >= -1
      modifies this`sequenceNo, this`wire, this`cmdLength
      ensures sequenceNo == old(sequenceNo) + 1 && cmdLength == 0
      ensures wire == old(wire) + EncodeFrame(Frame([], sequenceNo % 256))
    {
      sequenceNo := sequenceNo + 1;
      LE3(0);
      wire := wire + [0x00, 0x00, 0x00, sequenceNo % 256];
      cmdLength := 0;
    }

    method FlushBuffer(commandEnd: bool, remainingLen: nat)
      requires 4 <= pos && 4 <= buf.Length && sequenceNo >= -1
      modifies this, buf
      ensures markPos == old(markPos) && pos == 4 && fresh(buf) && buf.Length == MinCapacity(remainingLen)
      ensures bufContainDataAfterMark == old(bufContainDataAfterMark)
      ensures old(Valid()) ==>
                Out(wire, sequenceNo, [], buf.Length, old(View()).mark, bufContainDataAfterMark, cmdLength)
                == OutputModel.FlushBuffer(old(View()), commandEnd, remainingLen)
      ensures !commandEnd ==>
                && sequenceNo == old(sequenceNo) + 1
                && wire == old(wire) + (LE(old(pos) - 4, 3) + [sequenceNo % 256] + old(buf[4..Min(pos, buf.Length)]))
    {
      hide MinCapacity, LE;
      WriteHeader();
      cmdLength := cmdLength + (pos - 4);
      if commandEnd && pos == MAX_BUFFER_SIZE {
        WriteEmptyPacket();
      }
      buf := CreateBufferWithMinSize(remainingLen);
      pos := 4;
    }

    /** `flush` */
    method Flush()
      requires Valid() && sequenceNo >= -1
      modifies this, buf
      ensures Valid() && fresh(buf) && View() == OutputModel.Flush(old(View()))
    {
      FlushBuffer(true, 0);
      buf := new byte[SMALL_BUFFER_SIZE];
      sequenceNo := -1;
      cmdLength := 0;
      markPos := -1;
    }

    method FlushBufferStopAtMark()
      requires Valid() && sequenceNo >= -1 && markPos != -1
      modifies this, buf
      ensures Valid() && fresh(buf) && View() == StopAtMark(old(View()))
    {
      hide OutputModel.FlushBuffer;
      var end, mark := pos, markPos;
      var tail := buf[mark..end];
      SubSlice(buf[..], 4, mark, end);
      pos := mark;
      var tmpBuf := new byte[Max(SMALL_BUFFER_SIZE, end + 4 - mark)];
      forall i | 4 <= i < 4 + end - mark {
        tmpBuf[i] := buf[mark + i - 4];
      }
      assert tmpBuf[4..4 + end - mark] == tail;
      FlushBuffer(true, end - mark);
      cmdLength := 0;
      buf := tmpBuf;
      pos := 4 + end - mark;
      markPos := -1;
      bufContainDataAfterMark := true;
    }

    /** What a buffer that is stuck comes to when it grows: cut down to the maximum, which the position
        has passed. */
    ghost predicate CutDown(o: Out)
      reads this, buf
    {
      && buf.Length == MAX_BUFFER_SIZE < pos == Pos(o) && buf[4..] == o.body[..0xffffff]
      && markPos == -1 && wire == o.wire && sequenceNo == o.seqNo
      && bufContainDataAfterMark == o.after && cmdLength == o.cmdLength
    }

    method GrowBuffer(len: nat)
      requires Valid() && Ok(View()) && pos + len > buf.Length
      modifies this, buf
      ensures fresh(buf)
      ensures if old(CanWrite(View(), len)) then Valid() && View() == Grow(old(View()), len) else CutDown(old(View()))
      decreases markPos != -1
    {
      var newCapacity;
      if len + pos < MEDIUM_BUFFER_SIZE {
        newCapacity := MEDIUM_BUFFER_SIZE;
      } else if len + pos < LARGE_BUFFER_SIZE {
        newCapacity := LARGE_BUFFER_SIZE;
      } else if len + pos < BIG_BUFFER_SIZE {
        newCapacity := BIG_BUFFER_SIZE;
      } else if bufContainDataAfterMark {
        newCapacity := len + pos;
      } else {
        newCapacity := MAX_BUFFER_SIZE;
      }
      assert newCapacity == NewCapacity(View(), len);
      if len + pos > newCapacity && markPos != -1 {
        StopAtMarkOk(View());
        FlushBufferStopAtMark();
        if len + pos > buf.Length {
          GrowBuffer(len);
        }
        return;
      }
      Reallocate(newCapacity);
    }

    method Reallocate(newCapacity: nat)
      requires Valid() && 4 <= newCapacity
      modifies this`buf
      ensures fresh(buf) && buf.Length == newCapacity
      ensures pos <= newCapacity ==> Valid() && View() == old(View()).(cap := newCapacity)
      ensures pos > newCapacity ==> buf[4..] == old(View()).body[..newCapacity - 4]
    {
      var newBuf := new byte[newCapacity];
      forall i | 0 <= i < pos && i < newCapacity {
        newBuf[i] := buf[i];
      }
      ghost var body := View().body;
      buf := newBuf;
      if pos <= newCapacity {
        assert buf[4..pos] == body;
      } else {
        assert forall i :: 0 <= i < newCapacity - 4 ==> buf[4..][i] == body[i];
        assert buf[4..] == body[..newCapacity - 4];
      }
    }

    method StartPacket()
      requires Valid() && markPos == -1
      modifies this`pos
      ensures Valid() && View() == OutputModel.StartPacket(old(View()))
    {
      pos := 4;
    }

    method Mark()
      requires Valid()
      modifies this`markPos
      ensures Valid() && View() == OutputModel.Mark(old(View()))
    {
      markPos := pos;
    }

    predicate IsMarked()
      reads this
    {
      markPos != -1
    }

    predicate HasDataAfterMark()
      reads this
    {
      bufContainDataAfterMark
    }

    predicate BufIsAfterMaxPacketLength()
      reads this
    {
      pos > MaxPacketLength()
    }

    /** The bytes kept beyond a sent mark, if any; the next command starts afresh. */
    method ResetMark() returns (data: Option<seq<byte>>)
      requires Valid() && markPos != -1
      modifies this
      ensures Valid() && buf == old(buf)
      ensures (View(), data) == OutputModel.ResetMark(old(View()))
    {
      SubSlice(buf[..], 4, markPos, pos);
      pos := markPos;
      markPos := -1;
      data := None;
      if bufContainDataAfterMark {
        data := Some(buf[4..pos]);
        sequenceNo := -1;
        bufContainDataAfterMark := false;
      }
    }

    /** Copies bytes for which there is room: in one go when there are many, else one by one. */
    method Copy(data: seq<byte>)
      requires Valid() && pos + |data| <= buf.Length
      modifies this`pos, buf
      ensures Valid() && View() == Append(old(View()), data) && pos == old(pos) + |data|
    {
      if |data| > 50 {
        forall i | 0 <= i < |data| {
          buf[pos + i] := data[i];
        }
        pos := pos + |data|;
      } else {
        var start := pos;
        var i := 0;
        while i < |data|
          invariant i <= |data| && pos == start + i
          invariant Valid() && pos + (|data| - i) <= buf.Length
          invariant buf[4..start] == old(buf[4..pos]) && buf[start..pos] == data[..i]
        {
          buf[pos] := data[i];
          pos := pos + 1;
          i := i + 1;
        }
        assert buf[4..pos] == buf[4..start] + buf[start..pos];
      }
      assert buf[4..pos] == old(buf[4..pos]) + data;
    }

    /** `writeBuffer` of the `len` bytes of `arr` from `off`. A buffer that is stuck loses what stands
        beyond the maximum: the copy is then asked to begin that many bytes earlier in `arr`, and is
        refused if that is before its start. */
    method WriteBuffer(arr: seq<byte>, off: nat, len: nat) returns (thrown: bool)
      requires Valid() && Ok(View()) && off + len <= |arr|
      modifies this, buf
      ensures buf == old(buf) || fresh(buf)
      ensures thrown <==> old(Stuck(View(), len) && off < pos - MAX_BUFFER_SIZE)
      ensures thrown ==> wire == old(wire)
      ensures old(CanWrite(View(), len)) ==> Valid() && View() == Write(old(View()), arr[off..off + len])
      ensures !thrown && old(Stuck(View(), len)) ==>
                Valid() && View() == Stream(Clipped(old(View())), arr[off - Lost(old(pos))..off + len])
    {
      hide Stream, OutputModel.MakeRoom;
      thrown := false;
      ghost var o := View();
      if CanWrite(o, len) {
        MakeRoomFits(o, len);
      }
      MakeRoom(len);
      assert Stuck(o, len) ==> ClippedView() == Clipped(o) by {
        if Stuck(o, len) { assert buf[4..MAX_BUFFER_SIZE] == buf[4..]; }
      }
      if len > buf.Length - pos {
        thrown := StreamOut(arr, off, len);
      } else {
        Copy(arr[off..off + len]);
      }
    }

    /** The nested growth tests of `writeBuffer`; growing for data that the maximum cannot hold
        always takes away the mark, so the second mark test there is never met. */
    method MakeRoom(len: nat)
      requires Valid() && Ok(View())
      modifies this, buf
      ensures buf == old(buf) || fresh(buf)
      ensures if old(CanWrite(View(), len)) then Valid() && View() == OutputModel.MakeRoom(old(View()), len)
              else CutDown(old(View()))
    {
      hide Grow;
      if len > buf.Length - pos {
        if buf.Length != MAX_BUFFER_SIZE {
          GrowBuffer(len);
        }
        if len > buf.Length - pos {
          if markPos != -1 {
            GrowBuffer(len);
          }
        }
      }
    }

    /** What still goes into the buffer of what is left to write. */
    method Fill(arr: seq<byte>, off: nat, len: nat) returns (filled: nat)
      requires Valid() && off + len <= |arr| && pos <= MAX_BUFFER_SIZE
      requires buf.Length == MAX_BUFFER_SIZE || pos + len <= buf.Length
      modifies this`pos, buf
      ensures Valid() && filled == Min(MAX_BUFFER_SIZE - old(pos), len) && pos == old(pos) + filled <= MAX_BUFFER_SIZE
      ensures var o := old(View());
              Stream(o, arr[off..off + len])
              == if filled == len then View()
                 else Stream(OutputModel.FlushBuffer(View(), false, len - filled), arr[off + filled..off + len])
    {
      hide OutputModel.FlushBuffer, Stream;
      filled := Min(MAX_BUFFER_SIZE - pos, len);
      StreamStep(View(), arr[off..off + len], filled);
      SubSlice(arr, off, off + filled, off + len);
      Copy(arr[off..off + filled]);
    }

    /** How far the position is past the maximum. */
    ghost function Lost(pos: nat): nat { Max(0, pos - MAX_BUFFER_SIZE) }

    /** The buffer at the maximum size, with what it still holds. */
    ghost function ClippedView(): Out
      requires 4 <= pos && buf.Length == MAX_BUFFER_SIZE
      reads this, buf
    {
      Out(wire, sequenceNo, buf[4..Min(pos, MAX_BUFFER_SIZE)], MAX_BUFFER_SIZE, None, bufContainDataAfterMark, cmdLength)
    }

    /** Not enough room even in the largest buffer: fill it, send it, and go on. From a position past
        the maximum the first turn steps back. */
    method StreamOut(arr: seq<byte>, off: nat, len: nat) returns (thrown: bool)
      requires 4 <= pos && off + len <= |arr| && sequenceNo >= -1 && markPos == -1
      requires buf.Length == MAX_BUFFER_SIZE
      modifies this, buf
      ensures buf == old(buf) || fresh(buf)
      ensures thrown <==> off < Lost(old(pos))
      ensures thrown ==> wire == old(wire)
      ensures !thrown ==>
                Valid() && View() == Stream(old(ClippedView()), arr[off - Lost(old(pos))..off + len])
    {
      hide OutputModel.FlushBuffer, Stream, EncodeFrame, MinCapacity;
      var remainingLen: int, from: int := len, off;
      if pos > MAX_BUFFER_SIZE {
        var lenToFillBuffer := MAX_BUFFER_SIZE - pos;
        if from + lenToFillBuffer < 0 {
          return true;
        }
        remainingLen, from, pos := remainingLen - lenToFillBuffer, from + lenToFillBuffer, pos + lenToFillBuffer;
      }
      ghost var goal := Stream(View(), arr[from..off + len]);
      while true
        invariant Valid() && sequenceNo >= -1 && markPos == -1 && (buf == old(buf) || fresh(buf))
        invariant pos <= MAX_BUFFER_SIZE && (buf.Length == MAX_BUFFER_SIZE || pos + remainingLen <= buf.Length)
        invariant 0 <= from && 0 <= remainingLen && from + remainingLen == off + len
        invariant Stream(View(), arr[from..off + len]) == goal
        decreases remainingLen, pos
      {
        var lenToFillBuffer := Fill(arr, from, remainingLen);
        remainingLen := remainingLen - lenToFillBuffer;
        from := from + lenToFillBuffer;
        if remainingLen == 0 {
          return false;
        }
        FlushForMore(remainingLen);
      }
    }

    /** A flush in the middle of a command. */
    method FlushForMore(remainingLen: nat)
      requires 4 <= pos && 4 <= buf.Length && sequenceNo >= -1 && markPos == -1
      modifies this, buf
      ensures Valid() && fresh(buf) && markPos == -1 && sequenceNo == old(sequenceNo) + 1 && pos == 4
      ensures old(Valid()) ==> View() == OutputModel.FlushBuffer(old(View()), false, remainingLen)
      ensures wire == old(wire) + (LE(old(pos) - 4, 3) + [sequenceNo % 256] + old(buf[4..Min(pos, buf.Length)]))
      ensures bufContainDataAfterMark == old(bufContainDataAfterMark)
      ensures buf.Length == MAX_BUFFER_SIZE || 4 + remainingLen < buf.Length < MAX_BUFFER_SIZE
    {
      hide LE, EncodeFrame;
      FlushBuffer(false, remainingLen);
    }

    /** `writeInt8`, `writeInt16`, `writeInt24`, `writeInt32`, `writeBigInt`, `writeDouble` (of the
        number's bits): little-endian, written in place unless they would fill the buffer. */
    method WriteInt(value: int, n: nat) returns (thrown: bool)
      requires Valid() && Ok(View())
      modifies this, buf
      ensures buf == old(buf) || fresh(buf)
      ensures thrown <==> !old(CanWrite(View(), n))
      ensures thrown ==> wire == old(wire)
      ensures !thrown ==> Valid() && View() == Write(old(View()), LE(value, n))
    {
      var bytes := LE(value, n);
      if pos + n >= buf.Length {
        assert bytes[0..n] == bytes;
        thrown := WriteBuffer(bytes, 0, n);
        return;
      }
      FitsAtOnce(View(), bytes);
      Copy(bytes);
      return false;
    }

    /** The writes have all been made, or the first impossible one has thrown and nothing was sent. */
    ghost predicate Made(thrown: bool, o: Out, ws: seq<seq<byte>>)
      reads this, buf
    {
      if Goes(o, ws) then !thrown && Valid() && View() == Writes(o, ws) else thrown && wire == o.wire
    }

    /** `writeLengthCoded` */
    method WriteLengthCoded(len: nat) returns (thrown: bool)
      requires Valid() && Ok(View())
      modifies this, buf
      ensures buf == old(buf) || fresh(buf)
      ensures Made(thrown, old(View()), LengthOps(len))
    {
      hide Write;
      if len < 0xfb {
        WritesOne(View(), [len]);
        LE1(len);
        thrown := WriteInt(len, 1);
        return;
      }
      if len < 65536 {
        thrown := WriteTwo(0xfc, len, 2);
      } else if len < 16777216 {
        thrown := WriteTwo(0xfd, len, 3);
      } else {
        thrown := WriteTwo(0xfe, len, 8);
      }
    }

    /** A marker byte, then the number. */
    method WriteTwo(marker: byte, value: nat, n: nat) returns (thrown: bool)
      requires Valid() && Ok(View())
      modifies this, buf
      ensures buf == old(buf) || fresh(buf)
      ensures Made(thrown, old(View()), [[marker], LE(value, n)])
    {
      hide Write, LE;
      ghost var o := View();
      LastWrite(o, [[marker]], LE(value, n));
      assert [[marker]] + [LE(value, n)] == [[marker], LE(value, n)];
      WritesOne(o, [marker]);
      LE1(marker);
      thrown := WriteInt(marker, 1);
      if thrown {
        return;
      }
      LastFails(o, [[marker]], LE(value, n));
      thrown := WriteInt(value, n);
    }

    method WriteLengthEncodedBuffer(buffer: seq<byte>) returns (thrown: bool)
      requires Valid() && Ok(View())
      modifies this, buf
      ensures buf == old(buf) || fresh(buf)
      ensures Made(thrown, old(View()), LengthEncoded(buffer))
    {
      hide Write;
      ghost var o := View();
      LastWrite(o, LengthOps(|buffer|), buffer);
      thrown := WriteLengthCoded(|buffer|);
      if thrown {
        return;
      }
      LastFails(o, LengthOps(|buffer|), buffer);
      assert buffer[0..|buffer|] == buffer;
      thrown := WriteBuffer(buffer, 0, |buffer|);
    }

    /** The text, already encoded, is put in place unless the buffer cannot be made large enough. */
    method WriteLengthEncodedString(text: seq<byte>) returns (thrown: bool)
      requires Valid() && Ok(View())
      modifies this, buf
      ensures buf == old(buf) || fresh(buf)
      ensures Made(thrown, old(View()), LengthEncoded(text))
    {
      hide Write, Grow, Stream;
      ghost var o := View();
      LastWrite(o, LengthOps(|text|), text);
      thrown := WriteLengthCoded(|text|);
      if thrown {
        return;
      }
      LastFails(o, LengthOps(|text|), text);
      thrown := PutEncoded(text);
    }

    method PutEncoded(text: seq<byte>) returns (thrown: bool)
      requires Valid() && Ok(View())
      modifies this, buf
      ensures buf == old(buf) || fresh(buf)
      ensures thrown <==> !old(CanWrite(View(), |text|))
      ensures thrown ==> wire == old(wire)
      ensures !thrown ==> Valid() && View() == Write(old(View()), text)
    {
      hide Write, Grow, Stream;
      var byteLength := |text|;
      if byteLength > buf.Length - pos {
        if CanWrite(View(), byteLength) {
          GrowThenWrite(View(), text);
        }
        if buf.Length < MAX_BUFFER_SIZE {
          GrowBuffer(byteLength);
        }
        if byteLength > buf.Length - pos {
          assert text[0..byteLength] == text;
          thrown := WriteBuffer(text, 0, byteLength);
          return;
        }
      } else {
        FitsAtOnce(View(), text);
      }
      Copy(text);
      return false;
    }

    /** `writeStringAscii` of the text's codes. */
    method WriteStringAscii(str: seq<byte>) returns (thrown: bool)
      requires Valid() && Ok(View())
      modifies this, buf
      ensures buf == old(buf) || fresh(buf)
      ensures thrown <==> !old(CanWrite(View(), |str|))
      ensures thrown ==> wire == old(wire)
      ensures !thrown ==> Valid() && View() == Write(old(View()), str)
    {
      hide Write;
      if |str| >= buf.Length - pos {
        assert str[0..|str|] == str;
        thrown := WriteBuffer(str, 0, |str|);
        return;
      }
      FitsAtOnce(View(), str);
      ghost var o := View();
      assert o.body + str[..0] == o.body;
      for off := 0 to |str|
        invariant Valid() && View() == Append(o, str[..off]) && pos + (|str| - off) <= buf.Length && buf == old(buf)
      {
        PutByte(str[off]);
        assert o.body + str[..off] + [str[off]] == o.body + str[..off + 1];
      }
      assert str[..|str|] == str;
      return false;
    }

    /** A command is being written behind `base` with no mark set, as text commands are. */
    ghost predicate Holds(base: seq<byte>, s: Sending)
      reads this, buf
    {
      Valid() && Sends(View(), base, s)
    }

    /** Room for `left` more bytes, or a buffer that is sent when it is full. */
    ghost predicate HasRoom(left: int)
      reads this, buf
    {
      buf.Length == MAX_BUFFER_SIZE || pos + left <= buf.Length
    }

    /** `x` has been written to `dest`, and up to `left` bytes are to come. */
    ghost predicate Wrote(dest: Destination, x: seq<byte>, left: int)
      reads this, buf
    {
      match dest
      case Kept(o) => Valid() && View() == Append(o, x) && pos + left <= buf.Length
      case InFrames(base, s) => InFrame(base, s.(p := s.p + x), left)
      case CutOff(o) =>
        && Ok(o) && o.seqNo == -1 && !o.after && o.mark.None?
        && ((x == [] && CutDown(o)) || Misframed(o, x, left))
    }

    ghost predicate InFrame(base: seq<byte>, s: Sending, left: int)
      reads this, buf
    {
      Holds(base, s) && !s.held && s.room == MAX_PAYLOAD && HasRoom(left)
    }

    /** The buffer `o` has been cut down and sent under the length it had, and `x` follows. */
    ghost predicate Misframed(o: Out, x: seq<byte>, left: int)
      reads this, buf
    {
      Pos(o) > MAX_BUFFER_SIZE && InFrame(o.wire, Sending(o.body[..0xffffff] + x, |o.body|, MAX_PAYLOAD, false), left)
    }

    /** `buf[pos++] = b` after a flush if the buffer is full; `remaining` sizes the next buffer. */
    method PushByte(b: byte, remaining: nat, ghost left: nat, ghost dest: Destination, ghost x: seq<byte>)
      requires Wrote(dest, x, left) && 1 <= left <= remaining
      modifies this, buf
      ensures (buf == old(buf) || fresh(buf)) && Wrote(dest, x + [b], left - 1)
    {
      hide Sends;
      if pos >= buf.Length {
        MakeSpace(remaining, left, dest, x);
      }
      match dest {
        case Kept(start) => assert start.body + x + [b] == start.body + (x + [b]);
        case InFrames(base, s) => OneByte(base, s.(p := s.p + x), b, s.p, x);
        case CutOff(start) =>
          OneByte(start.wire, Sending(start.body[..0xffffff] + x, |start.body|, MAX_PAYLOAD, false), b,
                  start.body[..0xffffff], x);
      }
      PutByte(b);
    }

    /** One byte more in a buffer that is not full. */
    lemma OneByte(base: seq<byte>, s: Sending, b: byte, p: seq<byte>, x: seq<byte>)
      requires Holds(base, s) && !s.held && s.room == MAX_PAYLOAD && pos < buf.Length && s.p == p + x
      ensures Sends(Append(View(), [b]), base, s.(p := p + (x + [b])))
    {
      hide Sends;
      SendsFacts(View(), base, s);
      SendsAppend(View(), base, s, [b]);
      assert p + x + [b] == p + (x + [b]);
    }

    /** The flush of a full buffer, or of one that was cut down. */
    method MakeSpace(remaining: nat, ghost left: nat, ghost dest: Destination, ghost x: seq<byte>)
      requires Wrote(dest, x, left) && 1 <= left <= remaining && pos >= buf.Length
      modifies this, buf
      ensures fresh(buf) && Valid() && pos < buf.Length && (dest.CutOff? ==> Misframed(dest.o, x, left))
      ensures Wrote(dest, x, left)
    {
      hide Sends, OutputModel.FlushBuffer, LE;
      match dest {
        case Kept(_) =>
        case InFrames(base, s) =>
          SendsFacts(View(), base, s.(p := s.p + x));
          SendsFlush(View(), base, s.(p := s.p + x), remaining);
        case CutOff(o) =>
          if CutDown(o) {
            assert buf[4..Min(pos, buf.Length)] == buf[4..];
          } else {
            var s := Sending(o.body[..0xffffff] + x, |o.body|, MAX_PAYLOAD, false);
            SendsFacts(View(), o.wire, s);
            SendsFlush(View(), o.wire, s, remaining);
          }
      }
      ghost var cut := dest.CutOff? && CutDown(dest.o);
      FlushForMore(remaining);
      if cut {
        CutSends(dest.o, View());
        assert dest.o.body[..0xffffff] + [] == dest.o.body[..0xffffff];
      }
    }

    method PutByte(b: byte)
      requires Valid() && pos < buf.Length
      modifies this`pos, buf
      ensures Valid() && View() == Append(old(View()), [b]) && pos == old(pos) + 1
    {
      buf[pos] := b;
      pos := pos + 1;
      assert buf[4..pos] == old(buf[4..pos]) + [b];
    }

    /** Makes the buffer bigger (up to 16M) for a text of `2 * n` bytes at most. */
    method GrowForEscape(n: nat, ghost base: seq<byte>, ghost s: Sending)
      requires Holds(base, s) && 2 * n > buf.Length - pos
      modifies this, buf
      ensures buf == old(buf) || fresh(buf)
      ensures if s.held then CutDown(old(View())) else InFrame(base, s.(room := MAX_PAYLOAD), 2 * n)
    {
      hide Sends;
      SendsFacts(View(), base, s);
      if buf.Length != MAX_BUFFER_SIZE {
        if !s.held {
          SendsCap(View(), base, s, NewCapacity(View(), n * 2));
        }
        GrowBuffer(n * 2);
      }
    }

    method WriteBufferEscapeFast(val: seq<byte>, ghost base: seq<byte>, ghost s: Sending)
      requires Holds(base, s)
      modifies this, buf
      ensures (buf == old(buf) || fresh(buf)) && |Escape(None, val)| <= 2 * |val| && (s.held ==> |s.p| > MAX_PAYLOAD)
      ensures Holds(base, NextEscape(s, Escape(None, val), 2 * |val|))
    {
      hide Sends, Escape;
      EscapeLength(None, val);
      SendsFacts(View(), base, s);
      ghost var o, s1 := View(), s;
      if |val| * 2 > buf.Length - pos {
        GrowForEscape(|val|, base, s);
        s1 := s.(room := MAX_PAYLOAD);
        if |val| * 2 > buf.Length - pos {
          ghost var dest := if s.held then CutOff(o) else InFrames(base, s1);
          assert s1.p + [] == s1.p;
          EscapeFilling(val, dest);
          EscapeNotEmpty(None, val);
          return;
        }
      }
      KeptSends(View(), base, s1, Escape(None, val), 2 * |val|);
      EscapeInPlace(val);
    }

    /** Not sure to have room: each byte is preceded by a test for a full buffer. */
    method EscapeFilling(val: seq<byte>, ghost dest: Destination)
      requires Wrote(dest, [], 2 * |val|)
      modifies this, buf
      ensures (buf == old(buf) || fresh(buf)) && Wrote(dest, Escape(None, val), 0)
    {
      hide Wrote, Special, Escape;
      ghost var x: seq<byte> := [];
      assert val[0..] == val;
      for i := 0 to |val|
        invariant Wrote(dest, x, 2 * (|val| - i))
        invariant buf == old(buf) || fresh(buf)
        invariant x + Escape(None, val[i..]) == Escape(None, val)
      {
        PlainStep(val[i..], x);
        if Special(val[i]) {
          PushByte(SLASH, (|val| - i) * 2, 2 * (|val| - i), dest, x);
          x := x + [SLASH];
        }
        MoreRoom(dest, x, 2 * (|val| - i) - 1);
        PushByte(val[i], (|val| - i) * 2, 2 * (|val| - i) - 1, dest, x);
        x := x + [val[i]];
        assert val[i..][1..] == val[i + 1..];
      }
      assert val[|val|..] == [];
      NothingLeft(None, x);
    }

    /** Sure to have room: the buffer is used directly. */
    method EscapeInPlace(val: seq<byte>)
      requires Valid() && pos + 2 * |val| <= buf.Length
      modifies this`pos, buf
      ensures Valid() && View() == Append(old(View()), Escape(None, val))
    {
      hide Special, Escape;
      ghost var o, x: seq<byte> := View(), [];
      assert o.body + x == o.body && val[0..] == val;
      for i := 0 to |val|
        invariant Valid() && View() == Append(o, x) && pos + 2 * (|val| - i) <= buf.Length
        invariant x + Escape(None, val[i..]) == Escape(None, val)
      {
        PlainStep(val[i..], x);
        if Special(val[i]) {
          PutByte(SLASH);
          assert o.body + x + [SLASH] == o.body + (x + [SLASH]);
          x := x + [SLASH];
        }
        PutByte(val[i]);
        assert o.body + x + [val[i]] == o.body + (x + [val[i]]);
        x := x + [val[i]];
        assert val[i..][1..] == val[i + 1..];
      }
      assert val[|val|..] == [];
      NothingLeft(None, x);
    }

    /** `writeBufferEscapeMb` bound to a recognizer. */
    method WriteBufferEscapeMb(mb: Charset, val: seq<byte>, ghost base: seq<byte>, ghost s: Sending)
      requires Holds(base, s)
      modifies this, buf
      ensures buf == old(buf) || fresh(buf)
      ensures |Escape(Some(mb), val)| <= 2 * |val| && (s.held ==> |s.p| > MAX_PAYLOAD)
      ensures Holds(base, NextEscape(s, Escape(Some(mb), val), 2 * |val|))
    {
      hide Sends, Escape;
      EscapeLength(Some(mb), val);
      SendsFacts(View(), base, s);
      ghost var o, dest := View(), Kept(View());
      assert o.body + [] == o.body && s.p + [] == s.p;
      if |val| * 2 > buf.Length - pos {
        GrowForEscape(|val|, base, s);
        dest := if s.held then CutOff(o) else InFrames(base, s.(room := MAX_PAYLOAD));
        EscapeNotEmpty(Some(mb), val);
      } else {
        KeptSends(o, base, s, Escape(Some(mb), val), 2 * |val|);
      }
      EscapeChars(mb, val, dest);
    }

    /** The loop over the characters. */
    method EscapeChars(mb: Charset, val: seq<byte>, ghost dest: Destination)
      requires Wrote(dest, [], 2 * |val|)
      modifies this, buf
      ensures (buf == old(buf) || fresh(buf)) && Wrote(dest, Escape(Some(mb), val), 0)
    {
      hide Wrote, Special, IsHead, Escaping.Length, Escape, CharLen;
      var i := 0;
      ghost var x: seq<byte> := [];
      assert val[0..] == val;
      while i < |val|
        invariant i <= |val| && Wrote(dest, x, 2 * (|val| - i))
        invariant buf == old(buf) || fresh(buf)
        invariant x + Escape(Some(mb), val[i..]) == Escape(Some(mb), val)
      {
        var b := val[i];
        ghost var s := val[i..];
        MbStep(mb, s, x);
        if IsHead(mb, b) {
          var mbLen := Escaping.Length(mb, val, i, |val|);
          LengthShift(mb, val, i);
          if mbLen >= 2 {
            x := CopyChar(val, i, mbLen, dest, x);
            i := i + mbLen;
            assert s[mbLen..] == val[i..];
            continue;
          }
        }
        if IsHead(mb, b) || Special(b) {
          PushByte(SLASH, (|val| - i) * 2, 2 * (|val| - i), dest, x);
          x := x + [SLASH];
        }
        MoreRoom(dest, x, 2 * (|val| - i) - 1);
        PushByte(b, (|val| - i) * 2, 2 * (|val| - i) - 1, dest, x);
        x := x + [b];
        i := i + 1;
        assert s[1..] == val[i..];
      }
      NothingLeft(Some(mb), x);
      assert val[i..] == [];
    }

    lemma MoreRoom(dest: Destination, x: seq<byte>, left: int)
      requires Wrote(dest, x, left) || Wrote(dest, x, left + 1)
      ensures Wrote(dest, x, left)
    {
    }

    /** A multi-byte character goes out as it is. */
    method CopyChar(val: seq<byte>, i: nat, mbLen: nat, ghost dest: Destination, ghost x: seq<byte>)
      returns (ghost x': seq<byte>)
      requires i + mbLen <= |val| && Wrote(dest, x, 2 * (|val| - i))
      modifies this, buf
      ensures (buf == old(buf) || fresh(buf)) && x' == x + val[i..][..mbLen]
      ensures Wrote(dest, x', 2 * (|val| - i - mbLen))
    {
      hide Sends;
      x' := x;
      assert val[i..][..0] == [];
      for j := 0 to mbLen
        invariant (buf == old(buf) || fresh(buf)) && Wrote(dest, x', 2 * (|val| - i) - j)
        invariant x' == x + val[i..][..j]
      {
        PushByte(val[i + j], (|val| - i) * 2, 2 * (|val| - i) - j, dest, x');
        x' := x' + [val[i + j]];
        assert val[i..][..j + 1] == val[i..][..j] + [val[i + j]];
      }
    }

    /** `writeUtf8StringEscapeQuote` writes in place when there is sure to be room. */
    ghost predicate SureRoom(str: seq<u16>)
      requires Valid()
      reads this, buf
    {
      |str| * 3 + 2 < buf.Length - pos
    }

    /** What it puts between the quotes: when there is no such room it escapes an encoded copy. */
    ghost function QuotedText(str: seq<u16>): seq<byte>
      requires Valid()
      reads this, buf
    {
      if SureRoom(str) then InPlace(str) else Escape(None, Utf8Bytes(str))
    }

    /** utf8 is not one of the character sets with a recognizer, so the copy takes the fast escape. */
    method WriteUtf8StringEscapeQuote(str: seq<u16>, ghost base: seq<byte>, ghost s: Sending)
      returns (thrown: bool, ghost r: Sending)
      requires Holds(base, s)
      modifies this, buf
      ensures (buf == old(buf) || fresh(buf)) && (s.held ==> |s.p| > MAX_PAYLOAD)
      ensures |Escape(None, Utf8Bytes(str))| <= 2 * |Utf8Bytes(str)|
      ensures var text := [QUOTE] + InPlace(str) + [QUOTE];
              var next := if old(SureRoom(str)) then NextPart(s, text, 0, |text|)
                          else NextQuoted(s, Escape(None, Utf8Bytes(str)), 2 * |Utf8Bytes(str)|);
              if thrown then next.None? && wire == old(wire) == base else Holds(base, r) && next == Some(r)
      ensures WellFormed(str) ==> old(QuotedText(str)) == Escape(None, Utf8Bytes(str))
    {
      hide Sends, NextPart, NextEscape, Escape, InPlace;
      SendsFacts(View(), base, s);
      EscapeLength(None, Utf8Bytes(str));
      if WellFormed(str) {
        WellFormedAgrees(str);
      }
      if |str| * 3 + 2 >= buf.Length - pos {
        thrown, r := WriteEncodedCopy(str, base, s);
        return;
      }
      ghost var o, text := View(), [QUOTE] + InPlace(str) + [QUOTE];
      InPlaceLength(str);
      InPlaceSends(o, base, s, text);
      PutByte(QUOTE);
      PutText(str);
      PutByte(QUOTE);
      Quoted(o, InPlace(str));
      return false, NextPart(s, text, 0, |text|).value;
    }

    lemma InPlaceSends(o: Out, base: seq<byte>, s: Sending, text: seq<byte>)
      requires Sends(o, base, s) && Pos(o) + |text| <= o.cap
      ensures s.held ==> |s.p| > MAX_PAYLOAD
      ensures NextPart(s, text, 0, |text|).Some?
      ensures Sends(Append(o, text), base, NextPart(s, text, 0, |text|).value)
    {
      hide Sends;
      SendsFacts(o, base, s);
      PartSends(o, base, s, text, 0, |text|);
      FitsAtOnce(o, text);
      assert text[0..|text|] == text;
    }

    method WriteEncodedCopy(str: seq<u16>, ghost base: seq<byte>, ghost s: Sending)
      returns (thrown: bool, ghost r: Sending)
      requires Holds(base, s)
      modifies this, buf
      ensures (buf == old(buf) || fresh(buf)) && (s.held ==> |s.p| > MAX_PAYLOAD)
      ensures |Escape(None, Utf8Bytes(str))| <= 2 * |Utf8Bytes(str)|
      ensures var next := NextQuoted(s, Escape(None, Utf8Bytes(str)), 2 * |Utf8Bytes(str)|);
              if thrown then next.None? && wire == old(wire) == base else Holds(base, r) && next == Some(r)
    {
      hide Sends, NextPart, NextEscape, Escape;
      ghost var o := View();
      SendsFacts(o, base, s);
      var copy := Utf8Bytes(str);
      ghost var text := Escape(None, copy);
      thrown, r := WriteQuote(base, s);
      if thrown {
        EscapeLength(None, copy);
        return;
      }
      WriteBufferEscapeFast(copy, base, r);
      ghost var s2 := NextEscape(r, text, 2 * |copy|);
      thrown, r := WriteQuote(base, s2);
      if thrown {
        ThrownUnsent(o, base, s, text, 2 * |copy|);
      }
    }

    /** `writeInt8(QUOTE)` */
    method WriteQuote(ghost base: seq<byte>, ghost s: Sending) returns (thrown: bool, ghost r: Sending)
      requires Holds(base, s)
      modifies this, buf
      ensures (buf == old(buf) || fresh(buf)) && (s.held ==> |s.p| > MAX_PAYLOAD)
      ensures var next := NextPart(s, [QUOTE], 0, 1);
              if thrown then next.None? && wire == old(wire) == base else Holds(base, r) && next == Some(r)
    {
      hide Sends, Write, NextPart;
      LE1(QUOTE);
      r := s;
      SendsFacts(View(), base, s);
      PartSends(View(), base, s, [QUOTE], 0, 1);
      ghost var next := NextPart(s, [QUOTE], 0, 1);
      ghost var o := View();
      assert [QUOTE][0..1] == [QUOTE];
      thrown := WriteInt(QUOTE, 1);
      if !thrown {
        r := next.value;
      }
    }

    lemma Quoted(o: Out, text: seq<byte>)
      ensures Append(Append(Append(o, [QUOTE]), text), [QUOTE]) == Append(o, [QUOTE] + text + [QUOTE])
    {
      assert o.body + [QUOTE] + text + [QUOTE] == o.body + ([QUOTE] + text + [QUOTE]);
    }

    /** The two loops: a quick one while the characters are ASCII, then one for all characters. */
    method PutText(str: seq<u16>)
      requires Valid() && pos + 3 * |str| <= buf.Length
      modifies this`pos, buf
      ensures Valid() && View() == Append(old(View()), InPlace(str)) && pos == old(pos) + |InPlace(str)|
    {
      hide InPlace, Piece;
      ghost var o := View();
      var i := 0;
      ghost var done: seq<byte> := [];
      assert o.body + [] == o.body && str[0..] == str;
      while i < |str| && str[i] < 0x80
        invariant i <= |str| && Valid() && pos + 3 * (|str| - i) <= buf.Length
        invariant View() == Append(o, done) && done + InPlace(str[i..]) == InPlace(str)
      {
        PieceStep(str[i..], done);
        done := PutPiece(str, i, o, done);
        i := i + 1;
      }
      while i < |str|
        invariant i <= |str| && Valid() && pos + 3 * (|str| - i) <= buf.Length
        invariant View() == Append(o, done) && done + InPlace(str[i..]) == InPlace(str)
      {
        var n := Units(str[i..]);
        PieceStep(str[i..], done);
        done := PutPiece(str, i, o, done);
        assert str[i..][n..] == str[i + n..];
        i := i + n;
      }
      NoText();
      assert str[i..] == [] && done + [] == done;
      assert pos - 4 == |View().body|;
    }

    method PutPiece(str: seq<u16>, i: nat, ghost o: Out, ghost done: seq<byte>) returns (ghost done': seq<byte>)
      requires i < |str| && Valid() && View() == Append(o, done) && pos + 3 * Units(str[i..]) <= buf.Length
      modifies this`pos, buf
      ensures Valid() && done' == done + Piece(str[i..]) && View() == Append(o, done')
      ensures pos <= old(pos) + 3 * Units(str[i..])
    {
      done' := done + Piece(str[i..]);
      Copy(Piece(str[i..]));
      assert o.body + done + Piece(str[i..]) == o.body + done';
    }
  }

  /** Quote, escaped copy, quote. */
  function NextQuoted(s: Sending, x: seq<byte>, worst: nat): Option<Sending>
    requires |x| <= worst && (s.held ==> |s.p| > MAX_PAYLOAD)
  {
    match NextPart(s, [QUOTE], 0, 1)
    case None => None
    case Some(a) =>
      assert a.held ==> |a.p| > MAX_PAYLOAD;
      var b := NextEscape(a, x, worst);
      assert b.held ==> |b.p| > MAX_PAYLOAD;
      NextPart(b, [QUOTE], 0, 1)
  }

  lemma ThrownUnsent(o: Out, base: seq<byte>, s: Sending, x: seq<byte>, worst: nat)
    requires Sends(o, base, s) && |x| <= worst && (s.held ==> |s.p| > MAX_PAYLOAD)
    requires NextQuoted(s, x, worst).None?
    ensures o.wire == base
  {
    hide Sends;
    SendsFacts(o, base, s);
  }

  lemma CutSends(o: Out, r: Out)
    requires Ok(o) && o.seqNo == -1 && !o.after && o.mark.None? && Pos(o) > MAX_BUFFER_SIZE
    requires Ok(r) && r.mark.None? && !r.after && r.cap <= MAX_BUFFER_SIZE && r.seqNo == 0 && r.body == []
    requires r.wire == o.wire + CutFrame(o)
    ensures Sends(r, o.wire, Sending(o.body[..0xffffff], |o.body|, MAX_PAYLOAD, false))
  {
    hide CutFrame;
    SendsCut(o, o.wire, Sending(o.body, MAX_PAYLOAD, OutputModel.Room(o.cap), true), r);
  }

  lemma EscapeNotEmpty(cs: Option<Charset>, val: seq<byte>)
    ensures val != [] ==> Escape(cs, val) != []
  {
  }

  lemma PieceStep(s: seq<u16>, done: seq<byte>)
    requires s != []
    ensures done + InPlace(s) == done + Piece(s) + InPlace(s[Units(s)..])
  {
  }

  lemma NoText()
    ensures InPlace([]) == []
  {
  }

  /** What the bytes of the next character add, in the two escapes. */
  lemma PlainStep(s: seq<byte>, q: seq<byte>)
    requires s != []
    ensures q + Escape(None, s)
            == (if Special(s[0]) then q + [SLASH] else q) + [s[0]] + Escape(None, s[1..])
  {
  }

  lemma MbStep(mb: Charset, s: seq<byte>, q: seq<byte>)
    requires s != []
    ensures var n := if IsHead(mb, s[0]) then Escaping.Length(mb, s, 0, |s|) else 0;
            && (n == 0 || 2 <= n <= |s|)
            && q + Escape(Some(mb), s)
               == if n >= 2 then q + s[..n] + Escape(Some(mb), s[n..])
                  else (if IsHead(mb, s[0]) || Special(s[0]) then q + [SLASH] else q) + [s[0]]
                       + Escape(Some(mb), s[1..])
  {
    MbLength(mb, s);
    hide CharLen, IsHead, Special, Escaping.Length, Escape;
    var n := CharLen(Some(mb), s);
    MbEscape(mb, s);
    if n > 0 {
      assert q + (s[..n] + Escape(Some(mb), s[n..])) == q + s[..n] + Escape(Some(mb), s[n..]);
    } else if IsHead(mb, s[0]) || Special(s[0]) {
      assert q + ([SLASH, s[0]] + Escape(Some(mb), s[1..])) == q + [SLASH] + [s[0]] + Escape(Some(mb), s[1..]);
    } else {
      assert q + ([s[0]] + Escape(Some(mb), s[1..])) == q + [s[0]] + Escape(Some(mb), s[1..]);
    }
  }

  lemma MbEscape(mb: Charset, s: seq<byte>)
    requires s != []
    ensures var n := CharLen(Some(mb), s);
            Escape(Some(mb), s)
            == if n > 0 then s[..n] + Escape(Some(mb), s[n..])
               else if IsHead(mb, s[0]) || Special(s[0]) then [SLASH, s[0]] + Escape(Some(mb), s[1..])
               else [s[0]] + Escape(Some(mb), s[1..])
  {
    hide CharLen, IsHead, Special;
  }

  lemma NothingLeft(cs: Option<Charset>, q: seq<byte>)
    ensures q + Escape(cs, []) == q
  {
  }

  lemma MbLength(mb: Charset, s: seq<byte>)
    requires s != []
    ensures CharLen(Some(mb), s) == if IsHead(mb, s[0]) then Escaping.Length(mb, s, 0, |s|) else 0
  {
    hide IsHead, Escaping.Length;
  }

  lemma LE1(n: byte)
    ensures LE(n, 1) == [n]
  {
    assert LE(0, 0) == [];
  }

  lemma LastFails(o: Out, ws: seq<seq<byte>>, data: seq<byte>)
    requires Goes(o, ws)
    ensures !CanWrite(Writes(o, ws), |data|) ==> Writes(o, ws).wire == o.wire
  {
    hide Write, Goes;
    WritesOne(Writes(o, ws), data);
    if !CanWrite(Writes(o, ws), |data|) {
      FailsUnsent(o, ws, [data]);
    }
  }

  lemma LastWrite(o: Out, ws: seq<seq<byte>>, data: seq<byte>)
    ensures Goes(o, ws + [data]) <==> Goes(o, ws) && CanWrite(Writes(o, ws), |data|)
    ensures Goes(o, ws + [data]) ==> Writes(o, ws + [data]) == Write(Writes(o, ws), data)
  {
    hide Write;
    WritesAppend(o, ws, [data]);
    if Goes(o, ws) {
      WritesOne(Writes(o, ws), data);
    }
  }

  /** The string writer's own way of growing ends where `writeBuffer` does. */
  lemma GrowThenWrite(o: Out, data: seq<byte>)
    requires CanWrite(o, |data|) && !Fits(o, data)
    ensures var g := if o.cap < MAX_BUFFER_SIZE then Grow(o, |data|) else o;
            && (Fits(g, data) ==> Write(o, data) == Append(g, data))
            && (!Fits(g, data) ==> CanWrite(g, |data|) && Write(o, data) == Write(g, data))
  {
    hide Stream;
  }

  lemma LE3(n: nat)
    ensures LE(n, 3) == [n % 256, n / 256 % 256, n / 65536 % 256]
  {
    assert LE(n / 256 / 256, 1) == [n / 256 / 256 % 256];
    assert LE(n / 256, 2) == [n / 256 % 256] + LE(n / 256 / 256, 1);
  }
}
