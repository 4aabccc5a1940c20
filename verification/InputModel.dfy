/** What `onData` does to the receive state, chunk by chunk, written as functions on values, and
    the proof that it reads the stream as the reference does exactly when it can. */
module InputModel {
  import opened Bytes
  import opened Framing

  /** `header` holds the header bytes collected so far (4 once they are all there), `remaining`
      is 0 where the program stores null, and `parts` is the body merged so far. */
  datatype InState = InState(header: seq<byte>, packetLen: nat, remaining: nat,
                             parts: Option<seq<byte>>, seqNo: byte)

  datatype InResult = InResult(st: InState, msgs: seq<Message>)

  const INIT: InState := InState([], 0, 0, None, 0)

  function Reset(st: InState): InState { st.(remaining := 0, header := []) }

  function Prepend(m: seq<Message>, r: InResult): InResult { r.(msgs := m + r.msgs) }

  /** One call: a do-while loop, so the body runs even on an empty chunk. */
  function OnData(st: InState, s: seq<byte>): InResult
    requires |st.header| <= 4
    decreases |s|, 3
  {
    if st.remaining > 0 then Body(st, s, st.remaining)
    else if st.header == [] && |s| >= 4 then
      Body(st.(packetLen := FrameLen(s), seqNo := s[3]), s[4..], FrameLen(s))
    else if |st.header| == 4 then InResult(st, [])
    else
      var k := Min(|s|, 4 - |st.header|);
      var h := st.header + s[..k];
      if |h| < 4 then InResult(st.(header := h), [])
      else Body(st.(header := h, packetLen := FrameLen(h), seqNo := h[3]), s[k..], FrameLen(h))
  }

  function Next(st: InState, s: seq<byte>): InResult
    requires |st.header| <= 4
    decreases |s|, 4
  {
    if s == [] then InResult(st, []) else OnData(st, s)
  }

  /** The part of the loop after the header, `length` being what is left of the frame. */
  function Body(st: InState, s: seq<byte>, length: nat): InResult
    requires |st.header| <= 4
    decreases |s|, if length == 0 then 5 else 2
  {
    if length > 0 then
      if |s| >= length then
        var part := s[..length];
        var all := Merged(st.parts, part);
        if st.packetLen < MAX_PAYLOAD then
          Prepend([Message(all, st.seqNo)],
                  if st.parts.None? then Rows(st, s[length..]) else Next(Reset(st.(parts := None)), s[length..]))
        else Next(Reset(st.(parts := Some(all))), s[length..])
      else InResult(st.(parts := Some(Merged(st.parts, s)), remaining := length - |s|), [])
    else if st.parts.Some? then
      Prepend([Message(st.parts.value, st.seqNo)], Next(Reset(st.(parts := None)), s))
    else Next(st, s)
  }

  /** The inner loop over whole frames, entered after a message that fits one frame. */
  function Rows(st: InState, s: seq<byte>): InResult
    requires |st.header| <= 4
    decreases |s|, 5
  {
    if |s| > 4 then
      var len := FrameLen(s);
      var st1 := st.(packetLen := len, seqNo := s[3]);
      var t := s[4..];
      if |t| < len then InResult(st1.(parts := Some(t), remaining := len - |t|), [])
      else if len < MAX_PAYLOAD then Prepend([Message(t[..len], s[3])], Rows(st1, t[len..]))
      else Next(Reset(st1.(parts := Some(t[..len]))), t[len..])
    else Next(Reset(st), s)
  }

  lemma PrependTwice(a: seq<Message>, b: seq<Message>, r: InResult)
    ensures Prepend(a, Prepend(b, r)) == Prepend(a + b, r)
  {
  }

  /** The three ways through the inner loop. */
  lemma RowsPart(st: InState, s: seq<byte>)
    requires |st.header| <= 4 && |s| > 4 && |s| - 4 < FrameLen(s)
    ensures var len := FrameLen(s);
            Rows(st, s) == InResult(st.(packetLen := len, seqNo := s[3], parts := Some(s[4..]),
                                        remaining := len - |s[4..]|), [])
  {
  }

  lemma RowsEnd(st: InState, s: seq<byte>)
    requires |st.header| <= 4 && |s| <= 4
    ensures Rows(st, s) == Next(Reset(st), s)
  {
  }

  lemma RowsFull(st: InState, s: seq<byte>, part: seq<byte>, tail: seq<byte>)
    requires |st.header| <= 4 && |s| > 4 && s[4..] == part + tail && |part| == FrameLen(s) == MAX_PAYLOAD
    ensures Rows(st, s) == Next(Reset(st.(packetLen := |part|, seqNo := s[3], parts := Some(part))), tail)
  {
    assert s[4..][..|part|] == part && s[4..][|part|..] == tail;
  }

  lemma RowsWhole(ms: seq<Message>, st: InState, s: seq<byte>, part: seq<byte>, tail: seq<byte>)
    requires |st.header| <= 4 && |s| > 4 && s[4..] == part + tail && |part| == FrameLen(s) < MAX_PAYLOAD
    ensures Prepend(ms, Rows(st, s))
            == Prepend(ms + [Message(part, s[3])], Rows(st.(packetLen := |part|, seqNo := s[3]), tail))
  {
    assert s[4..][..|part|] == part && s[4..][|part|..] == tail;
  }

  /** Collecting header bytes one by one: `k` of them complete the header, or all of `s` does not. */
  lemma CollectDone(st: InState, s: seq<byte>, k: nat, h: seq<byte>)
    requires st.remaining == 0 && |st.header| < 4 && (st.header != [] || |s| < 4)
    requires k <= |s| && h == st.header + s[..k] && |h| == 4
    ensures OnData(st, s)
            == Body(st.(header := h, packetLen := FrameLen(h), seqNo := h[3]), s[k..], FrameLen(h))
  {
  }

  lemma CollectStuck(st: InState, s: seq<byte>)
    requires st.remaining == 0 && |st.header| == 4
    ensures OnData(st, s) == InResult(st, [])
  {
  }

  lemma CollectMore(st: InState, s: seq<byte>)
    requires st.remaining == 0 && |st.header| + |s| < 4
    ensures OnData(st, s) == InResult(st.(header := st.header + s), [])
  {
    assert s[..|s|] == s;
  }

  lemma {:induction false} OnDataHeader(st: InState, s: seq<byte>)
    requires |st.header| <= 4
    ensures |OnData(st, s).st.header| <= 4
    decreases |s|, 3
  {
    if st.remaining > 0 {
      BodyHeader(st, s, st.remaining);
    } else if st.header == [] && |s| >= 4 {
      BodyHeader(st.(packetLen := FrameLen(s), seqNo := s[3]), s[4..], FrameLen(s));
    } else if |st.header| < 4 {
      var k := Min(|s|, 4 - |st.header|);
      var h := st.header + s[..k];
      if |h| == 4 {
        BodyHeader(st.(header := h, packetLen := FrameLen(h), seqNo := h[3]), s[k..], FrameLen(h));
      }
    }
  }

  lemma {:induction false} BodyHeader(st: InState, s: seq<byte>, length: nat)
    requires |st.header| <= 4
    ensures |Body(st, s, length).st.header| <= 4
    decreases |s|, if length == 0 then 5 else 2
  {
    if length > |s| {
    } else {
      var t := s[length..];
      if t != [] {
        OnDataHeader(st, t);
        OnDataHeader(Reset(st.(parts := None)), t);
        OnDataHeader(Reset(st.(parts := Some(Merged(st.parts, s[..length])))), t);
      }
      if length > 0 {
        RowsHeader(st, t);
      }
    }
  }

  lemma {:induction false} RowsHeader(st: InState, s: seq<byte>)
    requires |st.header| <= 4
    ensures |Rows(st, s).st.header| <= 4
    decreases |s|, 5
  {
    if |s| > 4 {
      var len := FrameLen(s);
      var st1 := st.(packetLen := len, seqNo := s[3]);
      var t := s[4..];
      if |t| >= len {
        RowsHeader(st1, t[len..]);
        OnDataHeader(Reset(st1.(parts := Some(t[..len]))), t[len..]);
      }
    } else {
      OnDataHeader(Reset(st), s);
    }
  }

  // ---------- what a state stands for ----------

  /** `st` has read whole frames that leave `open`, then the bytes `p` of an unfinished frame. */
  predicate Rep(st: InState, open: Option<seq<byte>>, p: seq<byte>) {
    if |p| < 4 then st.remaining == 0 && st.header == p && st.parts == open
    else
      && |st.header| <= 4
      && !Complete(p)
      && st.remaining == 4 + FrameLen(p) - |p|
      && st.packetLen == FrameLen(p)
      && st.seqNo == p[3]
      && st.parts == Some(Merged(open, p[4..]))
  }

  predicate Agrees(r: InResult, sc: Scan) {
    r.msgs == sc.msgs && Rep(r.st, sc.open, sc.rest)
  }

  /** `Body` is about to read the rest of the frame that starts with `q`. */
  predicate InFrame(st: InState, open: Option<seq<byte>>, q: seq<byte>, length: nat) {
    && |q| >= 4 && |st.header| <= 4
    && |q| <= 4 + FrameLen(q)
    && length == 4 + FrameLen(q) - |q|
    && st.packetLen == FrameLen(q)
    && st.seqNo == q[3]
    && ((|q| == 4 && st.parts == open) || (length > 0 && st.parts == Some(Merged(open, q[4..]))))
  }

  lemma FrameOf(q: seq<byte>, s: seq<byte>)
    requires |q| >= 4 && |q| <= 4 + FrameLen(q) <= |q| + |s|
    ensures var n := 4 + FrameLen(q) - |q|;
            && Complete(q + s) && FrameLen(q + s) == FrameLen(q)
            && FirstFrame(q + s) == Frame(q[4..] + s[..n], q[3]) && AfterFrame(q + s) == s[n..]
  {
    var n := 4 + FrameLen(q) - |q|;
    assert (q + s)[4..4 + FrameLen(q)] == q[4..] + s[..n];
  }

  lemma {:induction false} OnDataAgrees(st: InState, open: Option<seq<byte>>, p: seq<byte>, s: seq<byte>)
    requires Rep(st, open, p) && !Complete(p)
    requires !HasStrayEmptyFrame(open, p + s)
    ensures Agrees(OnData(st, s), ScanBytes(open, p + s))
    decreases |s|, 3
  {
    if st.remaining > 0 {
      BodyAgrees(st, open, p, s, st.remaining);
    } else if p == [] && |s| >= 4 {
      assert p + s == s == s[..4] + s[4..];
      BodyAgrees(st.(packetLen := FrameLen(s), seqNo := s[3]), open, s[..4], s[4..], FrameLen(s));
    } else {
      var k := Min(|s|, 4 - |st.header|);
      var h := st.header + s[..k];
      if |h| < 4 {
        assert p + s == h;
      } else {
        assert p + s == h + s[k..];
        BodyAgrees(st.(header := h, packetLen := FrameLen(h), seqNo := h[3]), open, h, s[k..], FrameLen(h));
      }
    }
  }

  lemma {:induction false} NextAgrees(st: InState, open: Option<seq<byte>>, s: seq<byte>)
    requires Rep(st, open, []) && !HasStrayEmptyFrame(open, s)
    ensures Agrees(Next(st, s), ScanBytes(open, s))
    decreases |s|, 4
  {
    assert [] + s == s;
    if s != [] {
      OnDataAgrees(st, open, [], s);
    }
  }

  lemma {:induction false} BodyAgrees(st: InState, open: Option<seq<byte>>, q: seq<byte>, s: seq<byte>, length: nat)
    requires InFrame(st, open, q, length)
    requires !HasStrayEmptyFrame(open, q + s)
    ensures Agrees(Body(st, s, length), ScanBytes(open, q + s))
    decreases |s|, if length == 0 then 5 else 2
  {
    if |s| >= length {
      var f, all, tail := WholeFrame(st, open, q, s, length);
      ScanStep(open, q + s);
      if length == 0 {
        NextAgrees(Reset(st.(parts := None)), None, s);
      } else if st.packetLen < MAX_PAYLOAD {
        if st.parts.None? {
          RowsAgrees(st, tail);
        } else {
          NextAgrees(Reset(st.(parts := None)), None, tail);
        }
      } else {
        NextAgrees(Reset(st.(parts := Some(all))), Some(all), tail);
      }
    } else {
      PartFrame(st, open, q, s, length);
    }
  }

  /** The rest of the frame is there: `all` is what the frame adds to what was open. */
  lemma WholeFrame(st: InState, open: Option<seq<byte>>, q: seq<byte>, s: seq<byte>, length: nat)
    returns (f: Frame, all: seq<byte>, tail: seq<byte>)
    requires InFrame(st, open, q, length) && |s| >= length
    requires !HasStrayEmptyFrame(open, q + s)
    ensures Complete(q + s) && f == FirstFrame(q + s) && tail == AfterFrame(q + s) == s[length..]
    ensures all == Merged(st.parts, s[..length]) == Merged(open, f.payload)
    ensures |f.payload| == st.packetLen && f.seqNo == st.seqNo
    ensures length == 0 ==> st.parts.Some? && all == st.parts.value && tail == s && st.packetLen < MAX_PAYLOAD
    ensures !HasStrayEmptyFrame(NextOpen(open, f), tail)
  {
    FrameOf(q, s);
    f := FirstFrame(q + s);
    tail := s[length..];
    all := Merged(st.parts, s[..length]);
    MergedTwice(open, q[4..], s[..length]);
  }

  lemma PartFrame(st: InState, open: Option<seq<byte>>, q: seq<byte>, s: seq<byte>, length: nat)
    requires InFrame(st, open, q, length) && |s| < length
    ensures Agrees(Body(st, s, length), ScanBytes(open, q + s))
  {
    assert (q + s)[4..] == q[4..] + s;
    MergedTwice(open, q[4..], s);
  }

  lemma {:induction false} RowsAgrees(st: InState, s: seq<byte>)
    requires |st.header| <= 4 && st.parts.None? && !HasStrayEmptyFrame(None, s)
    ensures Agrees(Rows(st, s), ScanBytes(None, s))
    decreases |s|, 5
  {
    if |s| > 4 {
      var len := FrameLen(s);
      var st1 := st.(packetLen := len, seqNo := s[3]);
      var t := s[4..];
      if |t| >= len {
        assert FirstFrame(s).payload == t[..len] && AfterFrame(s) == t[len..];
        if len < MAX_PAYLOAD {
          RowsAgrees(st1, t[len..]);
        } else {
          NextAgrees(Reset(st1.(parts := Some(t[..len]))), Some(t[..len]), t[len..]);
        }
      }
    } else {
      NextAgrees(Reset(st), None, s);
    }
  }

  // ---------- whole streams, cut into chunks ----------

  /** The chunks of a connection's life, in order. */
  function Feed(st: InState, chunks: seq<seq<byte>>): InResult
    requires |st.header| <= 4
    decreases |chunks|
  {
    if chunks == [] then InResult(st, [])
    else
      var r := OnData(st, chunks[0]);
      OnDataHeader(st, chunks[0]);
      Prepend(r.msgs, Feed(r.st, chunks[1..]))
  }

  lemma {:induction false} FeedAgrees(st: InState, open: Option<seq<byte>>, p: seq<byte>, chunks: seq<seq<byte>>)
    requires Rep(st, open, p) && !Complete(p)
    requires !HasStrayEmptyFrame(open, p + Flatten(chunks))
    ensures Agrees(Feed(st, chunks), ScanBytes(open, p + Flatten(chunks)))
    decreases |chunks|
  {
    if chunks == [] {
      assert p + Flatten(chunks) == p;
    } else {
      var c, more := chunks[0], chunks[1..];
      assert p + Flatten(chunks) == (p + c) + Flatten(more);
      StrayAppend(open, p + c, Flatten(more));
      ScanAppend(open, p + c, Flatten(more));
      OnDataAgrees(st, open, p, c);
      var a := ScanBytes(open, p + c);
      RestIncomplete(open, p + c);
      FeedAgrees(OnData(st, c).st, a.open, a.rest, more);
    }
  }

  lemma {:induction false} RestIncomplete(open: Option<seq<byte>>, s: seq<byte>)
    ensures !Complete(ScanBytes(open, s).rest)
    decreases |s|
  {
    if Complete(s) {
      RestIncomplete(NextOpen(open, FirstFrame(s)), AfterFrame(s));
    }
  }

  /** Where the first stray empty frame starts: everything before it is whole messages. */
  lemma {:induction false} FirstStray(open: Option<seq<byte>>, s: seq<byte>) returns (i: nat)
    requires HasStrayEmptyFrame(open, s)
    ensures i + 4 <= |s| && FrameLen(s[i..]) == 0
    ensures !HasStrayEmptyFrame(open, s[..i])
    ensures ScanBytes(open, s[..i]).open == None && ScanBytes(open, s[..i]).rest == []
    decreases |s|
  {
    hide FrameLen, FirstFrame, NextOpen, Emitted;
    if FrameLen(s) == 0 && open.None? {
      i := 0;
      assert s[0..] == s;
    } else {
      var j := FirstStray(NextOpen(open, FirstFrame(s)), AfterFrame(s));
      i := 4 + FrameLen(s) + j;
      PrefixAfterFrame(open, s, j);
    }
  }

  lemma PrefixAfterFrame(open: Option<seq<byte>>, s: seq<byte>, j: nat)
    requires Complete(s) && j <= |AfterFrame(s)|
    ensures var t, p, next := AfterFrame(s), s[..4 + FrameLen(s) + j], NextOpen(open, FirstFrame(s));
            && s[4 + FrameLen(s) + j..] == t[j..]
            && Complete(p) && FrameLen(p) == FrameLen(s)
            && FirstFrame(p) == FirstFrame(s) && AfterFrame(p) == t[..j]
  {
    var n := 4 + FrameLen(s);
    assert s[..n + j] == s[..n] + AfterFrame(s)[..j];
    CompleteAppend(s[..n], AfterFrame(s)[..j]);
    assert s == s[..n] + AfterFrame(s);
    CompleteAppend(s[..n], AfterFrame(s));
  }

  /** Once a header has been completed byte by byte for an empty frame that continues nothing,
      the header buffer stays full and nothing is ever read again. */
  lemma {:induction false} Stuck(st: InState, chunks: seq<seq<byte>>)
    requires |st.header| == 4 && st.remaining == 0
    ensures Feed(st, chunks) == InResult(st, [])
  {
    if chunks != [] {
      assert OnData(st, chunks[0]) == InResult(st, []);
      Stuck(st, chunks[1..]);
    }
  }

  lemma FlattenThree<T>(a: seq<T>, b: seq<T>, c: seq<T>)
    ensures Flatten([a, b, c]) == a + (b + c)
  {
    assert [a, b, c][1..] == [b, c] && [b, c][1..] == [c] && [c][1..] == [];
    assert Flatten([c]) == c;
    assert Flatten([b, c]) == b + c;
  }

  lemma FeedThree(st: InState, a: seq<byte>, b: seq<byte>, c: seq<byte>, ra: InResult, rb: InResult, rc: InResult)
    requires |st.header| <= 4 && ra == OnData(st, a)
    requires |ra.st.header| <= 4 && rb == OnData(ra.st, b)
    requires |rb.st.header| <= 4 && rc == OnData(rb.st, c) && |rc.st.header| <= 4
    ensures Feed(st, [a, b, c]).msgs == ra.msgs + (rb.msgs + rc.msgs) && Feed(st, [a, b, c]).st == rc.st
  {
    assert [a, b, c][1..] == [b, c] && [b, c][1..] == [c];
    assert Feed(rc.st, []) == InResult(rc.st, []);
    assert Feed(rb.st, [c]).msgs == rc.msgs && Feed(rb.st, [c]).st == rc.st;
    assert Feed(ra.st, [b, c]).msgs == rb.msgs + rc.msgs && Feed(ra.st, [b, c]).st == rc.st;
  }

  lemma {:induction false} FeedAppend(st: InState, a: seq<seq<byte>>, b: seq<seq<byte>>)
    requires |st.header| <= 4
    ensures |Feed(st, a).st.header| <= 4
    ensures Feed(st, a + b) == Prepend(Feed(st, a).msgs, Feed(Feed(st, a).st, b))
    decreases |a|
  {
    hide OnData;
    if a == [] {
      assert a + b == b;
    } else {
      assert (a + b)[1..] == a[1..] + b;
      OnDataHeader(st, a[0]);
      FeedAppend(OnData(st, a[0]).st, a[1..], b);
      PrependTwice(OnData(st, a[0]).msgs, Feed(OnData(st, a[0]).st, a[1..]).msgs,
                   Feed(Feed(st, a).st, b));
    }
  }

  /** A stream with a stray empty frame, cut one byte into that frame's header: at least one message
      is lost, and nothing is delivered whatever chunks follow. */
  lemma StrayLosesMessage(s: seq<byte>) returns (chunks: seq<seq<byte>>)
    requires HasStrayEmptyFrame(None, s)
    ensures Flatten(chunks) == s
    ensures |Feed(INIT, chunks).msgs| < |ScanBytes(None, s).msgs|
    ensures forall more: seq<seq<byte>> :: Feed(INIT, chunks + more).msgs == Feed(INIT, chunks).msgs
  {
    hide HasStrayEmptyFrame, ScanBytes, Feed, FrameLen, Flatten;
    var i := FirstStray(None, s);
    StrayCounts(s, i);
    chunks := [s[..i], s[i..i + 1], s[i + 1..]];
    assert s == s[..i] + (s[i..i + 1] + s[i + 1..]);
    FlattenThree(s[..i], s[i..i + 1], s[i + 1..]);
    CutHeader(s[..i], s[i..i + 1], s[i + 1..]);
    forall more: seq<seq<byte>>
      ensures Feed(INIT, chunks + more).msgs == Feed(INIT, chunks).msgs
    {
      StuckFor(chunks, more);
    }
  }

  lemma StuckFor(chunks: seq<seq<byte>>, more: seq<seq<byte>>)
    requires |Feed(INIT, chunks).st.header| == 4 && Feed(INIT, chunks).st.remaining == 0
    ensures Feed(INIT, chunks + more).msgs == Feed(INIT, chunks).msgs
  {
    hide Feed;
    FeedAppend(INIT, chunks, more);
    Stuck(Feed(INIT, chunks).st, more);
  }

  lemma CutHeader(before: seq<byte>, head: seq<byte>, after: seq<byte>)
    requires !HasStrayEmptyFrame(None, before)
    requires ScanBytes(None, before).open == None && ScanBytes(None, before).rest == []
    requires |head| == 1 && |after| >= 3 && FrameLen(head + after) == 0
    ensures var r := Feed(INIT, [before, head, after]);
            r.msgs == ScanBytes(None, before).msgs && |r.st.header| == 4 && r.st.remaining == 0
  {
    assert [] + before == before;
    OnDataAgrees(INIT, None, [], before);
    var ra := OnData(INIT, before);
    var rb := OnData(ra.st, head);
    CollectMore(ra.st, head);
    assert [] + head == head;
    StuckHere(rb.st, after, head + after);
    OnDataHeader(rb.st, after);
    FeedThree(INIT, before, head, after, ra, rb, OnData(rb.st, after));
  }

  lemma StrayCounts(s: seq<byte>, i: nat)
    requires i + 4 <= |s| && FrameLen(s[i..]) == 0
    requires ScanBytes(None, s[..i]).open == None && ScanBytes(None, s[..i]).rest == []
    ensures |ScanBytes(None, s[..i]).msgs| < |ScanBytes(None, s).msgs|
  {
    hide ScanBytes, FrameLen;
    ScanAppend(None, s[..i], s[i..]);
    assert s[..i] + s[i..] == s && [] + s[i..] == s[i..];
    ScanStep(None, s[i..]);
  }

  lemma StuckHere(st: InState, after: seq<byte>, frame: seq<byte>)
    requires st.remaining == 0 && |st.header| == 1 && st.parts.None?
    requires |frame| >= 4 && frame == st.header + after && FrameLen(frame) == 0
    ensures var r := OnData(st, after);
            r.msgs == [] && |r.st.header| == 4 && r.st.remaining == 0
  {
    var h := st.header + after[..3];
    assert h == frame[..4];
    var st1 := st.(header := h, packetLen := FrameLen(h), seqNo := h[3]);
    assert Min(|after|, 4 - |st.header|) == 3;
    assert OnData(st, after) == Body(st1, after[3..], 0);
    assert Body(st1, after[3..], 0) == Next(st1, after[3..]);
  }

  /** Delivery does not depend on how the socket cuts the stream, and is what the reference
      reads, exactly for the streams without a stray empty frame. */
  lemma ChunkingIndependence(s: seq<byte>)
    ensures (forall chunks: seq<seq<byte>> | Flatten(chunks) == s :: Feed(INIT, chunks).msgs == ScanBytes(None, s).msgs)
            <==> !HasStrayEmptyFrame(None, s)
  {
    if HasStrayEmptyFrame(None, s) {
      var chunks := StrayLosesMessage(s);
    } else {
      forall chunks: seq<seq<byte>> | Flatten(chunks) == s
        ensures Feed(INIT, chunks).msgs == ScanBytes(None, s).msgs
      {
        assert [] + s == s;
        FeedAgrees(INIT, None, [], chunks);
      }
    }
  }

  // ---------- round trip ----------

  /** The frames written for any non-empty payloads, however the socket cuts them, come out of
      `onData` as those payloads, whole and in order. */
  lemma WireRoundTrip(payloads: seq<seq<byte>>, chunks: seq<seq<byte>>)
    requires [] !in payloads && Flatten(chunks) == EncodeAll(payloads)
    ensures Feed(INIT, chunks).msgs == ReadBack(payloads)
  {
    ScanEncodeAll(payloads);
    assert [] + Flatten(chunks) == Flatten(chunks);
    FeedAgrees(INIT, None, [], chunks);
  }

  /** One stray empty frame between two messages, and three cuts with three outcomes: the empty
      frame is skipped, delivered as an empty message, or it blocks everything behind it. */
  lemma StrayEmptyFrameExample()
    ensures OnData(INIT, [1, 0, 0, 0, 7]) == InResult(INIT.(packetLen := 1), [Message([7], 0)])
    ensures OnData(INIT.(packetLen := 1), [0, 0, 0, 1, 1, 0, 0, 2, 8]).msgs == [Message([8], 2)]
    ensures OnData(INIT, [1, 0, 0, 0, 7, 0, 0, 0, 1, 1, 0, 0, 2, 8]).msgs
            == [Message([7], 0), Message([], 1), Message([8], 2)]
    ensures Feed(INIT, [[0], [0, 0, 1], [1, 0, 0, 2, 8]]).msgs == []
  {
    hide OnData, Feed;
    var a: seq<byte>, b: seq<byte> := [1, 0, 0, 0, 7], [1, 0, 0, 2, 8];
    var eb: seq<byte>, aeb: seq<byte> := [0, 0, 0, 1, 1, 0, 0, 2, 8], [1, 0, 0, 0, 7, 0, 0, 0, 1, 1, 0, 0, 2, 8];
    ExampleOne(INIT, a, 7, 0);
    ExampleSkipped(eb, b);
    ExampleRows(aeb, eb, b);
    ExampleStuck();
  }

  lemma ExampleSkipped(eb: seq<byte>, b: seq<byte>)
    requires eb == [0, 0, 0, 1] + b && b == [1, 0, 0, 2, 8]
    ensures OnData(INIT.(packetLen := 1), eb).msgs == [Message([8], 2)]
  {
    var st := INIT.(packetLen := 0, seqNo := 1);
    assert eb[4..] == b && FrameLen(eb) == 0;
    ExampleOne(st, b, 8, 2);
    assert OnData(INIT.(packetLen := 1), eb) == Body(st, b, 0) == Next(st, b) == OnData(st, b);
  }

  lemma ExampleOne(st: InState, s: seq<byte>, x: byte, n: byte)
    requires s == [1, 0, 0, n, x] && st.header == [] && st.remaining == 0 && st.parts.None?
    ensures OnData(st, s) == InResult(st.(packetLen := 1, seqNo := n), [Message([x], n)])
  {
    var st1 := st.(packetLen := 1, seqNo := n);
    assert s[4..] == [x] && [x][..1] == [x] && [x][1..] == [];
    assert OnData(st, s) == Body(st1, [x], 1);
    assert Rows(st1, []) == InResult(st1, []);
  }

  lemma ExampleRows(aeb: seq<byte>, eb: seq<byte>, b: seq<byte>)
    requires aeb == [1, 0, 0, 0, 7] + eb && eb == [0, 0, 0, 1] + b && b == [1, 0, 0, 2, 8]
    ensures OnData(INIT, aeb).msgs == [Message([7], 0), Message([], 1), Message([8], 2)]
  {
    var st1 := INIT.(packetLen := 1);
    var st2, st3 := st1.(packetLen := 0, seqNo := 1), st1.(seqNo := 2);
    assert aeb[4..][..1] == [7] && aeb[4..][1..] == eb && eb[4..][..0] == [] && eb[4..][0..] == b;
    assert b[4..] == [8] && [8][..1] == [8] && [8][1..] == [];
    assert Rows(st3, []) == InResult(st3, []);
    assert Rows(st2, b).msgs == [Message([8], 2)];
    assert Rows(st1, eb).msgs == [Message([], 1)] + Rows(st2, b).msgs;
    assert OnData(INIT, aeb) == Body(st1, aeb[4..], 1);
  }

  lemma ExampleStuck()
    ensures Feed(INIT, [[0], [0, 0, 1], [1, 0, 0, 2, 8]]).msgs == []
  {
    var st1 := INIT.(header := [0]);
    var a: seq<byte>, b: seq<byte>, c: seq<byte> := [0], [0, 0, 1], [1, 0, 0, 2, 8];
    assert [] + a[..1] == [0];
    assert OnData(INIT, a) == InResult(st1, []);
    assert [0] + b[..3] == [0, 0, 0, 1];
    var st2 := st1.(header := [0, 0, 0, 1], packetLen := 0, seqNo := 1);
    assert OnData(st1, b) == Body(st2, b[3..], 0) == InResult(st2, []);
    FeedThree(INIT, a, b, c, InResult(st1, []), InResult(st2, []), InResult(st2, []));
  }
}
