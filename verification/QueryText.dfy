/** Where the pieces of a query and the texts of its values stand in what is sent, and the bytes of a
    literal. */
module QueryText {
  import opened Bytes
  import opened Escaping
  import opened Placeholders
  import opened QueryParams
  import opened SqlTokens
  import opened Utf8

  // ---------- where everything stands ----------

  /** By how much the first `k` texts are longer than their question marks. */
  function Shift(texts: seq<seq<byte>>, k: nat): int
    requires k <= |texts|
  {
    if k == 0 then 0 else Shift(texts, k - 1) + |texts[k - 1]| - 1
  }

  lemma {:induction false} UptoLength(sql: seq<byte>, pos: seq<nat>, texts: seq<seq<byte>>, n: nat)
    requires Spans(sql, pos) && 2 * n <= |pos| && n <= |texts|
    ensures |Upto(sql, pos, texts, n)| == EndOf(pos, n) + Shift(texts, n)
    decreases n
  {
    hide Spans, Upto;
    UptoNext(sql, pos, texts, n);
    if n > 0 {
      UptoLength(sql, pos, texts, n - 1);
      OnMark(sql, pos, n - 1);
    }
  }

  /** The k-th text stands in the place of the k-th question mark, moved by the texts before it, and the
      bytes in front of it, back to the placeholder before, are those of the query. */
  lemma TextStands(sql: seq<byte>, pos: seq<nat>, texts: seq<seq<byte>>, k: nat)
    requires Spans(sql, pos) && k < |pos| / 2 <= |texts|
    ensures var sent := Substituted(sql, pos, texts);
            var from, at := EndOf(pos, k) + Shift(texts, k), pos[2 * k] + Shift(texts, k);
            && EndOf(pos, k) <= pos[2 * k] <= |sql| && 0 <= from <= at && at + |texts[k]| <= |sent|
            && sent[from..at] == sql[EndOf(pos, k)..pos[2 * k]]
            && sent[at..at + |texts[k]|] == texts[k]
  {
    hide Spans, Upto, EndOf, Substituted;
    var n := |pos| / 2;
    InFront(sql, pos, texts, k);
    UptoLength(sql, pos, texts, k);
    SubstitutedIs(sql, pos, texts);
    Slices(Upto(sql, pos, texts, k), sql[EndOf(pos, k)..pos[2 * k]], texts[k], Upto(sql, pos, texts, n),
           sql[EndOf(pos, n)..]);
  }

  /** The query up to a placeholder, and its text, begin what is sent up to the last one. */
  lemma InFront(sql: seq<byte>, pos: seq<nat>, texts: seq<seq<byte>>, k: nat)
    requires Spans(sql, pos) && k < |pos| / 2 <= |texts|
    ensures EndOf(pos, k) <= pos[2 * k] <= |sql|
    ensures Upto(sql, pos, texts, k) + sql[EndOf(pos, k)..pos[2 * k]] + texts[k] <= Upto(sql, pos, texts, |pos| / 2)
  {
    hide Spans, Upto, EndOf;
    OneText(sql, pos, texts, k);
    UptoGrows(sql, pos, texts, k + 1, |pos| / 2);
  }

  lemma OneText(sql: seq<byte>, pos: seq<nat>, texts: seq<seq<byte>>, k: nat)
    requires Spans(sql, pos) && k < |pos| / 2 <= |texts|
    ensures EndOf(pos, k) <= pos[2 * k] <= |sql|
    ensures Upto(sql, pos, texts, k + 1) == Upto(sql, pos, texts, k) + sql[EndOf(pos, k)..pos[2 * k]] + texts[k]
  {
    hide Spans, EndOf;
    SpanBounds(sql, pos, k);
  }

  lemma SubstitutedIs(sql: seq<byte>, pos: seq<nat>, texts: seq<seq<byte>>)
    requires Spans(sql, pos) && |pos| / 2 <= |texts|
    ensures EndOf(pos, |pos| / 2) <= |sql|
    ensures Substituted(sql, pos, texts) == Upto(sql, pos, texts, |pos| / 2) + sql[EndOf(pos, |pos| / 2)..]
  {
    hide Spans, Upto, EndOf;
    SpanBounds(sql, pos, |pos| / 2);
  }

  lemma Slices(a: seq<byte>, piece: seq<byte>, text: seq<byte>, b: seq<byte>, end: seq<byte>)
    requires a + piece + text <= b
    ensures (b + end)[|a|..|a| + |piece|] == piece
    ensures (b + end)[|a| + |piece|..|a| + |piece| + |text|] == text
  {
    var c := a + piece + text;
    assert (b + end)[..|c|] == c;
    assert c[|a|..|a| + |piece|] == piece && c[|a| + |piece|..] == text;
    assert (b + end)[|a|..|a| + |piece|] == (b + end)[..|c|][|a|..|a| + |piece|];
    assert (b + end)[|a| + |piece|..|c|] == (b + end)[..|c|][|a| + |piece|..];
  }

  /** What follows the last placeholder ends the text. */
  lemma EndStands(sql: seq<byte>, pos: seq<nat>, texts: seq<seq<byte>>)
    requires Spans(sql, pos) && |pos| / 2 <= |texts|
    ensures var n, sent := |pos| / 2, Substituted(sql, pos, texts);
            && EndOf(pos, n) <= |sql| && |sent| == |sql| + Shift(texts, n)
            && 0 <= EndOf(pos, n) + Shift(texts, n) <= |sent|
            && sent[EndOf(pos, n) + Shift(texts, n)..] == sql[EndOf(pos, n)..]
  {
    hide Spans, Upto, EndOf;
    SpanBounds(sql, pos, |pos| / 2);
    UptoLength(sql, pos, texts, |pos| / 2);
  }

  /** The bytes of the literals of a quote: of a buffer, and of a string. */
  lemma LiteralBytes()
    ensures TextOf(None, Buf([0x27]), [[0x27]]) == Ascii("_BINARY '\\''")
    ensures TextOf(None, Text([0x27]), [Utf8Bytes([0x27])]) == Ascii("'\\''")
  {
    assert Escape(None, [0x27][1..]) == [] && Escape(None, [0x27]) == [SLASH, 0x27];
    assert [[0x27]][1..] == [] && EscapeAll(None, []) == [] && EscapeAll(None, [[0x27]]) == [SLASH, 0x27];
    assert CodePoints([0x27][1..]) == [] && CodePoints([0x27]) == [0x27] && Utf8Bytes([0x27]) == [0x27];
    assert Literal(None, [[0x27]]) == [QUOTE, SLASH, QUOTE, QUOTE] == Ascii("'\\''");
    assert BINARY == Ascii("_BINARY ");
  }
}
