/** Strings, quoted names and comments in SQL text: where they end, told by their bytes alone. */
module SqlTokens {
  import opened Bytes

  const SLASH_BYTE: byte := 0x2f
  const STAR_BYTE: byte := 0x2a
  const HASH_BYTE: byte := 0x23
  const MINUS_BYTE: byte := 0x2d
  const LINE_FEED_BYTE: byte := 0x0a
  const DBL_QUOTE_BYTE: byte := 0x22
  const QUOTE_BYTE: byte := 0x27
  const BACKSLASH_BYTE: byte := 0x5c
  const RADICAL_BYTE: byte := 0x60
  const SEMICOLON_BYTE: byte := 0x3b

  /** The bytes of an ASCII text. */
  function Ascii(text: string): (s: seq<byte>)
    ensures |s| == |text|
  {
    seq(|text|, i requires 0 <= i < |text| => text[i] as int % 256)
  }

  /** Behind the first `c` at or behind `i`, or the end. */
  function Behind(q: seq<byte>, i: nat, c: byte): (e: nat)
    requires i <= |q|
    ensures i <= e <= |q|
    decreases |q| - i
  {
    if i == |q| then i else if q[i] == c then i + 1 else Behind(q, i + 1, c)
  }

  /** Behind the quote that closes a string: a backslash takes the byte behind it along. */
  function StringEnd(q: seq<byte>, i: nat, quote: byte): (e: nat)
    requires i <= |q|
    ensures i <= e <= |q|
    decreases |q| - i
  {
    if i == |q| then i
    else if q[i] == BACKSLASH_BYTE then (if i + 1 == |q| then |q| else StringEnd(q, i + 2, quote))
    else if q[i] == quote then i + 1
    else StringEnd(q, i + 1, quote)
  }

  /** Behind the first star and slash at or behind `i`, or the end. */
  function CommentEnd(q: seq<byte>, i: nat): (e: nat)
    requires i <= |q|
    ensures i <= e <= |q|
    decreases |q| - i
  {
    if i + 1 >= |q| then |q|
    else if q[i] == STAR_BYTE && q[i + 1] == SLASH_BYTE then i + 2
    else CommentEnd(q, i + 1)
  }

  lemma {:induction false} BehindLocal(q: seq<byte>, p: seq<byte>, n: nat, i: nat, c: byte)
    requires i <= n <= |q| && n <= |p| && q[..n] == p[..n]
    requires Behind(q, i, c) <= n && Behind(q, i, c) < |q|
    ensures Behind(p, i, c) == Behind(q, i, c)
    decreases n - i
  {
    assert i < n && q[..n][i] == p[..n][i];
    if q[i] != c {
      BehindLocal(q, p, n, i + 1, c);
    }
  }

  lemma {:induction false} StringEndLocal(q: seq<byte>, p: seq<byte>, n: nat, i: nat, c: byte)
    requires i <= n <= |q| && n <= |p| && q[..n] == p[..n]
    requires StringEnd(q, i, c) <= n && StringEnd(q, i, c) < |q|
    ensures StringEnd(p, i, c) == StringEnd(q, i, c)
    decreases n - i
  {
    assert i < n && q[..n][i] == p[..n][i];
    if q[i] == BACKSLASH_BYTE {
      StringEndLocal(q, p, n, i + 2, c);
    } else if q[i] != c {
      StringEndLocal(q, p, n, i + 1, c);
    }
  }

  lemma {:induction false} CommentEndLocal(q: seq<byte>, p: seq<byte>, n: nat, i: nat)
    requires i <= n <= |q| && n <= |p| && q[..n] == p[..n]
    requires CommentEnd(q, i) <= n && CommentEnd(q, i) < |q|
    ensures CommentEnd(p, i) == CommentEnd(q, i)
    decreases n - i
  {
    assert i + 1 < n && q[..n][i] == p[..n][i] && q[..n][i + 1] == p[..n][i + 1];
    if !(q[i] == STAR_BYTE && q[i + 1] == SLASH_BYTE) {
      CommentEndLocal(q, p, n, i + 1);
    }
  }

  /** The slash of the first star and slash at or behind `i`, or the end. */
  function CommentSlash(q: seq<byte>, i: nat): (e: nat)
    requires i <= |q|
    ensures i <= e <= |q|
    ensures e < |q| ==> i < e
    decreases |q| - i
  {
    if i + 1 >= |q| then |q|
    else if q[i] == STAR_BYTE && q[i + 1] == SLASH_BYTE then i + 1
    else CommentSlash(q, i + 1)
  }

  lemma {:induction false} CommentSlashLocal(q: seq<byte>, p: seq<byte>, n: nat, i: nat)
    requires i <= n <= |q| && n <= |p| && q[..n] == p[..n]
    requires CommentSlash(q, i) < n && CommentSlash(q, i) < |q|
    ensures CommentSlash(p, i) == CommentSlash(q, i)
    decreases n - i
  {
    assert i + 1 < n && q[..n][i] == p[..n][i] && q[..n][i + 1] == p[..n][i + 1];
    if !(q[i] == STAR_BYTE && q[i + 1] == SLASH_BYTE) {
      CommentSlashLocal(q, p, n, i + 1);
    }
  }
}
