/** Field elements as sixteen limbs of radix 2^16, and what the limb operations mean modulo
    2^255 - 19. */
module Limbs {

  /** An integer a double holds exactly: storing anything else would round. */
  type exact = x: int | -0x20_0000_0000_0000 < x < 0x20_0000_0000_0000

  /** The prime 2^255 - 19 (section 5.1 of RFC 8032). */
  const P: int := 0x7fff_ffff_ffff_ffff_ffff_ffff_ffff_ffff_ffff_ffff_ffff_ffff_ffff_ffff_ffff_ffed

  /** 2^256, which is 38 modulo the prime. */
  const TOP: int := 0x1_0000_0000_0000_0000_0000_0000_0000_0000_0000_0000_0000_0000_0000_0000_0000_0000

  function Val(s: seq<int>): int {
    if s == [] then 0 else s[0] + 65536 * Val(s[1..])
  }

  function Mult(k: int): int { k * P }

  ghost predicate Multiple(d: int) { exists k :: d == Mult(k) }

  /** The residue modulo the prime, the number in its range that differs by a multiple of it. */
  ghost function Mod(x: int): (r: int)
    ensures 0 <= r < P && Multiple(x - r)
  {
    assert x - x % P == Mult(x / P);
    var r :| 0 <= r < P && Multiple(x - r);
    r
  }

  /** The field element that limbs stand for. */
  ghost function El(s: seq<int>): int { Mod(Val(s)) }

  ghost function FAdd(x: int, y: int): int { Mod(x + y) }

  ghost function FSub(x: int, y: int): int { Mod(x - y) }

  ghost function FMul(x: int, y: int): int { Mod(x * y) }

  function Pow16(n: nat): nat { if n == 0 then 1 else 65536 * Pow16(n - 1) }

  predicate Digits(s: seq<int>) { forall i :: 0 <= i < |s| ==> 0 <= s[i] < 65536 }

  /** What a multiplication leaves: digits, but for a first limb off by at most 38. */
  predicate Reduced(s: seq<int>) {
    && |s| == 16
    && -38 <= s[0] < 65536 + 38
    && forall i :: 1 <= i < 16 ==> 0 <= s[i] < 65536
  }

  /** What a multiplication takes. */
  predicate Loose(s: seq<int>) { |s| == 16 && forall i :: 0 <= i < 16 ==> -0x4_0000 < s[i] < 0x4_0000 }

  // ---------- powers and places ----------

  lemma {:induction false} Pow16Add(a: nat, b: nat)
    ensures Pow16(a + b) == Pow16(a) * Pow16(b)
    decreases a
  {
    if a == 0 {
      Unit(Pow16(b));
    } else {
      Pow16Add(a - 1, b);
      Shift(0, Pow16(a - 1), Pow16(b));
    }
  }

  lemma Unit(x: int)
    ensures 1 * x == x
  {
  }

  lemma Pow16Top()
    ensures Pow16(16) == TOP
  {
    hide Pow16;
    Pow16Four();
    Pow16Add(4, 4);
    Pow16Add(8, 8);
  }

  lemma Pow16Four()
    ensures Pow16(4) == 0x1_0000_0000_0000_0000
  {
    assert Pow16(2) == 65536 * Pow16(1) && Pow16(1) == 65536 * Pow16(0);
  }

  lemma {:induction false} ValAppend(a: seq<int>, b: seq<int>)
    ensures Val(a + b) == Val(a) + Pow16(|a|) * Val(b)
    decreases |a|
  {
    if a == [] {
      assert a + b == b;
    } else {
      assert (a + b)[0] == a[0] && (a + b)[1..] == a[1..] + b;
      ValAppend(a[1..], b);
      Shift(Val(a[1..]), Pow16(|a| - 1), Val(b));
    }
  }

  lemma Shift(x: int, p: int, y: int)
    ensures 65536 * (x + p * y) == 65536 * x + (65536 * p) * y
  {
  }

  lemma ValSnoc(s: seq<int>, x: int)
    ensures Val(s + [x]) == Val(s) + Pow16(|s|) * x
  {
    ValAppend(s, [x]);
    ValOne(x);
  }

  lemma ValOne(x: int)
    ensures Val([x]) == x
  {
    assert [x][1..] == [] && Val([]) == 0;
  }

  lemma ValTake(s: seq<int>, k: nat)
    requires k < |s|
    ensures Val(s[..k + 1]) == Val(s[..k]) + Pow16(k) * s[k]
  {
    hide Val, Pow16;
    assert s[..k + 1] == s[..k] + [s[k]];
    ValSnoc(s[..k], s[k]);
  }

  lemma ValDrop(s: seq<int>, k: nat)
    requires k < |s|
    ensures Val(s[k..]) == s[k] + 65536 * Val(s[k + 1..])
  {
    assert s[k..][1..] == s[k + 1..];
  }

  /** Changing one limb moves the value by its place. */
  lemma {:induction false} ValUpdate(s: seq<int>, k: nat, x: int)
    requires k < |s|
    ensures Val(s[k := x]) == Val(s) + Pow16(k) * (x - s[k])
    decreases k
  {
    var t := s[k := x];
    if k == 0 {
      assert t[1..] == s[1..];
    } else {
      assert t[1..] == s[1..][k - 1 := x];
      ValUpdate(s[1..], k - 1, x);
      Shift(Val(s[1..]), Pow16(k - 1), x - s[k]);
    }
  }

  lemma {:induction false} DigitsValue(s: seq<int>)
    requires Digits(s)
    ensures 0 <= Val(s) < Pow16(|s|)
    decreases |s|
  {
    if s != [] {
      DigitsValue(s[1..]);
    }
  }

  // ---------- the residues ----------

  /** The residue is the only number in its range that differs by a multiple of the prime. */
  lemma ModIs(x: int, k: int, r: int)
    requires x == k * P + r && 0 <= r < P
    ensures Mod(x) == r
  {
    hide Mod;
    var r' := Mod(x);
    var k' :| x - r' == Mult(k');
    assert (k - k') * P == r' - r;
  }

  lemma ModStep(x: int, k: int)
    ensures Mod(x + k * P) == Mod(x)
  {
    hide Mod;
    var q := Quotient(x);
    ModIs(x + k * P, q + k, Mod(x));
  }

  lemma Quotient(x: int) returns (q: int)
    ensures x == q * P + Mod(x)
  {
    hide Mod;
    q :| x - Mod(x) == Mult(q);
  }

  lemma ModIsRemainder(x: int)
    ensures Mod(x) == x % P
  {
    ModIs(x, x / P, x % P);
  }

  lemma MulMod(x: int, y: int)
    ensures FMul(Mod(x), Mod(y)) == FMul(x, y)
  {
    hide Mod;
    var q := Quotient(x);
    var q' := Quotient(y);
    var r, r' := Mod(x), Mod(y);
    Expand(q, r, q', r', P);
    ModStep(r * r', q * q' * P + q * r' + r * q');
  }

  lemma Expand(q: int, r: int, q': int, r': int, p: int)
    ensures (q * p + r) * (q' * p + r') == r * r' + (q * q' * p + q * r' + r * q') * p
  {
    assert (q * p + r) * (q' * p + r') == q * p * (q' * p) + q * p * r' + r * (q' * p) + r * r';
    assert q * p * (q' * p) == q * q' * p * p;
    assert q * p * r' == q * r' * p;
    assert r * (q' * p) == r * q' * p;
  }

  lemma AddMod(x: int, y: int)
    ensures FAdd(Mod(x), Mod(y)) == FAdd(x, y)
    ensures FSub(Mod(x), Mod(y)) == FSub(x, y)
  {
    hide Mod;
    var q := Quotient(x);
    var q' := Quotient(y);
    ModStep(Mod(x) + Mod(y), q + q');
    ModStep(Mod(x) - Mod(y), q - q');
  }

  /** A value with its part above 2^256 brought down: what one carry pass leaves. */
  function Fold(v: int): int { v % TOP + 38 * (v / TOP) }

  lemma FoldKeeps(v: int)
    ensures Mod(Fold(v)) == Mod(v)
  {
    hide Mod;
    ModStep(Fold(v), 2 * (v / TOP));
  }
}
