/** The bitwise operators, which work on 32-bit words in two's complement. */
module Int32 {

  function Xor(x: nat, y: nat): (r: nat)
    decreases x + y
  {
    if x == 0 && y == 0 then 0 else (x % 2 + y % 2) % 2 + 2 * Xor(x / 2, y / 2)
  }

  function And(x: nat, y: nat): nat {
    if x == 0 then 0 else x % 2 * (y % 2) + 2 * And(x / 2, y / 2)
  }

  const WORDS: int := 0x1_0000_0000

  function ToWord(x: int): nat { x % WORDS }

  function Signed(w: nat): int { if w >= 0x8000_0000 then w - WORDS else w }

  predicate Fits(x: int) { -0x8000_0000 <= x < 0x8000_0000 }

  lemma WordRoundTrip(x: int)
    requires Fits(x)
    ensures ToWord(x) < WORDS && Signed(ToWord(x)) == x
  {
  }

  function Pow2(n: nat): nat { if n == 0 then 1 else 2 * Pow2(n - 1) }

  lemma Pow2Word()
    ensures Pow2(32) == WORDS && Pow2(31) == 0x8000_0000
  {
    assert Pow2(8) == 256 by { assert Pow2(4) == 16; }
    assert Pow2(16) == 65536 by { assert Pow2(12) == 4096; }
    assert Pow2(24) == 0x100_0000 by { assert Pow2(20) == 0x10_0000; }
    assert Pow2(28) == 0x1000_0000;
  }

  lemma {:induction false} XorZero(x: nat)
    ensures Xor(x, 0) == x && Xor(0, x) == x
  {
    if x != 0 {
      XorZero(x / 2);
    }
  }

  lemma {:induction false} XorSymmetric(x: nat, y: nat)
    ensures Xor(x, y) == Xor(y, x)
    decreases x + y
  {
    if x != 0 || y != 0 {
      XorSymmetric(x / 2, y / 2);
    }
  }

  /** Folding a word in twice takes it out again. */
  lemma {:induction false} XorTwice(x: nat, y: nat)
    ensures Xor(x, Xor(x, y)) == y
    decreases x + y
  {
    if x == 0 && y == 0 {
      XorZero(0);
    } else {
      hide Xor;
      XorTwice(x / 2, y / 2);
      XorHalves(x, y);
      XorHalves(x, Xor(x, y));
      Parity(x % 2, y % 2);
      Halves(Xor(x, Xor(x, y)), y);
    }
  }

  lemma Halves(x: nat, y: nat)
    requires x / 2 == y / 2 && x % 2 == y % 2
    ensures x == y
  {
  }

  lemma Parity(a: nat, b: nat)
    requires a < 2 && b < 2
    ensures (a + (a + b) % 2) % 2 == b
  {
  }

  lemma XorHalves(x: nat, y: nat)
    ensures Xor(x, y) / 2 == Xor(x / 2, y / 2) && Xor(x, y) % 2 == (x % 2 + y % 2) % 2
  {
  }

  lemma {:induction false} XorSize(x: nat, y: nat, n: nat)
    requires x < Pow2(n) && y < Pow2(n)
    ensures Xor(x, y) < Pow2(n)
    decreases n
  {
    if n > 0 {
      XorSize(x / 2, y / 2, n - 1);
    }
  }

  lemma {:induction false} AndOnes(n: nat, y: nat)
    requires y < Pow2(n)
    ensures And(Pow2(n) - 1, y) == y
    decreases n
  {
    if n > 0 {
      AndOnes(n - 1, y / 2);
      assert (Pow2(n) - 1) / 2 == Pow2(n - 1) - 1 && (Pow2(n) - 1) % 2 == 1;
    }
  }

  /** `~(b - 1)` */
  function Mask(b: int): nat { ToWord(-1 - (b - 1)) }

  /** The masked exchange of two words: with a mask of ones they change places, with a mask of
      zeros they stay. */
  lemma Exchange(x: int, y: int, b: int)
    requires Fits(x) && Fits(y) && (b == 0 || b == 1)
    ensures var t := And(Mask(b), Xor(ToWord(x), ToWord(y)));
            && Signed(Xor(ToWord(x), t)) == (if b == 1 then y else x)
            && Signed(Xor(ToWord(y), t)) == (if b == 1 then x else y)
  {
    hide And, Xor;
    var u, v := ToWord(x), ToWord(y);
    WordRoundTrip(x);
    WordRoundTrip(y);
    Pow2Word();
    XorSize(u, v, 32);
    XorTwice(u, v);
    XorTwice(v, u);
    XorSymmetric(u, v);
    if b == 1 {
      AndOnes(32, Xor(u, v));
    } else {
      NoMask(Xor(u, v));
      XorZero(u);
      XorZero(v);
    }
  }

  lemma NoMask(y: nat)
    ensures And(0, y) == 0
  {
  }
}
