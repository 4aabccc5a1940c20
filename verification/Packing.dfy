/** Inversion by exponentiation, and the canonical 32 bytes of an element and of a point. */
module Packing {
  import opened Bytes
  import opened Limbs
  import opened FieldOps
  import opened Int32
  import opened Curve
  import opened Ladder
  import opened CurveOps

  // ---------- powers ----------

  function Pow(x: int, n: nat): int { if n == 0 then 1 else Pow(x, n - 1) * x }

  ghost function FPow(x: int, n: nat): int { Mod(Pow(x, n)) }

  /** The element to the power 2^255 - 21, two less than the prime. */
  ghost function InversePower(x: int): int {
    var n: nat :| n == P - 2;
    FPow(x, n)
  }

  /** The exponent reached when the loop has done the steps down to `a`. */
  function Exponent(a: nat): nat
    requires a <= 254
    decreases 254 - a
  {
    if a == 254 then 1 else 2 * Exponent(a + 1) + (if a != 2 && a != 4 then 1 else 0)
  }

  lemma {:induction false} LongExponent(a: nat)
    requires 5 <= a <= 254
    ensures Exponent(a) == Two(255 - a) - 1
    decreases 254 - a
  {
    if a < 254 {
      LongExponent(a + 1);
    } else {
      assert Two(1) == 2 * Two(0);
    }
  }

  lemma {:induction false} TwoAdd(a: nat, b: nat)
    ensures Two(a + b) == Two(a) * Two(b)
    decreases a
  {
    if a == 0 {
      OneTimes(Two(b));
    } else {
      TwoAdd(a - 1, b);
      DoubleProduct(Two(a - 1), Two(b));
    }
  }

  lemma OneTimes(x: int)
    ensures 1 * x == x
  {
  }

  lemma DoubleProduct(x: int, y: int)
    ensures 2 * (x * y) == 2 * x * y
  {
  }

  lemma Two25()
    ensures Two(25) == 0x200_0000
  {
    hide Two;
    Twos();
    TwoAdd(5, 5);
    TwoAdd(10, 5);
    TwoAdd(15, 10);
  }

  lemma Two250()
    ensures 32 * Two(250) == P + 19
  {
    hide Two;
    Two25();
    TwoAdd(25, 25);
    TwoAdd(50, 50);
    TwoAdd(100, 25);
    TwoAdd(125, 125);
  }

  /** The exponent of the whole loop is two less than the prime. */
  lemma LoopExponent()
    ensures Exponent(0) == P - 2
  {
    LongExponent(5);
    Two250();
    hide Two;
    LastSteps();
  }

  lemma LastSteps()
    ensures Exponent(0) == 32 * Exponent(5) + 11
  {
    assert Exponent(4) == 2 * Exponent(5);
    assert Exponent(3) == 2 * Exponent(4) + 1;
    assert Exponent(2) == 2 * Exponent(3);
    assert Exponent(1) == 2 * Exponent(2) + 1;
  }

  lemma {:induction false} PowSum(x: int, m: nat, n: nat)
    ensures Pow(x, m) * Pow(x, n) == Pow(x, m + n)
    decreases n
  {
    if n > 0 {
      PowSum(x, m, n - 1);
      Times(Pow(x, m), Pow(x, n - 1), x);
    }
  }

  lemma Times(x: int, y: int, z: int)
    ensures x * y * z == x * (y * z)
  {
  }

  lemma BothResidues(x: int, y: int)
    ensures Cong(x, y) && 0 <= x < P && 0 <= y < P ==> x == y
  {
    if 0 <= x < P {
      ModIs(x, 0, x);
    }
    if 0 <= y < P {
      ModIs(y, 0, y);
    }
  }

  lemma PowerStep(x: int, n: nat, a: nat)
    requires 0 <= x < P && a < 254 && n == Exponent(a + 1)
    ensures var y := FMul(FPow(x, n), FPow(x, n));
            FPow(x, Exponent(a)) == if a != 2 && a != 4 then FMul(y, x) else y
  {
    hide FMul, Pow, Exponent;
    NextExponent(a);
    PowSum(x, n, n);
    MulMod(Pow(x, n), Pow(x, n));
    MulIs(Pow(x, n), Pow(x, n));
    ModIs(x, 0, x);
    NextPow(x, 2 * n);
    MulMod(Pow(x, 2 * n), x);
    MulIs(Pow(x, 2 * n), x);
  }

  lemma NextExponent(a: nat)
    requires a < 254
    ensures Exponent(a) == 2 * Exponent(a + 1) + (if a != 2 && a != 4 then 1 else 0)
  {
  }

  lemma NextPow(x: int, n: nat)
    ensures Pow(x, n + 1) == Pow(x, n) * x
  {
  }

  lemma FirstPower(x: int)
    requires 0 <= x < P
    ensures FPow(x, Exponent(254)) == x
  {
    ModIs(x, 0, x);
    assert Pow(x, 1) == Pow(x, 0) * x;
  }

  lemma ElRange(s: seq<int>)
    ensures 0 <= El(s) < P
  {
  }

  /** `inv25519`: the power of the element whose exponent is two less than the prime. */
  method Inv25519(o: array<exact>, i: array<exact>)
    requires o.Length == 16 && Loose(i[..])
    modifies o
    ensures Reduced(o[..]) && El(o[..]) == InversePower(old(El(i[..])))
  {
    hide El, FPow, InversePower, Exponent, FMul, Reduced, Loose;
    ghost var x := El(i[..]);
    LooseLength(i[..]);
    var c := new exact[16];
    CopyLimbs(c, i[..]);
    ElRange(i[..]);
    FirstPower(x);
    var a := 253;
    while a >= 0
      invariant -1 <= a <= 253 && c.Length == 16 && Loose(c[..]) && (a < 253 ==> Reduced(c[..]))
      invariant i[..] == old(i[..])
      invariant El(c[..]) == FPow(x, Exponent(a + 1))
    {
      PowerStep(x, Exponent(a + 1), a);
      S(c, c);
      ReducedIsLoose(c[..]);
      if a != 2 && a != 4 {
        M(c, c, i);
        ReducedIsLoose(c[..]);
      }
      a := a - 1;
    }
    InverseExponent(x, a + 1);
    CopyLimbs(o, c[..]);
  }

  /** After the last turn, when `a` is 0, the exponent reached is the one meant. */
  lemma InverseExponent(x: int, a: nat)
    requires a == 0
    ensures FPow(x, Exponent(a)) == InversePower(x)
  {
    hide FPow, Exponent;
    LoopExponent();
  }

  lemma LooseLength(s: seq<int>)
    requires Loose(s)
    ensures |s| == 16
  {
  }

  // ---------- the canonical form ----------

  const PRIME: seq<int> := [0xffed, 0xffff, 0xffff, 0xffff, 0xffff, 0xffff, 0xffff, 0xffff,
                            0xffff, 0xffff, 0xffff, 0xffff, 0xffff, 0xffff, 0xffff, 0x7fff]

  lemma PrimeLimb(k: nat)
    requires 1 <= k <= 15
    ensures PRIME[k] == if k == 15 then 0x7fff else 0xffff
  {
  }

  lemma {:induction false} PrimeFrom(k: nat)
    requires 1 <= k <= 15
    ensures 2 * Val(PRIME[k..]) == Pow16(16 - k) - 2
    decreases 16 - k
  {
    hide Val, PRIME;
    PrimeLimb(k);
    PrimeSize();
    ValDrop(PRIME, k);
    if k == 15 {
      assert PRIME[16..] == [];
      EmptyVal();
    } else {
      PrimeFrom(k + 1);
    }
  }

  lemma PrimeSize()
    ensures |PRIME| == 16
  {
  }

  lemma EmptyVal()
    ensures Val([]) == 0 && Pow16(1) == 65536
  {
    assert Pow16(1) == 65536 * Pow16(0);
  }

  lemma PrimeValue()
    ensures Val(PRIME) == P
  {
    hide Val;
    PrimeFrom(1);
    ValDrop(PRIME, 0);
    assert PRIME[0..] == PRIME;
    Pow16Top();
    assert Pow16(16) == 65536 * Pow16(15);
  }

  /** A third pass leaves digits only. */
  lemma ThirdPass(s: seq<int>, r: seq<int>)
    requires Reduced(s) && Carried(r, s)
    ensures Digits(r)
  {
    RestValue(s);
    RestValue(r);
    RestDigits(r);
  }

  lemma RestValue(s: seq<int>)
    requires |s| == 16 && Digits(s[1..])
    ensures Val(s) == s[0] + 65536 * Val(s[1..]) && 0 <= 65536 * Val(s[1..]) <= TOP - 65536
  {
    hide Pow16;
    DigitsValue(s[1..]);
    Pow16Top();
    TopPlace();
  }

  lemma TopPlace()
    ensures Pow16(16) == 65536 * Pow16(15)
  {
  }

  /** A subtraction of the prime in progress: limb `i` is written but not yet masked. */
  ghost predicate Borrowing(m: seq<int>, t: seq<int>, i: nat) {
    && |m| == |t| == 16 && i < 16
    && Digits(m[..i])
    && -65536 <= m[i] <= 65535
    && Val(m[..i]) + Pow16(i) * m[i] == Val(t[..i + 1]) - Val(PRIME[..i + 1])
  }

  lemma BorrowStart(m: seq<int>, t: seq<int>)
    requires |m| == |t| == 16 && Digits(t) && m[0] == t[0] - 0xffed
    ensures Borrowing(m, t, 0)
  {
    assert t[..1] == [t[0]] && PRIME[..1] == [0xffed] && m[..0] == [];
    ValOne(t[0]);
    ValOne(0xffed);
    assert Val([]) == 0 && Pow16(0) == 1;
  }

  /** `x >> 16 & 1`: set exactly when the limb went below zero. */
  function Borrow(x: int): int { x / 65536 % 2 }

  lemma BorrowOn(m: seq<int>, t: seq<int>, i: nat, x: int)
    requires Borrowing(m, t, i) && i < 15 && Digits(t) && x == t[i + 1] - PRIME[i + 1] - Borrow(m[i])
    ensures Borrowing(m[i + 1 := x][i := m[i] % 65536], t, i + 1)
  {
    hide Val, Pow16;
    var d := m[i] % 65536;
    var m' := m[i + 1 := x][i := d];
    assert m'[..i + 1] == m[..i] + [d];
    OneMoreDigit(m[..i], d);
    ValSnoc(m[..i], d);
    ValTake(t, i + 1);
    ValTake(PRIME, i + 1);
    assert m[i] == d - 65536 * Borrow(m[i]);
    BorrowSum(i, d, Borrow(m[i]), t[i + 1], PRIME[i + 1]);
  }

  lemma BorrowSum(i: nat, d: int, b: int, t: int, p: int)
    ensures Pow16(i) * (d - 65536 * b) + Pow16(i + 1) * t - Pow16(i + 1) * p
            == Pow16(i) * d + Pow16(i + 1) * (t - p - b)
  {
    var q := Pow16(i);
    assert Pow16(i + 1) == 65536 * q;
    BorrowedPlace(q, d, b, t - p);
    PlaceDifference(65536 * q, t, p);
  }

  lemma BorrowedPlace(q: int, d: int, b: int, y: int)
    ensures q * (d - 65536 * b) + 65536 * q * y == q * d + 65536 * q * (y - b)
  {
  }

  lemma PlaceDifference(q: int, x: int, y: int)
    ensures q * x - q * y == q * (x - y)
  {
  }

  lemma BorrowEnd(m: seq<int>, t: seq<int>)
    requires Borrowing(m, t, 15)
    ensures m[15] >= 0 ==> Val(m) == Val(t) - P && Digits(m)
    ensures m[15] < 0 ==> Val(t) < P
  {
    hide Val, Pow16;
    assert t[..16] == t && PRIME[..16] == PRIME;
    PrimeValue();
    DigitsValue(m[..15]);
    ValTake(m, 15);
    assert m[..16] == m;
    if m[15] >= 0 {
      assert m == m[..15] + [m[15]];
      OneMoreDigit(m[..15], m[15]);
    } else {
      Below(Pow16(15), Val(m[..15]), m[15]);
    }
  }

  lemma Below(p: int, v: int, x: int)
    requires 0 <= v < p && x < 0
    ensures v + p * x < 0
  {
    assert p * x <= p * -1;
  }

  lemma DigitsAreSmall(s: seq<int>)
    requires Digits(s) && |s| == 16
    ensures Small(s)
  {
  }

  lemma BorrowingIsSmall(m: seq<int>, t: seq<int>)
    requires Borrowing(m, t, 15)
    ensures Small(m)
  {
    forall i | 0 <= i < 16
      ensures Fits(m[i])
    {
      assert i < 15 ==> m[i] == m[..15][i];
    }
  }

  /** One turn of the outer loop: the prime is taken off unless that goes below zero. */
  method SubtractPrime(t: array<exact>, m: array<exact>)
    requires t != m && t.Length == m.Length == 16 && Digits(t[..])
    modifies t, m
    ensures Digits(t[..])
    ensures Val(t[..]) == var v := old(Val(t[..])); if v >= P then v - P else v
  {
    hide Digits, Borrowing, Val;
    ghost var s: seq<int> := t[..];
    InDigit(s);
    m[0] := t[0] - 0xffed;
    BorrowStart(m[..], s);
    for i := 1 to 15
      invariant t[..] == s && Borrowing(m[..], s, i - 1)
    {
      TakeOff(t, m, i, 0xffff, s);
    }
    TakeOff(t, m, 15, 0x7fff, s);
    BorrowEnd(m[..], s);
    BorrowingIsSmall(m[..], s);
    DigitsAreSmall(s);
    LastLimb(m[..], s);
    DigitsBelow(m[..], s);
    var b := Borrow(m[15]);
    Sel25519(t, m, 1 - b);
  }

  lemma InDigit(s: seq<int>)
    requires Digits(s)
    ensures forall i :: 0 <= i < |s| ==> 0 <= s[i] < 65536
  {
  }

  lemma LastLimb(m: seq<int>, t: seq<int>)
    requires Borrowing(m, t, 15)
    ensures Borrow(m[15]) == if m[15] < 0 then 1 else 0
  {
  }

  lemma DigitsBelow(m: seq<int>, t: seq<int>)
    requires Borrowing(m, t, 15) && Digits(t)
    requires m[15] >= 0 ==> Val(m) == Val(t) - P && Digits(m)
    ensures m[15] >= 0 ==> Val(t) >= P
  {
    hide Val;
    if m[15] >= 0 {
      DigitsValue(m);
    }
  }

  /** Limb `i` less its part of the prime and the borrow; then the limb before is masked. */
  method TakeOff(t: array<exact>, m: array<exact>, i: nat, p: exact, ghost s: seq<int>)
    requires t != m && t.Length == m.Length == 16 && 1 <= i <= 15 && p == PRIME[i]
    requires t[..] == s && Digits(s) && Borrowing(m[..], s, i - 1)
    modifies m
    ensures Borrowing(m[..], s, i)
  {
    hide Borrowing;
    ghost var before: seq<int> := m[..];
    Unmasked(before, s, i - 1);
    InDigit(s);
    var x: exact := t[i] - p - Borrow(m[i - 1]);
    BorrowOn(before, s, i - 1, x);
    m[i] := x;
    m[i - 1] := m[i - 1] % 65536;
    assert m[..] == before[i := x][i - 1 := before[i - 1] % 65536];
  }

  lemma Unmasked(m: seq<int>, t: seq<int>, i: nat)
    requires Borrowing(m, t, i)
    ensures -65536 <= m[i] <= 65535
  {
  }

  /** A value below 2^256 is at most 2P + 37, so two subtractions leave its residue. */
  lemma TwoSubtractions(v: int, w: int, u: int)
    requires 0 <= v < TOP
    requires w == (if v >= P then v - P else v) && u == (if w >= P then w - P else w)
    ensures u == Mod(v)
  {
    ModIs(v, if v == u then 0 else if v == u + P then 1 else 2, u);
  }

  lemma {:induction false} BytesOfDigits(o: seq<byte>, t: seq<int>)
    requires Digits(t) && |o| == 2 * |t|
    requires forall i :: 0 <= i < |t| ==> o[2 * i] == t[i] % 256 && o[2 * i + 1] == t[i] / 256
    ensures FromLE(o) == Val(t)
    decreases |t|
  {
    if t != [] {
      forall i | 0 <= i < |t| - 1
        ensures o[2..][2 * i] == t[1..][i] % 256 && o[2..][2 * i + 1] == t[1..][i] / 256
      {
        assert o[2 * (i + 1)] == t[i + 1] % 256;
      }
      BytesOfDigits(o[2..], t[1..]);
      assert o[2 * 0] == t[0] % 256 && o[2 * 0 + 1] == t[0] / 256;
      assert o[1..][1..] == o[2..];
    }
  }

  /** `t` brought to sixteen digits: enough passes for whatever limbs it had. */
  method ThreeCarries(t: array<exact>)
    requires t.Length == 16 && forall k :: 0 <= k < 16 ==> Within(t[k], 640 * CELL)
    modifies t
    ensures Digits(t[..]) && t.Length == 16 && El(t[..]) == old(El(t[..]))
  {
    hide Carried, Digits, Reduced, Val, Within, Fold;
    ghost var s0: seq<int> := t[..];
    Car25519(t);
    ghost var s1: seq<int> := t[..];
    CarriedKeeps(s1, s0);
    Car25519(t);
    ghost var s2: seq<int> := t[..];
    CarriedKeeps(s2, s1);
    SecondPass(s0, s1, s2);
    ReducedWithin(s2);
    Car25519(t);
    CarriedKeeps(t[..], s2);
    ThirdPass(s2, t[..]);
  }

  lemma ReducedWithin(s: seq<int>)
    requires Reduced(s)
    ensures forall k :: 0 <= k < 16 ==> Within(s[k], 640 * CELL)
  {
  }

  /** `pack25519`: for any limbs, the 32 bytes are the element itself, fully reduced. */
  method Pack25519(o: array<byte>, n: array<exact>)
    requires o.Length >= 32 && n.Length == 16 && forall k :: 0 <= k < 16 ==> Within(n[k], 640 * CELL)
    modifies o
    ensures FromLE(o[..32]) == El(n[..]) && o[32..] == old(o[32..])
  {
    hide Val, FromLE, Digits;
    var m := new exact[16];
    var t := new exact[16];
    CopyLimbs(t, n[..]);
    assert forall k :: 0 <= k < 16 ==> t[k] == t[..][k] == n[k];
    ThreeCarries(t);
    ghost var v := Val(t[..]);
    DigitsValue(t[..]);
    Pow16Top();
    SubtractPrime(t, m);
    ghost var w := Val(t[..]);
    SubtractPrime(t, m);
    TwoSubtractions(v, w, Val(t[..]));
    PutBytes(o, t);
  }

  /** The two bytes of every limb. */
  method PutBytes(o: array<byte>, t: array<exact>)
    requires o.Length >= 32 && t.Length == 16 && Digits(t[..])
    modifies o
    ensures FromLE(o[..32]) == Val(t[..]) && o[32..] == old(o[32..])
  {
    hide Val, FromLE;
    assert forall k :: 0 <= k < 16 ==> 0 <= t[..][k] < 65536;
    for i := 0 to 16
      invariant o[32..] == old(o[32..])
      invariant forall k :: 0 <= k < i ==> o[2 * k] == t[k] % 256 && o[2 * k + 1] == t[k] / 256
    {
      o[2 * i] := t[i] % 256;
      o[2 * i + 1] := t[i] / 256;
    }
    BytesOfDigits(o[..32], t[..]);
  }

  lemma {:induction false} FromLEParity(o: seq<byte>)
    requires o != []
    ensures FromLE(o) % 2 == o[0] % 2
  {
  }

  /** `par25519`: the low bit of the reduced element. */
  method Par25519(a: array<exact>) returns (bit: nat)
    requires a.Length == 16 && forall k :: 0 <= k < 16 ==> Within(a[k], 640 * CELL)
    ensures bit == El(a[..]) % 2
  {
    hide El, FromLE;
    var d := new byte[32];
    Pack25519(d, a);
    FromLEParity(d[..32]);
    bit := d[0] % 2;
  }

  lemma {:induction false} TopBit(x: nat, n: nat)
    requires x < Pow2(n)
    ensures Xor(x, Pow2(n)) == x + Pow2(n)
    decreases n
  {
    if n == 0 {
      assert Xor(0, 1) == 1 + 2 * Xor(0, 0);
    } else {
      TopBit(x / 2, n - 1);
      assert Pow2(n) / 2 == Pow2(n - 1) && Pow2(n) % 2 == 0;
    }
  }

  lemma {:induction false} LastByte(o: seq<byte>, x: byte)
    requires o != []
    ensures FromLE(o[|o| - 1 := x]) == FromLE(o) + Pow256(|o| - 1) * (x - o[|o| - 1])
    ensures Pow256(|o| - 1) * o[|o| - 1] <= FromLE(o)
    decreases |o|
  {
    var k := |o| - 1;
    if k == 0 {
      assert o[1..] == [] && o[0 := x][1..] == [];
    } else {
      LastByte(o[1..], x);
      assert o[k := x][1..] == o[1..][k - 1 := x];
      Shift256(Pow256(k - 1), x - o[k]);
      Shift256(Pow256(k - 1), o[k]);
    }
  }

  lemma Shift256(p: int, x: int)
    ensures 256 * (p * x) == 256 * p * x
  {
  }

  lemma {:induction false} TwoBytesALimb(n: nat)
    ensures Pow256(2 * n) == Pow16(n)
    decreases n
  {
    if n > 0 {
      TwoBytesALimb(n - 1);
      assert Pow256(2 * n) == 256 * Pow256(2 * n - 1);
    }
  }

  lemma TopBitPlace()
    ensures Pow256(31) * 128 == P + 19
  {
    hide Pow16, Pow256;
    TwoBytesALimb(15);
    Pow16Top();
    TopPlace();
    OneMoreByte();
  }

  lemma OneMoreByte()
    ensures Pow256(31) == 256 * Pow256(30)
  {
  }

  /** A reduced element leaves the top bit of its last byte clear. */
  lemma TopBitClear(o: seq<byte>)
    requires |o| == 32 && FromLE(o) < P
    ensures o[31] < 128
  {
    hide FromLE, Pow256;
    LastByte(o, o[31]);
    TopBitPlace();
    if o[31] >= 128 {
      TooHigh(Pow256(31), o[31]);
    }
  }

  lemma TooHigh(p: nat, x: int)
    requires x >= 128
    ensures p * x >= p * 128
  {
  }

  lemma Pow128()
    ensures Pow2(7) == 128
  {
    assert Pow2(4) == 16;
  }

  /** Setting that bit adds 2^255. */
  lemma SetTopBit(o: seq<byte>, bit: nat)
    requires |o| == 32 && FromLE(o) < P && bit < 2
    ensures Xor(o[31], 128 * bit) < 256
    ensures FromLE(o[31 := Xor(o[31], 128 * bit)]) == FromLE(o) + (P + 19) * bit
  {
    hide FromLE, Pow256, Xor;
    TopBitClear(o);
    Pow128();
    if bit == 0 {
      XorZero(o[31]);
      assert o[31 := o[31]] == o;
    } else {
      TopBit(o[31], 7);
      LastByte(o, o[31] + 128);
      TopBitPlace();
    }
  }

  /** The 256 bits of a point: its second coordinate, and the parity of the first on top
      (section 5.1.2 of RFC 8032). */
  function Packed(a: Affine): int { a.y + (P + 19) * (a.x % 2) }

  /** The base point is sent as four fifths, its first coordinate being even (section 5.1 of RFC 8032). */
  lemma PackedBase()
    ensures Packed(B) == 0x6666_6666_6666_6666_6666_6666_6666_6666_6666_6666_6666_6666_6666_6666_6666_6658
    ensures Mod(5 * Packed(B)) == 4
  {
    ModIs(5 * Packed(B), 4, 4);
  }

  /** A packed point gives its second coordinate back, and tells it from its negative, the only other curve
      point with that coordinate. */
  lemma PackedTells(a: Affine)
    requires 0 < a.x < P && 0 <= a.y < P
    ensures Packed(a) % (P + 19) == a.y && 0 <= Packed(a) < 2 * (P + 19)
    ensures Packed(Affine(P - a.x, a.y)) % (P + 19) == a.y && Packed(Affine(P - a.x, a.y)) != Packed(a)
  {
    assert (P - a.x) % 2 == 1 - a.x % 2;
  }

  /** The affine coordinates by way of the inverse power of z. */
  ghost function Normal(p: Pt): Affine {
    var zi := InversePower(p.z);
    Affine(FMul(p.x, zi), FMul(p.y, zi))
  }

  /** `pack` */
  method Pack(r: array<byte>, p: Point)
    requires r.Length >= 32 && Shape(p) && Good(p)
    modifies r
    ensures FromLE(r[..32]) == Packed(Normal(Coords(p))) && r[32..] == old(r[32..])
  {
    hide FromLE, El, InversePower, FMul, Reduced, Loose, Xor;
    var tx, ty := Divided(p);
    ReducedWithin(tx[..]);
    ReducedWithin(ty[..]);
    ReducedArray(tx);
    ReducedArray(ty);
    Pack25519(r, ty);
    var bit := Par25519(tx);
    ElRange(ty[..]);
    ghost var o := r[..32];
    SetTopBit(o, bit);
    r[31] := Xor(r[31], 128 * bit);
    assert r[..32] == o[31 := Xor(o[31], 128 * bit)];
  }

  lemma ReducedArray(a: array<exact>)
    requires Reduced(a[..])
    ensures a.Length == 16 && forall k :: 0 <= k < 16 ==> Within(a[k], 640 * CELL)
  {
    assert forall k :: 0 <= k < 16 ==> a[k] == a[..][k];
  }

  method Divided(p: Point) returns (tx: array<exact>, ty: array<exact>)
    requires Shape(p) && Good(p)
    ensures fresh(tx) && fresh(ty) && Reduced(tx[..]) && Reduced(ty[..])
    ensures Normal(Coords(p)) == Affine(El(tx[..]), El(ty[..]))
  {
    hide El, InversePower, FMul, Reduced, Loose;
    tx := new exact[16];
    ty := new exact[16];
    var zi := new exact[16];
    ReducedIsLoose(p[0][..]);
    ReducedIsLoose(p[1][..]);
    ReducedIsLoose(p[2][..]);
    Inv25519(zi, p[2]);
    ReducedIsLoose(zi[..]);
    M(tx, p[0], zi);
    M(ty, p[1], zi);
  }

  /** Where the power is the inverse, as it is for every invertible z modulo a prime, packing gives
      the bytes of the point represented, whatever its z. */
  lemma PackedIsThePoint(p: Pt, a: Affine)
    requires Represents(p, a) && 0 <= a.x < P && 0 <= a.y < P
    requires Inverse(p.z, InversePower(p.z))
    ensures Packed(Normal(p)) == Packed(a)
  {
    hide InversePower, FMul, Cong;
    var zi := InversePower(p.z);
    OneIs(p.z, zi);
    Cancelled(p.x, a.x, p.z, zi);
    Cancelled(p.y, a.y, p.z, zi);
  }

  /** What the arithmetic on points is meant for: the affine points with coordinates below the prime
      are a commutative group under the curve law, and the power that the packing divides by is the
      inverse for the point the ladder leaves. */
  ghost predicate CurveHolds(on: Affine -> bool, plus: (Affine, Affine) -> Affine, s: seq<byte>) {
    && CommutativeGroup(on, plus, Affine(0, 1)) && on(B)
    && (forall x, y :: on(x) && on(y) ==> EdwardsSum(x, y, plus(x, y)))
    && (forall x :: on(x) ==> 0 <= x.x < P && 0 <= x.y < P)
    && var z := Climb(BASE, s, 0).p.z;
       Inverse(z, InversePower(z))
  }

  lemma PackedMultiple(on: Affine -> bool, plus: (Affine, Affine) -> Affine, s: seq<byte>)
    requires CurveHolds(on, plus, s)
    ensures Packed(Normal(Climb(BASE, s, 0).p)) == Packed(Ladder.Multiple(plus, Affine(0, 1), FromLE(s), B))
  {
    hide CommutativeGroup, EdwardsSum, Climb, FromLE, Ladder.Multiple, Represents, Packed, Normal, InversePower, Inverse;
    var r := Ladder.Multiple(plus, Affine(0, 1), FromLE(s), B);
    BaseRepresents();
    LadderOnTheCurve(on, plus, BASE, B, s);
    MultipleOn(on, plus, Affine(0, 1), FromLE(s), B);
    PackedIsThePoint(Climb(BASE, s, 0).p, r);
  }

  /** `scalarbase` and `pack`, as for the public key and the commitment of a signature: the 32 bytes
      are those of the scalar's multiple of the base point. */
  method PackBase(r: array<byte>, p: Point, s: seq<byte>, ghost on: Affine -> bool,
                  ghost plus: (Affine, Affine) -> Affine)
    requires r.Length >= 32 && Shape(p) && |s| >= 32
    modifies r, p
    ensures FromLE(r[..32]) == Packed(Normal(Climb(BASE, s[..32], 0).p)) && r[32..] == old(r[32..])
    ensures CurveHolds(on, plus, s[..32]) ==>
              FromLE(r[..32]) == Packed(Ladder.Multiple(plus, Affine(0, 1), FromLE(s[..32]), B))
  {
    hide *;
    ScalarBase(p, s);
    Pack(r, p);
    if CurveHolds(on, plus, s[..32]) {
      PackedMultiple(on, plus, s[..32]);
    }
  }

  lemma Cancelled(v: int, x: int, z: int, zi: int)
    requires Cong(v, x * z) && Cong(z * zi, 1) && 0 <= x < P
    ensures FMul(v, zi) == x
  {
    hide Cong;
    Same(zi);
    Same(x);
    CongMul(v, x * z, zi, zi);
    CongMul(x, x, z * zi, 1);
    Times(x, z, zi);
    CongChain(FMul(v, zi), x * z * zi, x);
    BothResidues(FMul(v, zi), x);
  }
}
