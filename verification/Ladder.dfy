/** What the conditional-swap ladder computes, in any commutative group. */
module Ladder {
  import opened Bytes
  import opened Limbs
  import opened Curve

  datatype Rungs = Rungs(p: Pt, q: Pt)

  /** The neutral point the ladder starts from. */
  const ORIGIN: Pt := Pt(0, 1, 1, 0)

  function Bit(s: seq<byte>, i: nat): nat
    requires i < 8 * |s|
  {
    s[i / 8] / Two(i % 8) % 2
  }

  function Two(n: nat): (r: nat)
    ensures r > 0
  {
    if n == 0 then 1 else 2 * Two(n - 1)
  }

  function Swapped(r: Rungs, b: nat): Rungs { if b == 1 then Rungs(r.q, r.p) else r }

  /** One turn of the loop: swap, add one into the other, double, swap back. */
  ghost function Turn(r: Rungs, b: nat): Rungs {
    var s := Swapped(r, b);
    Swapped(Rungs(AddPt(s.p, s.p), AddPt(s.q, s.p)), b)
  }

  /** The two points after the bits from the top down to bit `i`. */
  ghost function Climb(base: Pt, s: seq<byte>, i: nat): Rungs
    requires i <= 8 * |s|
    decreases 8 * |s| - i
  {
    if i == 8 * |s| then Rungs(ORIGIN, base) else Turn(Climb(base, s, i + 1), Bit(s, i))
  }

  function Multiple<G>(plus: (G, G) -> G, zero: G, n: nat, x: G): G {
    if n == 0 then zero else plus(Multiple(plus, zero, n - 1, x), x)
  }

  /** The part of a scalar from bit `i` up. */
  function High(s: seq<byte>, i: nat): nat
    requires i <= 8 * |s|
    decreases 8 * |s| - i
  {
    if i == 8 * |s| then 0 else 2 * High(s, i + 1) + Bit(s, i)
  }

  ghost predicate CommutativeGroup<G(!new)>(on: G -> bool, plus: (G, G) -> G, zero: G) {
    && on(zero)
    && (forall x, y :: on(x) && on(y) ==> on(plus(x, y)))
    && (forall x :: on(x) ==> plus(zero, x) == x)
    && (forall x, y :: on(x) && on(y) ==> plus(x, y) == plus(y, x))
    && (forall x, y, z :: on(x) && on(y) && on(z) ==> plus(plus(x, y), z) == plus(x, plus(y, z)))
  }

  /** Coordinates stand for elements, and adding coordinates stands for adding elements. */
  ghost predicate Stands<G(!new)>(rep: (Pt, G) -> bool, on: G -> bool, plus: (G, G) -> G, zero: G) {
    && rep(ORIGIN, zero)
    && (forall p, q, x, y :: rep(p, x) && rep(q, y) && on(x) && on(y) ==> rep(AddPt(p, q), plus(x, y)))
  }

  lemma {:induction false} MultipleOn<G(!new)>(on: G -> bool, plus: (G, G) -> G, zero: G, n: nat, x: G)
    requires CommutativeGroup(on, plus, zero) && on(x)
    ensures on(Multiple(plus, zero, n, x))
  {
    if n > 0 {
      MultipleOn(on, plus, zero, n - 1, x);
    }
  }

  lemma {:induction false} MultipleSum<G(!new)>(on: G -> bool, plus: (G, G) -> G, zero: G, m: nat, n: nat, x: G)
    requires CommutativeGroup(on, plus, zero) && on(x)
    ensures plus(Multiple(plus, zero, m, x), Multiple(plus, zero, n, x)) == Multiple(plus, zero, m + n, x)
    decreases n
  {
    hide CommutativeGroup;
    var a := Multiple(plus, zero, m, x);
    MultipleOn(on, plus, zero, m, x);
    if n == 0 {
      RightZero(on, plus, zero, a);
    } else {
      var b := Multiple(plus, zero, n - 1, x);
      MultipleOn(on, plus, zero, n - 1, x);
      MultipleSum(on, plus, zero, m, n - 1, x);
      Regroup(on, plus, zero, a, b, x);
    }
  }

  lemma RightZero<G(!new)>(on: G -> bool, plus: (G, G) -> G, zero: G, x: G)
    requires CommutativeGroup(on, plus, zero) && on(x)
    ensures plus(x, zero) == x
  {
    assert plus(x, zero) == plus(zero, x);
  }

  lemma Regroup<G(!new)>(on: G -> bool, plus: (G, G) -> G, zero: G, x: G, y: G, z: G)
    requires CommutativeGroup(on, plus, zero) && on(x) && on(y) && on(z)
    ensures plus(plus(x, y), z) == plus(x, plus(y, z))
  {
    var left := plus(plus(x, y), z);
  }

  /** One turn doubles the multiple and takes in one bit; the second point stays one ahead. */
  lemma TurnDoubles<G(!new)>(rep: (Pt, G) -> bool, on: G -> bool, plus: (G, G) -> G, zero: G, r: Rungs, b: nat, n: nat, x: G)
    requires CommutativeGroup(on, plus, zero) && Stands(rep, on, plus, zero) && on(x) && b < 2
    requires rep(r.p, Multiple(plus, zero, n, x)) && rep(r.q, Multiple(plus, zero, n + 1, x))
    ensures var r' := Turn(r, b);
            && rep(r'.p, Multiple(plus, zero, 2 * n + b, x))
            && rep(r'.q, Multiple(plus, zero, 2 * n + b + 1, x))
  {
    hide AddPt, Multiple, CommutativeGroup;
    MultipleOn(on, plus, zero, n, x);
    MultipleOn(on, plus, zero, n + 1, x);
    if b == 0 {
      MultipleSum(on, plus, zero, n, n, x);
      MultipleSum(on, plus, zero, n + 1, n, x);
    } else {
      MultipleSum(on, plus, zero, n + 1, n + 1, x);
      MultipleSum(on, plus, zero, n, n + 1, x);
    }
  }

  lemma BitSmall(s: seq<byte>, i: nat)
    requires i < 8 * |s|
    ensures Bit(s, i) < 2
  {
  }

  lemma FirstMultiple<G(!new)>(on: G -> bool, plus: (G, G) -> G, zero: G, x: G)
    requires CommutativeGroup(on, plus, zero) && on(x)
    ensures Multiple(plus, zero, 0, x) == zero && Multiple(plus, zero, 1, x) == x
  {
    assert Multiple(plus, zero, 1, x) == plus(Multiple(plus, zero, 0, x), x);
  }

  lemma {:induction false} ClimbIsMultiple<G(!new)>(rep: (Pt, G) -> bool, on: G -> bool, plus: (G, G) -> G, zero: G,
                                  base: Pt, x: G, s: seq<byte>, i: nat)
    requires CommutativeGroup(on, plus, zero) && Stands(rep, on, plus, zero) && on(x) && rep(base, x)
    requires i <= 8 * |s|
    ensures rep(Climb(base, s, i).p, Multiple(plus, zero, High(s, i), x))
    ensures rep(Climb(base, s, i).q, Multiple(plus, zero, High(s, i) + 1, x))
    decreases 8 * |s| - i
  {
    hide Turn, Multiple, CommutativeGroup, Bit;
    if i == 8 * |s| {
      FirstMultiple(on, plus, zero, x);
    } else {
      ClimbIsMultiple(rep, on, plus, zero, base, x, s, i + 1);
      BitSmall(s, i);
      TurnDoubles(rep, on, plus, zero, Climb(base, s, i + 1), Bit(s, i), High(s, i + 1), x);
    }
  }

  // ---------- the bits of a scalar are its bytes ----------

  lemma Twos()
    ensures Two(0) == 1 && Two(1) == 2 && Two(2) == 4 && Two(3) == 8
    ensures Two(4) == 16 && Two(5) == 32 && Two(6) == 64 && Two(7) == 128
  {
  }

  lemma ByteOfBits(v: byte)
    ensures v == v % 2 + 2 * (v / 2 % 2) + 4 * (v / 4 % 2) + 8 * (v / 8 % 2)
                 + 16 * (v / 16 % 2) + 32 * (v / 32 % 2) + 64 * (v / 64 % 2) + 128 * (v / 128 % 2)
  {
    LowNibble(v);
    HighNibble(v);
  }

  lemma LowNibble(v: nat)
    ensures v == v % 2 + 2 * (v / 2 % 2) + 4 * (v / 4 % 2) + 8 * (v / 8 % 2) + 16 * (v / 16)
  {
    LowBit(v, 1);
    LowBit(v, 2);
    LowBit(v, 4);
    LowBit(v, 8);
  }

  lemma HighNibble(v: byte)
    ensures v / 16 == v / 16 % 2 + 2 * (v / 32 % 2) + 4 * (v / 64 % 2) + 8 * (v / 128 % 2)
  {
    LowBit(v, 16);
    LowBit(v, 32);
    LowBit(v, 64);
    LowBit(v, 128);
  }

  lemma LowBit(v: nat, p: nat)
    requires p in {1, 2, 4, 8, 16, 32, 64, 128}
    ensures v / p == v / p % 2 + 2 * (v / (2 * p))
  {
  }

  lemma BitOfByte(s: seq<byte>, k: nat, j: nat)
    requires k < |s| && j < 8
    ensures Bit(s, 8 * k + j) == s[k] / Two(j) % 2
  {
    assert (8 * k + j) / 8 == k && (8 * k + j) % 8 == j;
  }

  lemma HighStep(s: seq<byte>, i: nat)
    requires i < 8 * |s|
    ensures High(s, i) == 2 * High(s, i + 1) + Bit(s, i)
  {
  }

  lemma HighByte(s: seq<byte>, k: nat)
    requires k < |s|
    ensures High(s, 8 * k) == 256 * High(s, 8 * k + 8) + s[k]
  {
    hide High, Bit, Two;
    Twos();
    ByteOfBits(s[k]);
    for j := 0 to 8
      invariant forall i :: 0 <= i < j ==> High(s, 8 * k + i) == 2 * High(s, 8 * k + i + 1) + s[k] / Two(i) % 2
    {
      HighStep(s, 8 * k + j);
      BitOfByte(s, k, j);
    }
    UnrollHigh(s, k);
  }

  lemma UnrollHigh(s: seq<byte>, k: nat)
    requires k < |s|
    requires forall i :: 0 <= i < 8 ==> High(s, 8 * k + i) == 2 * High(s, 8 * k + i + 1) + s[k] / Two(i) % 2
    ensures High(s, 8 * k) == 256 * High(s, 8 * k + 8)
            + s[k] / Two(0) % 2 + 2 * (s[k] / Two(1) % 2) + 4 * (s[k] / Two(2) % 2) + 8 * (s[k] / Two(3) % 2)
            + 16 * (s[k] / Two(4) % 2) + 32 * (s[k] / Two(5) % 2) + 64 * (s[k] / Two(6) % 2) + 128 * (s[k] / Two(7) % 2)
  {
    hide High, Two;
  }

  lemma {:induction false} HighIsValue(s: seq<byte>, k: nat)
    requires k <= |s|
    ensures High(s, 8 * k) == FromLE(s[k..])
    decreases |s| - k
  {
    if k < |s| {
      HighByte(s, k);
      HighIsValue(s, k + 1);
      assert s[k..][1..] == s[k + 1..];
    }
  }

  /** For every scalar and every commutative group, the ladder gives that multiple of the base. */
  lemma LadderIsMultiple<G(!new)>(rep: (Pt, G) -> bool, on: G -> bool, plus: (G, G) -> G, zero: G,
                                  base: Pt, x: G, s: seq<byte>)
    requires CommutativeGroup(on, plus, zero) && Stands(rep, on, plus, zero) && on(x) && rep(base, x)
    ensures rep(Climb(base, s, 0).p, Multiple(plus, zero, FromLE(s), x))
  {
    ClimbIsMultiple(rep, on, plus, zero, base, x, s, 0);
    HighIsValue(s, 0);
    assert s[0..] == s;
  }

  /** On the curve itself: wherever the addition law makes affine points a commutative group around
      (0, 1), the ladder's coordinates represent the scalar times the base point. */
  lemma LadderOnTheCurve(on: Affine -> bool, plus: (Affine, Affine) -> Affine, base: Pt, a: Affine, s: seq<byte>)
    requires CommutativeGroup(on, plus, Affine(0, 1))
    requires forall x, y :: on(x) && on(y) ==> EdwardsSum(x, y, plus(x, y))
    requires on(a) && Represents(base, a)
    ensures Represents(Climb(base, s, 0).p, Multiple(plus, Affine(0, 1), FromLE(s), a))
  {
    hide AddPt, EdwardsSum, CommutativeGroup, Climb, FromLE, Multiple;
    ghost var rep := (p: Pt, x: Affine) => Represents(p, x);
    OriginStands();
    forall p, q, x, y | Represents(p, x) && Represents(q, y) && on(x) && on(y)
      ensures Represents(AddPt(p, q), plus(x, y))
    {
      AddIsEdwards(p, q, x, y, plus(x, y));
    }
    StandsHere(rep, on, plus);
    LadderIsMultiple(rep, on, plus, Affine(0, 1), base, a, s);
  }

  lemma OriginStands()
    ensures Represents(ORIGIN, Affine(0, 1))
  {
    ModIs(1, 0, 1);
    assert Inverse(1, 1);
  }

  lemma StandsHere(rep: (Pt, Affine) -> bool, on: Affine -> bool, plus: (Affine, Affine) -> Affine)
    requires rep(ORIGIN, Affine(0, 1))
    requires forall p, q, x, y :: rep(p, x) && rep(q, y) && on(x) && on(y) ==> rep(AddPt(p, q), plus(x, y))
    ensures Stands(rep, on, plus, Affine(0, 1))
  {
  }
}
