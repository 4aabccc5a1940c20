/** Arithmetic on field elements held in arrays of sixteen limbs. */
module FieldOps {
  import opened Limbs

  /** The largest product of two loose limbs. */
  const CELL: int := 0x10_0000_0000

  predicate Within(x: int, m: int) { -m <= x <= m }

  lemma NonNegative(x: int, y: int)
    requires 0 <= x && 0 <= y
    ensures 0 <= x * y
  {
  }

  lemma Corners(m: int, x: int, y: int)
    ensures (m - x) * (m + y) + (m + x) * (m - y) == 2 * (m * m) - 2 * (x * y)
    ensures (m - x) * (m - y) + (m + x) * (m + y) == 2 * (m * m) + 2 * (x * y)
  {
  }

  lemma Product(x: int, y: int)
    requires -0x4_0000 < x < 0x4_0000 && -0x4_0000 < y < 0x4_0000
    ensures Within(x * y, CELL)
  {
    var m := 0x4_0000;
    NonNegative(m - x, m + y);
    NonNegative(m + x, m - y);
    NonNegative(m - x, m - y);
    NonNegative(m + x, m + y);
    Corners(m, x, y);
  }

  // ---------- multiplication ----------

  lemma RowStep(i: nat, j: nat, v: int, s: int, b: int)
    ensures Pow16(i) * (v * s) + Pow16(i + j) * (v * b) == Pow16(i) * (v * (s + Pow16(j) * b))
  {
    hide Pow16;
    Pow16Add(i, j);
    Distribute(Pow16(i), Pow16(j), v, s, b);
  }

  lemma Distribute(p: int, q: int, v: int, s: int, b: int)
    ensures p * (v * s) + p * q * (v * b) == p * (v * (s + q * b))
  {
    assert v * (s + q * b) == v * s + v * (q * b);
    assert v * (q * b) == q * (v * b);
    assert p * (q * (v * b)) == p * q * (v * b);
  }

  predicate Row(t: seq<int>, i: nat, j: nat) {
    |t| == 31 && forall k :: 0 <= k < 31 ==> Within(t[k], if i <= k < i + j then (i + 1) * CELL else i * CELL)
  }

  /** `t[i + j] += v * b[j]` for every limb of `b`. */
  method AddRow(t: seq<exact>, i: nat, v: exact, b: seq<exact>) returns (r: seq<exact>)
    requires i < 16 && Row(t, i, 0) && Loose(b) && -0x4_0000 < v < 0x4_0000
    ensures Row(r, i + 1, 0)
    ensures Val(r) == Val(t) + Pow16(i) * (v * Val(b))
  {
    hide Val, Pow16;
    r := t;
    RowStart(i, v, b);
    for j := 0 to 16
      invariant Row(r, i, j)
      invariant Val(r) == Val(t) + Pow16(i) * (v * Val(b[..j]))
    {
      Product(v, b[j]);
      var product: exact := v * b[j];
      ValUpdate(r, i + j, r[i + j] + product);
      ValTake(b, j);
      RowStep(i, j, v, Val(b[..j]), b[j]);
      r := r[i + j := r[i + j] + product];
    }
    assert b[..16] == b;
  }

  lemma RowStart(i: nat, v: int, b: seq<int>)
    ensures Pow16(i) * (v * Val(b[..0])) == 0
  {
    hide Pow16;
  }

  lemma {:induction false} ZeroValue(s: seq<int>)
    requires forall i :: 0 <= i < |s| ==> s[i] == 0
    ensures Val(s) == 0
    decreases |s|
  {
    if s != [] {
      ZeroValue(s[1..]);
    }
  }

  /** The 31 columns of the product. */
  method Columns(a: seq<exact>, b: seq<exact>) returns (t: seq<exact>)
    requires Loose(a) && Loose(b)
    ensures Row(t, 16, 0) && Val(t) == Val(a) * Val(b)
  {
    hide Val, Pow16;
    t := seq(31, _ => 0);
    ZeroValue(t);
    RowStart(0, 1, a);
    EmptyValue(a);
    for i := 0 to 16
      invariant Row(t, i, 0)
      invariant Val(t) == Val(a[..i]) * Val(b)
    {
      ValTake(a, i);
      ProductStep(Val(a[..i]), Pow16(i), a[i], Val(b));
      t := AddRow(t, i, a[i], b);
    }
    assert a[..16] == a;
  }

  lemma EmptyValue(a: seq<int>)
    ensures Val(a[..0]) == 0
  {
  }

  lemma ProductStep(s: int, p: int, v: int, b: int)
    ensures s * b + p * (v * b) == (s + p * v) * b
  {
  }

  /** `t[k] += 38 * t[k + 16]`: the upper columns brought down. */
  method FoldColumns(t: seq<exact>) returns (r: seq<exact>)
    requires Row(t, 16, 0)
    ensures |r| == 16 && (forall k :: 0 <= k < 16 ==> Within(r[k], 624 * CELL))
    ensures Val(r) == Val(t[..16]) + 38 * Val(t[16..])
  {
    hide Val, Pow16;
    r := t[..16];
    EmptyValue(t[16..]);
    for k := 0 to 15
      invariant |r| == 16
      invariant forall n :: 0 <= n < 16 ==> Within(r[n], if n < k then 624 * CELL else 16 * CELL)
      invariant Val(r) == Val(t[..16]) + 38 * Val(t[16..][..k])
    {
      var upper: exact := 38 * t[k + 16];
      ValUpdate(r, k, r[k] + upper);
      ValTake(t[16..], k);
      Regroup(Pow16(k), t[k + 16]);
      r := r[k := r[k] + upper];
    }
    assert t[16..][..15] == t[16..];
  }

  lemma Regroup(p: int, x: int)
    ensures p * (38 * x) == 38 * (p * x)
  {
  }

  // ---------- carrying ----------

  /** One carry pass over sixteen limbs: every limb a digit, and the carry out of the last one
      brought back to the first, 38 times. */
  ghost predicate Carried(r: seq<int>, s: seq<int>) {
    && |r| == 16
    && Digits(r[1..])
    && 0 <= r[0] - 38 * (Val(s) / TOP) < 65536
    && Val(r) == Fold(Val(s))
  }

  /** The state of a carry pass before limb `i`; the carry is kept one too high. */
  ghost predicate Carrying(r: seq<int>, s: seq<int>, i: nat, c: int) {
    && |r| == 16 && |s| == 16 && i <= 16
    && Digits(r[..i])
    && r[i..] == s[i..]
    && Within(c - 1, 0x4000_0000)
    && Val(r[..i]) + Pow16(i) * (c - 1 + Val(s[i..])) == Val(s)
  }

  lemma CarryStart(s: seq<int>)
    requires |s| == 16
    ensures Carrying(s, s, 0, 1)
  {
    assert s[0..] == s && s[..0] == [] && Val([]) == 0 && Pow16(0) == 1;
  }

  lemma CarryDigit(x: int, c: int)
    requires Within(x, 640 * CELL) && Within(c - 1, 0x4000_0000)
    ensures var v := x + c + 65535;
            var c' := v / 65536;
            && 0 <= v - c' * 65536 < 65536
            && x + c - 1 == v - c' * 65536 + 65536 * (c' - 1)
            && Within(c' - 1, 0x4000_0000)
  {
  }

  lemma CarryOn(r: seq<int>, s: seq<int>, i: nat, c: int)
    requires Carrying(r, s, i, c) && i < 16 && Within(s[i], 640 * CELL)
    ensures var v := r[i] + c + 65535;
            r[i] == s[i] && Carrying(r[i := v - v / 65536 * 65536], s, i + 1, v / 65536)
  {
    hide Val, Pow16, Digits;
    assert r[i] == r[i..][0] == s[i..][0] == s[i];
    var v := s[i] + c + 65535;
    var c' := v / 65536;
    CarryDigit(s[i], c);
    var d := v - c' * 65536;
    var r' := r[i := d];
    assert r'[..i + 1] == r[..i] + [d];
    OneMoreDigit(r[..i], d);
    assert r'[i + 1..] == r[i..][1..] == s[i + 1..];
    ValSnoc(r[..i], d);
    ValDrop(s, i);
    CarrySum(i, c, d, c', s[i], Val(s[i + 1..]));
  }

  lemma OneMoreDigit(s: seq<int>, d: int)
    requires Digits(s) && 0 <= d < 65536
    ensures Digits(s + [d])
  {
  }

  lemma CarrySum(i: nat, c: int, d: int, c': int, x: int, rest: int)
    requires x + c - 1 == d + 65536 * (c' - 1)
    ensures Pow16(i) * d + Pow16(i + 1) * (c' - 1 + rest) == Pow16(i) * (c - 1 + (x + 65536 * rest))
  {
    var p := Pow16(i);
    assert Pow16(i + 1) == 65536 * p;
    Spread(p, d, c' - 1 + rest);
  }

  lemma Spread(p: int, d: int, y: int)
    ensures p * d + 65536 * p * y == p * (d + 65536 * y)
  {
    assert p * (65536 * y) == 65536 * p * y;
  }

  lemma CarryEnd(r: seq<int>, s: seq<int>, c: int)
    requires Carrying(r, s, 16, c)
    ensures Carried(r[0 := r[0] + (c - 1 + 37 * (c - 1))], s)
  {
    hide Pow16, Fold;
    assert r[..16] == r && s[16..] == [];
    Pow16Top();
    DigitsValue(r);
    assert Val(s) == Val(r) + TOP * (c - 1);
    TopQuotient(Val(s), c - 1, Val(r));
    ValUpdateFirst(r, r[0] + 38 * (c - 1));
    assert r[0 := r[0] + 38 * (c - 1)][1..] == r[1..];
  }

  lemma TopQuotient(v: int, q: int, m: int)
    requires v == m + TOP * q && 0 <= m < TOP
    ensures v / TOP == q && v % TOP == m && Fold(v) == m + 38 * q
  {
  }

  lemma ValUpdateFirst(r: seq<int>, x: int)
    requires r != []
    ensures Val(r[0 := x]) == Val(r) + x - r[0]
  {
    assert r[0 := x][1..] == r[1..];
  }

  /** The carry pass that the multiplication does on its locals. */
  method CarryColumns(t: seq<exact>) returns (r: seq<exact>)
    requires |t| == 16 && forall k :: 0 <= k < 16 ==> Within(t[k], 640 * CELL)
    ensures Carried(r, t) && Within(r[0], 0x10_0000_0000)
  {
    hide Carrying, Carried;
    r := t;
    var c: exact := 1;
    CarryStart(t);
    for i := 0 to 16
      invariant |r| == 16 && Carrying(r, t, i, c)
    {
      CarryOn(r, t, i, c);
      Near(r, t, i, c);
      var v: exact := r[i] + c + 65535;
      c := v / 65536;
      var shifted: exact := c * 65536;
      r := r[i := v - shifted];
    }
    Near16(r, t, c);
    CarryEnd(r, t, c);
    var back: exact := 37 * (c - 1);
    r := r[0 := r[0] + (c - 1 + back)];
  }

  lemma Near(r: seq<int>, s: seq<int>, i: nat, c: int)
    requires Carrying(r, s, i, c)
    ensures Within(c - 1, 0x4000_0000)
  {
  }

  lemma Near16(r: seq<int>, s: seq<int>, c: int)
    requires Carrying(r, s, 16, c)
    ensures Within(c - 1, 0x4000_0000) && 0 <= r[0] < 65536
  {
    assert r[..16][0] == r[0];
  }

  /** `car25519`: the same pass in place. */
  method Car25519(o: array<exact>)
    requires o.Length == 16 && forall k :: 0 <= k < 16 ==> Within(o[k], 640 * CELL)
    modifies o
    ensures Carried(o[..], old(o[..])) && Within(o[0], 0x10_0000_0000)
  {
    hide Carrying, Carried;
    ghost var s := o[..];
    var c: exact := 1;
    CarryStart(s);
    for i := 0 to 16
      invariant Carrying(o[..], s, i, c)
    {
      ghost var r: seq<int> := o[..];
      CarryOn(r, s, i, c);
      Near(r, s, i, c);
      var v: exact := o[i] + c + 65535;
      c := v / 65536;
      var shifted: exact := c * 65536;
      o[i] := v - shifted;
      assert o[..] == r[i := v - c * 65536];
    }
    ghost var r: seq<int> := o[..];
    Near16(r, s, c);
    CarryEnd(r, s, c);
    var back: exact := 37 * (c - 1);
    o[0] := o[0] + (c - 1 + back);
    assert o[..] == r[0 := r[0] + (c - 1 + 37 * (c - 1))];
  }

  /** After a second pass only the first limb can be off a digit, and by at most 38. */
  lemma SecondPass(s: seq<int>, r: seq<int>, r': seq<int>)
    requires Carried(r, s) && Within(r[0], 0x10_0000_0000) && Carried(r', r)
    ensures Reduced(r')
  {
    hide Val, Digits;
    var v := Val(s);
    assert Within(38 * (v / TOP), 0x20_0000_0000);
    var w := Val(r);
    assert -0x20_0000_0000 <= w < TOP + 0x20_0000_0000;
    assert -1 <= w / TOP <= 1;
    RestDigits(r');
  }

  lemma RestDigits(r: seq<int>)
    requires |r| == 16 && Digits(r[1..])
    ensures forall i :: 1 <= i < 16 ==> 0 <= r[i] < 65536
  {
    forall i | 1 <= i < 16
      ensures 0 <= r[i] < 65536
    {
      assert r[i] == r[1..][i - 1];
    }
  }

  /** Bringing the upper columns down 38 times keeps the residue. */
  lemma FoldedValue(t: seq<int>, v: int)
    requires |t| == 31 && v == Val(t[..16]) + 38 * Val(t[16..])
    ensures Mod(v) == Mod(Val(t))
  {
    hide Val, Pow16;
    assert t == t[..16] + t[16..];
    ValAppend(t[..16], t[16..]);
    Pow16Top();
    ModStep(v, 2 * Val(t[16..]));
  }

  method CopyLimbs(o: array<exact>, r: seq<exact>)
    requires o.Length == 16 && |r| == 16
    modifies o
    ensures o[..] == r
  {
    for i := 0 to 16
      invariant o[..i] == r[..i]
    {
      o[i] := r[i];
    }
    assert o[..] == o[..16] && r[..16] == r;
  }

  /** `M`: multiplication modulo the prime. The operands are read before the result is written, so
      they may be the same arrays; no step leaves the integers a double holds. */
  method M(o: array<exact>, a: array<exact>, b: array<exact>)
    requires o.Length == 16 && Loose(a[..]) && Loose(b[..])
    modifies o
    ensures Reduced(o[..])
    ensures El(o[..]) == FMul(old(El(a[..])), old(El(b[..])))
  {
    hide Val, Carried, Reduced, FMul, Fold;
    var t := Columns(a[..], b[..]);
    var r := FoldColumns(t);
    FoldedValue(t, Val(r));
    var r1 := CarryColumns(r);
    CarriedKeeps(r1, r);
    var r2 := CarryColumns(r1);
    CarriedKeeps(r2, r1);
    SecondPass(r, r1, r2);
    MulMod(Val(a[..]), Val(b[..]));
    ProductIs(Val(a[..]), Val(b[..]));
    CopyLimbs(o, r2);
  }

  lemma ProductIs(x: int, y: int)
    ensures FMul(x, y) == Mod(x * y)
  {
  }

  lemma CarriedKeeps(r: seq<int>, s: seq<int>)
    requires Carried(r, s)
    ensures |r| == 16 && Mod(Val(r)) == Mod(Val(s))
    ensures Within(r[0], 0x10_0000_0000) ==> forall k :: 0 <= k < 16 ==> Within(r[k], 640 * CELL)
  {
    hide Val, Fold;
    FoldKeeps(Val(s));
    RestDigits(r);
  }

  /** `S` */
  method S(o: array<exact>, a: array<exact>)
    requires o.Length == 16 && Loose(a[..])
    modifies o
    ensures Reduced(o[..])
    ensures El(o[..]) == FMul(old(El(a[..])), old(El(a[..])))
  {
    M(o, a, a);
  }

  // ---------- sums ----------

  lemma {:induction false} ValSum(r: seq<int>, a: seq<int>, b: seq<int>, sign: int)
    requires |r| == |a| == |b|
    requires forall i :: 0 <= i < |r| ==> r[i] == a[i] + sign * b[i]
    ensures Val(r) == Val(a) + sign * Val(b)
    decreases |r|
  {
    if r != [] {
      ValSum(r[1..], a[1..], b[1..], sign);
      SignedPlace(sign, b[0], Val(b[1..]));
    }
  }

  lemma SignedPlace(s: int, x: int, y: int)
    ensures s * x + 65536 * (s * y) == s * (x + 65536 * y)
  {
  }

  /** `A`: limb by limb, without a carry. */
  method A(o: array<exact>, a: array<exact>, b: array<exact>)
    requires o.Length == 16 && Loose(a[..]) && Loose(b[..])
    modifies o
    ensures |o[..]| == 16 && forall i :: 0 <= i < 16 ==> o[..][i] == old(a[..])[i] + old(b[..])[i]
    ensures El(o[..]) == FAdd(old(El(a[..])), old(El(b[..])))
  {
    hide Val;
    ghost var x: seq<int>, y: seq<int> := a[..], b[..];
    for i := 0 to 16
      invariant forall k :: 0 <= k < i ==> o[k] == x[k] + y[k]
      invariant forall k :: i <= k < 16 ==> a[k] == x[k] && b[k] == y[k]
    {
      o[i] := a[i] + b[i];
    }
    ValSum(o[..], x, y, 1);
    AddMod(Val(x), Val(y));
  }

  /** `Z` */
  method Z(o: array<exact>, a: array<exact>, b: array<exact>)
    requires o.Length == 16 && Loose(a[..]) && Loose(b[..])
    modifies o
    ensures |o[..]| == 16 && forall i :: 0 <= i < 16 ==> o[..][i] == old(a[..])[i] - old(b[..])[i]
    ensures El(o[..]) == FSub(old(El(a[..])), old(El(b[..])))
  {
    hide Val;
    ghost var x: seq<int>, y: seq<int> := a[..], b[..];
    for i := 0 to 16
      invariant forall k :: 0 <= k < i ==> o[k] == x[k] - y[k]
      invariant forall k :: i <= k < 16 ==> a[k] == x[k] && b[k] == y[k]
    {
      o[i] := a[i] - b[i];
    }
    ValSum(o[..], x, y, -1);
    AddMod(Val(x), Val(y));
  }
}
