/** Points in extended coordinates, the addition the code does on them, and what its ladder
    computes in any commutative group. */
module Curve {
  import opened Limbs

  datatype Pt = Pt(x: int, y: int, z: int, t: int)

  /** Twice the curve constant, as limbs. */
  const D2: seq<exact> := [
    0xf159, 0x26b2, 0x9b94, 0xebd6, 0xb156, 0x8283, 0x149a, 0x00e0, 0xd130, 0xeef3, 0x80f2, 0x198e, 0xfce7, 0x56df,
    0xd9dc, 0x2406
  ]

  /** `add`, step by step on field elements. */
  ghost function AddPt(p: Pt, q: Pt): Pt {
    var a := FMul(FSub(p.y, p.x), FSub(q.y, q.x));
    var b := FMul(FAdd(p.x, p.y), FAdd(q.x, q.y));
    var c := FMul(FMul(p.t, q.t), El(D2));
    var d := FMul(p.z, q.z);
    Tail(a, b, c, FAdd(d, d))
  }

  ghost function Tail(a: int, b: int, c: int, d: int): Pt {
    var e, f, g, h := FSub(b, a), FSub(d, c), FAdd(d, c), FAdd(b, a);
    Pt(FMul(e, f), FMul(h, g), FMul(g, f), FMul(e, h))
  }

  // ---------- the addition law ----------

  /** The curve constant: -121665/121666 modulo the prime (section 5.1 of RFC 8032). */
  const D: int := 0x5203_6cee_2b6f_fe73_8cc7_4079_7779_e898_0070_0a4d_4141_d8ab_75eb_4dca_1359_78a3

  lemma CurveConstant()
    ensures Mod(121666 * D) == Mod(-121665)
    ensures El(D2) == Mod(2 * D)
  {
    hide Mod, Val;
    ModStep(-121665, 77955);
    TwiceD();
  }

  lemma TwiceD()
    ensures El(D2) == Mod(2 * D)
  {
    hide Mod, Val, D2;
    D2Value();
    ModStep(Val(D2), 1);
  }

  /** Four limbs as one digit. */
  function Four(s: seq<int>, k: nat): int
    requires k + 4 <= |s|
  {
    s[k] + 65536 * s[k + 1] + 0x1_0000_0000 * s[k + 2] + 0x1_0000_0000_0000 * s[k + 3]
  }

  lemma FourLimbs(s: seq<int>, k: nat)
    requires k + 4 <= |s|
    ensures Val(s[k..]) == Four(s, k) + 0x1_0000_0000_0000_0000 * Val(s[k + 4..])
  {
    hide Val;
    ValDrop(s, k);
    ValDrop(s, k + 1);
    ValDrop(s, k + 2);
    ValDrop(s, k + 3);
  }

  lemma SixteenLimbs(s: seq<int>)
    requires |s| == 16
    ensures Val(s) == Four(s, 0) + 0x1_0000_0000_0000_0000 * (Four(s, 4)
                      + 0x1_0000_0000_0000_0000 * (Four(s, 8) + 0x1_0000_0000_0000_0000 * Four(s, 12)))
  {
    hide Val, Four;
    FourLimbs(s, 0);
    FourLimbs(s, 4);
    FourLimbs(s, 8);
    FourLimbs(s, 12);
    NoLimbs(s);
    assert s[0..] == s;
  }

  lemma NoLimbs(s: seq<int>)
    ensures Val(s[|s|..]) == 0
  {
  }

  lemma D2Value()
    ensures Val(D2) == 0x2406_d9dc_56df_fce7_198e_80f2_eef3_d130_00e0_149a_8283_b156_ebd6_9b94_26b2_f159
  {
    hide Val;
    SixteenLimbs(D2);
  }

  ghost predicate Cong(x: int, y: int) { Mod(x) == Mod(y) }

  lemma CongMul(x: int, x': int, y: int, y': int)
    requires Cong(x, x') && Cong(y, y')
    ensures Cong(x * y, x' * y') && Cong(FMul(x, y), x' * y')
  {
    MulMod(x, y);
    MulMod(x', y');
    Residue(x * y);
  }

  lemma CongAdd(x: int, x': int, y: int, y': int)
    requires Cong(x, x') && Cong(y, y')
    ensures Cong(FAdd(x, y), x' + y') && Cong(FSub(x, y), x' - y')
    ensures Cong(x + y, x' + y') && Cong(x - y, x' - y')
  {
    AddMod(x, y);
    AddMod(x', y');
    Residue(x + y);
    Residue(x - y);
  }

  lemma Residue(x: int)
    ensures Mod(Mod(x)) == Mod(x)
  {
  }

  lemma Difference(x: int, y: int, x': int, y': int)
    ensures (x + y) * (x' + y') - (y - x) * (y' - x') == 2 * (x * y' + x' * y)
    ensures (x + y) * (x' + y') + (y - x) * (y' - x') == 2 * (y * y' + x * x')
  {
  }

  lemma Doubled(t: int)
    ensures t * (2 * D) == 2 * (D * t)
  {
  }

  /** The four factors the result coordinates are products of. */
  lemma Factors(p: Pt, q: Pt) returns (e: int, f: int, g: int, h: int)
    ensures Cong(e, 2 * (p.x * q.y + q.x * p.y)) && Cong(h, 2 * (p.y * q.y + p.x * q.x))
    ensures Cong(f, 2 * (p.z * q.z) - 2 * (D * (p.t * q.t))) && Cong(g, 2 * (p.z * q.z) + 2 * (D * (p.t * q.t)))
    ensures AddPt(p, q) == Pt(FMul(e, f), FMul(h, g), FMul(g, f), FMul(e, h))
  {
    hide El, FMul, FAdd, FSub, Cong;
    var a := FMul(FSub(p.y, p.x), FSub(q.y, q.x));
    var b := FMul(FAdd(p.x, p.y), FAdd(q.x, q.y));
    var c := FMul(FMul(p.t, q.t), El(D2));
    var d := FMul(p.z, q.z);
    Differences(p.y, p.x);
    Differences(q.y, q.x);
    Differences(p.x, p.y);
    Differences(q.x, q.y);
    CongMul(FSub(p.y, p.x), p.y - p.x, FSub(q.y, q.x), q.y - q.x);
    CongMul(FAdd(p.x, p.y), p.x + p.y, FAdd(q.x, q.y), q.x + q.y);
    ConstantFactor(p.t, q.t, c);
    Same(p.z);
    Same(q.z);
    CongMul(p.z, p.z, q.z, q.z);
    CongAdd(d, p.z * q.z, d, p.z * q.z);
    var dd := FAdd(d, d);
    e, f, g, h := FSub(b, a), FSub(dd, c), FAdd(dd, c), FAdd(b, a);
    CongAdd(b, (p.x + p.y) * (q.x + q.y), a, (p.y - p.x) * (q.y - q.x));
    Difference(p.x, p.y, q.x, q.y);
    CongAdd(dd, 2 * (p.z * q.z), c, 2 * (D * (p.t * q.t)));
  }

  lemma Same(x: int)
    ensures Cong(x, x)
  {
  }

  lemma Differences(x: int, y: int)
    ensures Cong(FAdd(x, y), x + y) && Cong(FSub(x, y), x - y)
  {
    Residue(x + y);
    Residue(x - y);
  }

  lemma ConstantFactor(t: int, t': int, c: int)
    requires c == FMul(FMul(t, t'), El(D2))
    ensures Cong(c, 2 * (D * (t * t')))
  {
    hide FMul, Val;
    CurveConstant();
    Residue(2 * D);
    Residue(t * t');
    MulIs(t, t');
    CongMul(FMul(t, t'), t * t', El(D2), 2 * D);
    Doubled(t * t');
  }

  lemma MulIs(x: int, y: int)
    ensures FMul(x, y) == Mod(x * y)
  {
  }

  /** Affine coordinates. */
  datatype Affine = Affine(x: int, y: int)

  ghost predicate Inverse(z: int, i: int) { FMul(z, i) == 1 }

  ghost predicate Unit(z: int) { exists i :: Inverse(z, i) }

  /** The extended coordinates of a point: (x/z, y/z), with t the product of both times z. */
  ghost predicate Represents(p: Pt, a: Affine) {
    Unit(p.z) && Cong(p.x, a.x * p.z) && Cong(p.y, a.y * p.z) && Cong(p.t, a.x * a.y * p.z)
  }

  function Mix(a: Affine, b: Affine): int { D * (a.x * b.x * (a.y * b.y)) }

  /** The addition law of the twisted Edwards curve, with both divisions multiplied out. */
  ghost predicate EdwardsSum(a: Affine, b: Affine, r: Affine) {
    && Unit(1 + Mix(a, b)) && Unit(1 - Mix(a, b))
    && Cong(r.x * (1 + Mix(a, b)), a.x * b.y + b.x * a.y)
    && Cong(r.y * (1 - Mix(a, b)), a.y * b.y + a.x * b.x)
  }

  lemma UnitMul(x: int, y: int)
    requires Unit(x) && Unit(y)
    ensures Unit(x * y)
  {
    hide FMul;
    var i :| Inverse(x, i);
    var j :| Inverse(y, j);
    OneIs(x, i);
    OneIs(y, j);
    CongMul(x * i, 1, y * j, 1);
    Reorder(x, y, i, j);
    OneIs(x * y, i * j);
    assert Inverse(x * y, i * j);
  }

  lemma OneIs(x: int, i: int)
    ensures Inverse(x, i) <==> Cong(x * i, 1)
  {
    ModIs(1, 0, 1);
  }

  lemma Reorder(x: int, y: int, i: int, j: int)
    ensures x * i * (y * j) == x * y * (i * j)
  {
    assert x * i * (y * j) == x * (i * y) * j;
    assert x * y * (i * j) == x * (y * i) * j;
  }

  lemma UnitCong(x: int, y: int)
    requires Unit(x) && Cong(x, y)
    ensures Unit(y)
  {
    hide FMul, Cong;
    var i :| Inverse(x, i);
    OneIs(x, i);
    Same(i);
    CongMul(x, y, i, i);
    CongTrans(x * i, y * i, 1);
    OneIs(y, i);
    assert Inverse(y, i);
  }

  lemma CongTrans(x: int, y: int, z: int)
    requires Cong(x, y) && Cong(x, z)
    ensures Cong(y, z)
  {
  }

  lemma TwoIsUnit()
    ensures Unit(2)
  {
    var i := 0x3fff_ffff_ffff_ffff_ffff_ffff_ffff_ffff_ffff_ffff_ffff_ffff_ffff_ffff_ffff_fff7;
    ModIs(2 * i, 1, 1);
    assert Inverse(2, i);
  }

  lemma Gather(x: int, y: int, x': int, y': int, z: int, z': int)
    ensures x * z * (y' * z') + x' * z' * (y * z) == z * z' * (x * y' + x' * y)
  {
    Pair(x, z, y', z');
    Pair(x', z', y, z);
    Spread(z * z', x * y', x' * y);
  }

  lemma Pair(x: int, z: int, y: int, z': int)
    ensures x * z * (y * z') == z * z' * (x * y) && x * z * (y * z') == z' * z * (x * y)
  {
    Reorder(x, y, z, z');
  }

  lemma Spread(k: int, x: int, y: int)
    ensures k * x + k * y == k * (x + y)
  {
  }

  lemma Chained(a: int, b: int, c: int, d: int)
    requires Cong(a, b) && Cong(b, c) && Cong(d, c)
    ensures Cong(a, d)
  {
  }

  lemma Front(k: int, r: int, u: int)
    ensures 2 * (k * (r * u)) == r * (2 * k * u)
  {
    assert k * (r * u) == r * (k * u);
  }

  /** The first and last factors, in affine terms. */
  lemma SumFactor(e: int, p: Affine, z: int, q: Affine, z': int, x: int, y: int, x': int, y': int, r: int, u: int)
    requires Cong(x, p.x * z) && Cong(y, p.y * z) && Cong(x', q.x * z') && Cong(y', q.y * z')
    requires Cong(e, 2 * (x * y' + x' * y)) && Cong(r * u, p.x * q.y + q.x * p.y)
    ensures Cong(e, r * (2 * (z * z') * u))
  {
    hide FMul, FAdd, FSub, Cong;
    CongMul(x, p.x * z, y', q.y * z');
    CongMul(x', q.x * z', y, p.y * z);
    CongAdd(x * y', p.x * z * (q.y * z'), x' * y, q.x * z' * (p.y * z));
    Gather(p.x, p.y, q.x, q.y, z, z');
    var k := z * z';
    Same(k);
    Same(2);
    CongMul(k, k, r * u, p.x * q.y + q.x * p.y);
    CongMul(2, 2, x * y' + x' * y, k * (p.x * q.y + q.x * p.y));
    CongMul(2, 2, k * (r * u), k * (p.x * q.y + q.x * p.y));
    Chained(e, 2 * (x * y' + x' * y), 2 * (k * (p.x * q.y + q.x * p.y)), 2 * (k * (r * u)));
    Front(z * z', r, u);
  }

  lemma MixFactor(p: Affine, q: Affine, z: int, z': int, t: int, t': int)
    requires Cong(t, p.x * p.y * z) && Cong(t', q.x * q.y * z')
    ensures Cong(2 * (D * (t * t')), 2 * (z * z') * Mix(p, q))
  {
    hide FMul, Cong;
    CongMul(t, p.x * p.y * z, t', q.x * q.y * z');
    Pair(p.x * p.y, z, q.x * q.y, z');
    Reorder(p.x, q.x, p.y, q.y);
    var m := p.x * q.x * (p.y * q.y);
    Same(D);
    Same(2);
    CongMul(D, D, t * t', z * z' * m);
    CongMul(2, 2, D * (t * t'), D * (z * z' * m));
    MoveFactor(D, z * z', m);
  }

  lemma MoveFactor(d: int, k: int, m: int)
    ensures 2 * (d * (k * m)) == 2 * k * (d * m)
  {
    assert d * (k * m) == k * (d * m);
  }

  lemma MiddleFactors(f: int, g: int, k: int, s: int, m: int)
    requires Cong(f, 2 * k - s) && Cong(g, 2 * k + s) && Cong(s, 2 * k * m)
    ensures Cong(f, 2 * k * (1 - m)) && Cong(g, 2 * k * (1 + m))
  {
    hide FAdd, FSub;
    CongAdd(2 * k, 2 * k, s, 2 * k * m);
    assert 2 * k * (1 - m) == 2 * k - 2 * k * m && 2 * k * (1 + m) == 2 * k + 2 * k * m;
  }

  /** The coordinates out of the factors: `s` is twice the product of the two z. */
  lemma Products(e: int, f: int, g: int, h: int, r: Affine, s: int, u: int, w: int)
    requires Unit(s) && Unit(u) && Unit(w)
    requires Cong(e, r.x * (s * u)) && Cong(h, r.y * (s * w)) && Cong(f, s * w) && Cong(g, s * u)
    ensures Represents(Pt(FMul(e, f), FMul(h, g), FMul(g, f), FMul(e, h)), r)
  {
    hide FMul, Cong, Unit;
    var a, b := s * u, s * w;
    var z := FMul(g, f);
    CongMul(g, a, f, b);
    CongMul(e, r.x * a, f, b);
    CongMul(h, r.y * b, g, a);
    CongMul(e, r.x * a, h, r.y * b);
    ThreeFactors(r.x, r.y, a, b);
    Up(FMul(e, f), r.x, a * b, z);
    Up(FMul(h, g), r.y, a * b, z);
    Up(FMul(e, h), r.x * r.y, a * b, z);
    UnitMul(s, u);
    UnitMul(s, w);
    UnitMul(a, b);
    Symmetric(z, a * b);
    UnitCong(a * b, z);
  }

  lemma Symmetric(x: int, y: int)
    requires Cong(x, y)
    ensures Cong(y, x)
  {
  }

  lemma ThreeFactors(x: int, y: int, a: int, b: int)
    ensures x * a * b == x * (a * b) && y * b * a == y * (a * b) && x * a * (y * b) == x * y * (a * b)
  {
    Reorder(x, y, a, b);
  }

  lemma Up(v: int, x: int, c: int, z: int)
    requires Cong(v, x * c) && Cong(z, c)
    ensures Cong(v, x * z)
  {
    hide FMul;
    CongMul(x, x, z, c);
  }

  /** `add` computes the addition law: coordinates that represent two points give coordinates that
      represent their sum. */
  lemma AddIsEdwards(p: Pt, q: Pt, a: Affine, b: Affine, r: Affine)
    requires Represents(p, a) && Represents(q, b) && EdwardsSum(a, b, r)
    ensures Represents(AddPt(p, q), r)
  {
    hide FMul, Cong, Unit, Mix, AddPt;
    var e, f, g, h := Factors(p, q);
    var k, m := p.z * q.z, Mix(a, b);
    SumFactor(e, a, p.z, b, q.z, p.x, p.y, q.x, q.y, r.x, 1 + m);
    SumFactor(h, Affine(a.y, a.x), p.z, Affine(b.x, b.y), q.z, p.y, p.x, q.x, q.y, r.y, 1 - m);
    MixFactor(a, b, p.z, q.z, p.t, q.t);
    MiddleFactors(f, g, k, 2 * (D * (p.t * q.t)), m);
    TwoIsUnit();
    UnitMul(p.z, q.z);
    UnitMul(2, k);
    Products(e, f, g, h, r, 2 * k, 1 + m, 1 - m);
  }

  // ---------- the base point ----------

  const BASE_X: seq<exact> := [
    0xd51a, 0x8f25, 0x2d60, 0xc956, 0xa7b2, 0x9525, 0xc760, 0x692c, 0xdc5c, 0xfdd6, 0xe231, 0xc0a4, 0x53fe, 0xcd6e,
    0x36d3, 0x2169
  ]

  const BASE_Y: seq<exact> := [
    0x6658, 0x6666, 0x6666, 0x6666, 0x6666, 0x6666, 0x6666, 0x6666, 0x6666, 0x6666, 0x6666, 0x6666, 0x6666, 0x6666,
    0x6666, 0x6666
  ]

  const B: Affine := Affine(
    0x2169_36d3_cd6e_53fe_c0a4_e231_fdd6_dc5c_692c_c760_9525_a7b2_c956_2d60_8f25_d51a,
    0x6666_6666_6666_6666_6666_6666_6666_6666_6666_6666_6666_6666_6666_6666_6666_6658)

  ghost const BASE: Pt := Pt(B.x, B.y, 1, FMul(B.x, B.y))

  ghost predicate OnCurve(a: Affine) {
    Cong(a.y * a.y - a.x * a.x, 1 + D * (a.x * a.x * (a.y * a.y)))
  }

  lemma BaseLimbs()
    ensures Val(BASE_X) == El(BASE_X) == B.x && Val(BASE_Y) == El(BASE_Y) == B.y
  {
    BaseX();
    BaseY();
  }

  lemma BaseX()
    ensures Val(BASE_X) == El(BASE_X) == B.x
  {
    hide Val;
    SixteenLimbs(BASE_X);
  }

  lemma BaseY()
    ensures Val(BASE_Y) == El(BASE_Y) == B.y
  {
    hide Val;
    SixteenLimbs(BASE_Y);
  }

  lemma Squares()
    ensures Cong(B.x * B.x, 0x39e5_a76b_6f33_fadb_c92a_232f_db1c_32f2_ebe3_9c55_5ccb_6a7d_690b_8a0f_82e8_1c67)
    ensures Cong(B.y * B.y, 0x51eb_851e_b851_eb85_1eb8_51eb_851e_b851_eb85_1eb8_51eb_851e_b851_eb85_1eb8_51e0)
  {
    ModIs(B.x * B.x, 0x08b8_96c1_40e6_001e_d198_b5b7_b564_c5e7_c4ce_a765_6ac9_2ed1_492b_a585_5328_6991,
          0x39e5_a76b_6f33_fadb_c92a_232f_db1c_32f2_ebe3_9c55_5ccb_6a7d_690b_8a0f_82e8_1c67);
    ModIs(B.y * B.y, 0x51eb_851e_b851_eb85_1eb8_51eb_851e_b851_eb85_1eb8_51eb_851e_b851_eb85_1eb8_51e0,
          0x51eb_851e_b851_eb85_1eb8_51eb_851e_b851_eb85_1eb8_51eb_851e_b851_eb85_1eb8_51e0);
  }

  lemma MixOfSquares()
    ensures Cong(0x39e5_a76b_6f33_fadb_c92a_232f_db1c_32f2_ebe3_9c55_5ccb_6a7d_690b_8a0f_82e8_1c67
                 * 0x51eb_851e_b851_eb85_1eb8_51eb_851e_b851_eb85_1eb8_51eb_851e_b851_eb85_1eb8_51e0,
                 0x43c6_2db5_65e3_d3bf_dce7_c499_81fd_913f_4f49_fda7_45a0_e7fe_57b5_7714_2ad1_fdae)
    ensures Cong(D * 0x43c6_2db5_65e3_d3bf_dce7_c499_81fd_913f_4f49_fda7_45a0_e7fe_57b5_7714_2ad1_fdae,
                 0x1805_ddb3_491d_f0a9_558e_2ebb_aa02_855e_ffa1_8262_f520_1aa1_4f46_6175_9bd0_3578)
  {
    ModIs(0x39e5_a76b_6f33_fadb_c92a_232f_db1c_32f2_ebe3_9c55_5ccb_6a7d_690b_8a0f_82e8_1c67
          * 0x51eb_851e_b851_eb85_1eb8_51eb_851e_b851_eb85_1eb8_51eb_851e_b851_eb85_1eb8_51e0,
          0x250d_dbc9_e0c5_1b6d_f162_a5e1_3012_0c20_96f8_1222_26e8_9612_d296_bec2_3f4c_defa,
          0x43c6_2db5_65e3_d3bf_dce7_c499_81fd_913f_4f49_fda7_45a0_e7fe_57b5_7714_2ad1_fdae);
    ModIs(D * 0x43c6_2db5_65e3_d3bf_dce7_c499_81fd_913f_4f49_fda7_45a0_e7fe_57b5_7714_2ad1_fdae,
          0x2b6c_c59a_9994_4230_931f_709d_d615_4114_df37_73c1_4313_160c_6e00_01c2_40b8_a35a,
          0x1805_ddb3_491d_f0a9_558e_2ebb_aa02_855e_ffa1_8262_f520_1aa1_4f46_6175_9bd0_3578);
  }

  /** The base point of section 5.1 of RFC 8032: 4/5 for its second coordinate, an even first one,
      and on the curve. */
  lemma BaseIsOnTheCurve()
    ensures OnCurve(B) && Represents(BASE, B) && B.x % 2 == 0 && Mod(5 * B.y) == 4
  {
    ModIs(5 * B.y, 4, 4);
    BaseEquation();
    BaseRepresents();
  }

  lemma BaseRepresents()
    ensures Represents(BASE, B)
  {
    ModIs(1, 0, 1);
    assert Inverse(1, 1);
    Residue(B.x * B.y);
  }

  lemma BaseEquation()
    ensures OnCurve(B)
  {
    hide Cong;
    var xx := 0x39e5_a76b_6f33_fadb_c92a_232f_db1c_32f2_ebe3_9c55_5ccb_6a7d_690b_8a0f_82e8_1c67;
    var yy := 0x51eb_851e_b851_eb85_1eb8_51eb_851e_b851_eb85_1eb8_51eb_851e_b851_eb85_1eb8_51e0;
    var m := 0x43c6_2db5_65e3_d3bf_dce7_c499_81fd_913f_4f49_fda7_45a0_e7fe_57b5_7714_2ad1_fdae;
    var dm := 0x1805_ddb3_491d_f0a9_558e_2ebb_aa02_855e_ffa1_8262_f520_1aa1_4f46_6175_9bd0_3578;
    Squares();
    MixOfSquares();
    CongAdd(B.y * B.y, yy, B.x * B.x, xx);
    CongMul(B.x * B.x, xx, B.y * B.y, yy);
    CongChain(B.x * B.x * (B.y * B.y), xx * yy, m);
    Same(D);
    Same(1);
    CongMul(D, D, B.x * B.x * (B.y * B.y), m);
    CongChain(D * (B.x * B.x * (B.y * B.y)), D * m, dm);
    CongAdd(1, 1, D * (B.x * B.x * (B.y * B.y)), dm);
    ShortEquation();
    CongChain(B.y * B.y - B.x * B.x, yy - xx, 1 + dm);
    Symmetric(1 + D * (B.x * B.x * (B.y * B.y)), 1 + dm);
    CongChain(B.y * B.y - B.x * B.x, 1 + dm, 1 + D * (B.x * B.x * (B.y * B.y)));
  }

  lemma ShortEquation()
    ensures Cong(0x51eb_851e_b851_eb85_1eb8_51eb_851e_b851_eb85_1eb8_51eb_851e_b851_eb85_1eb8_51e0
                 - 0x39e5_a76b_6f33_fadb_c92a_232f_db1c_32f2_ebe3_9c55_5ccb_6a7d_690b_8a0f_82e8_1c67,
                 1 + 0x1805_ddb3_491d_f0a9_558e_2ebb_aa02_855e_ffa1_8262_f520_1aa1_4f46_6175_9bd0_3578)
  {
    ModStep(1 + 0x1805_ddb3_491d_f0a9_558e_2ebb_aa02_855e_ffa1_8262_f520_1aa1_4f46_6175_9bd0_3578, 0);
  }

  lemma CongChain(x: int, y: int, z: int)
    requires Cong(x, y) && Cong(y, z)
    ensures Cong(x, z)
  {
  }
}
