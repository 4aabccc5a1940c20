/** Points as four arrays of limbs: addition, the masked swap, the ladder, inversion and packing. */
module CurveOps {
  import opened Bytes
  import opened Limbs
  import opened FieldOps
  import opened Int32
  import opened Curve
  import opened Ladder

  /** A point in memory: four different arrays of sixteen limbs. */
  type Point = seq<array<exact>>

  predicate Shape(p: Point) {
    && |p| == 4
    && p[0] != p[1] && p[0] != p[2] && p[0] != p[3] && p[1] != p[2] && p[1] != p[3] && p[2] != p[3]
    && p[0].Length == p[1].Length == p[2].Length == p[3].Length == 16
  }

  ghost predicate Good(p: Point)
    requires Shape(p)
    reads p
  {
    Reduced(p[0][..]) && Reduced(p[1][..]) && Reduced(p[2][..]) && Reduced(p[3][..])
  }

  ghost function Coords(p: Point): Pt
    requires Shape(p)
    reads p
  {
    Pt(El(p[0][..]), El(p[1][..]), El(p[2][..]), El(p[3][..]))
  }

  lemma ReducedIsLoose(s: seq<int>)
    requires Reduced(s)
    ensures Loose(s)
  {
  }

  /** Sums and differences of two reduced elements, and of one more, can still be multiplied. */
  lemma SumsAreLoose(r: seq<int>, a: seq<int>, b: seq<int>, sign: int)
    requires |r| == |a| == |b| == 16 && -1 <= sign <= 1
    requires (Reduced(a) || Twice(a)) && Reduced(b)
    requires forall i :: 0 <= i < 16 ==> r[i] == a[i] + sign * b[i]
    ensures Loose(r)
  {
  }

  predicate Twice(a: seq<int>) { |a| == 16 && forall i :: 0 <= i < 16 ==> -76 <= a[i] <= 2 * (65536 + 38) }

  /** `gf` with its first limbs given. */
  method Gf(init: seq<exact>) returns (o: array<exact>)
    requires |init| == 16
    ensures fresh(o) && o.Length == 16 && o[..] == init
  {
    o := new exact[16];
    CopyLimbs(o, init);
  }

  /** The first half of `add`: the products a and b, from differences and sums of coordinates. */
  method FirstProducts(p: Point, q: Point) returns (a: array<exact>, b: array<exact>)
    requires Shape(p) && Shape(q) && Good(p) && Good(q)
    ensures fresh(a) && fresh(b) && a != b && a.Length == b.Length == 16
    ensures Reduced(a[..]) && Reduced(b[..])
    ensures El(a[..]) == FMul(FSub(Coords(p).y, Coords(p).x), FSub(Coords(q).y, Coords(q).x))
    ensures El(b[..]) == FMul(FAdd(Coords(p).x, Coords(p).y), FAdd(Coords(q).x, Coords(q).y))
  {
    a := Crossed(p[1], p[0], q[1], q[0], true);
    b := Crossed(p[0], p[1], q[0], q[1], false);
  }

  method Crossed(x: array<exact>, y: array<exact>, x': array<exact>, y': array<exact>, minus: bool) returns (a: array<exact>)
    requires Reduced(x[..]) && Reduced(y[..]) && Reduced(x'[..]) && Reduced(y'[..])
    ensures fresh(a) && a.Length == 16 && Reduced(a[..])
    ensures minus ==> El(a[..]) == FMul(FSub(El(x[..]), El(y[..])), FSub(El(x'[..]), El(y'[..])))
    ensures !minus ==> El(a[..]) == FMul(FAdd(El(x[..]), El(y[..])), FAdd(El(x'[..]), El(y'[..])))
  {
    hide El, FMul, FAdd, FSub, Reduced, Loose;
    a := new exact[16];
    var t := new exact[16];
    ReducedIsLoose(x[..]);
    ReducedIsLoose(y[..]);
    ReducedIsLoose(x'[..]);
    ReducedIsLoose(y'[..]);
    Lengths(x[..], y[..], x'[..], y'[..]);
    if minus {
      Z(a, x, y);
      Z(t, x', y');
      SumsAreLoose(a[..], x[..], y[..], -1);
      SumsAreLoose(t[..], x'[..], y'[..], -1);
    } else {
      A(a, x, y);
      A(t, x', y');
      SumsAreLoose(a[..], x[..], y[..], 1);
      SumsAreLoose(t[..], x'[..], y'[..], 1);
    }
    M(a, a, t);
  }

  lemma Lengths(x: seq<int>, y: seq<int>, x': seq<int>, y': seq<int>)
    requires Reduced(x) && Reduced(y) && Reduced(x') && Reduced(y')
    ensures |x| == |y| == |x'| == |y'| == 16
  {
  }

  lemma D2IsReduced()
    ensures Reduced(D2)
  {
  }

  /** The products c and d; d is doubled without a carry. */
  method LastProducts(p: Point, q: Point) returns (c: array<exact>, d: array<exact>)
    requires Shape(p) && Shape(q) && Good(p) && Good(q)
    ensures fresh(c) && fresh(d) && c != d && c.Length == d.Length == 16
    ensures Reduced(c[..]) && Twice(d[..])
    ensures El(c[..]) == FMul(FMul(Coords(p).t, Coords(q).t), El(D2))
    ensures var z := FMul(Coords(p).z, Coords(q).z); El(d[..]) == FAdd(z, z)
  {
    hide El, FMul, FAdd, Loose;
    c := TripleProduct(p[3], q[3]);
    d := new exact[16];
    ReducedIsLoose(p[2][..]);
    ReducedIsLoose(q[2][..]);
    M(d, p[2], q[2]);
    ReducedIsLoose(d[..]);
    A(d, d, d);
  }

  method TripleProduct(x: array<exact>, y: array<exact>) returns (c: array<exact>)
    requires Reduced(x[..]) && Reduced(y[..])
    ensures fresh(c) && c.Length == 16 && Reduced(c[..])
    ensures El(c[..]) == FMul(FMul(El(x[..]), El(y[..])), El(D2))
  {
    hide El, FMul, Loose, Reduced;
    c := new exact[16];
    ReducedIsLoose(x[..]);
    ReducedIsLoose(y[..]);
    M(c, x, y);
    var d2 := Gf(D2);
    D2IsReduced();
    ReducedIsLoose(D2);
    ReducedIsLoose(c[..]);
    M(c, c, d2);
  }

  /** The four factors e, f, g, h. */
  method Factored(a: array<exact>, b: array<exact>, c: array<exact>, d: array<exact>)
    returns (e: array<exact>, f: array<exact>, g: array<exact>, h: array<exact>)
    requires Reduced(a[..]) && Reduced(b[..]) && Reduced(c[..]) && Twice(d[..])
    ensures fresh(e) && fresh(f) && fresh(g) && fresh(h)
    ensures Loose(e[..]) && Loose(f[..]) && Loose(g[..]) && Loose(h[..])
    ensures El(e[..]) == FSub(El(b[..]), El(a[..])) && El(f[..]) == FSub(El(d[..]), El(c[..]))
    ensures El(g[..]) == FAdd(El(d[..]), El(c[..])) && El(h[..]) == FAdd(El(b[..]), El(a[..]))
  {
    hide El, FAdd, FSub, Loose, Reduced, Twice;
    e := Minus(b, a);
    f := Minus(d, c);
    g := Plus(d, c);
    h := Plus(b, a);
  }

  method Minus(x: array<exact>, y: array<exact>) returns (e: array<exact>)
    requires (Reduced(x[..]) || Twice(x[..])) && Reduced(y[..])
    ensures fresh(e) && Loose(e[..]) && El(e[..]) == FSub(El(x[..]), El(y[..]))
  {
    hide El, FSub;
    e := new exact[16];
    Z(e, x, y);
    SumsAreLoose(e[..], x[..], y[..], -1);
  }

  method Plus(x: array<exact>, y: array<exact>) returns (e: array<exact>)
    requires (Reduced(x[..]) || Twice(x[..])) && Reduced(y[..])
    ensures fresh(e) && Loose(e[..]) && El(e[..]) == FAdd(El(x[..]), El(y[..]))
  {
    hide El, FAdd;
    e := new exact[16];
    A(e, x, y);
    SumsAreLoose(e[..], x[..], y[..], 1);
  }

  /** The last four multiplications, into the arrays of `p`. */
  method Assemble(p: Point, e: array<exact>, f: array<exact>, g: array<exact>, h: array<exact>)
    requires Shape(p) && Loose(e[..]) && Loose(f[..]) && Loose(g[..]) && Loose(h[..])
    requires e !in p && f !in p && g !in p && h !in p
    modifies p
    ensures Good(p)
    ensures Coords(p) == Pt(FMul(old(El(e[..])), old(El(f[..]))), FMul(old(El(h[..])), old(El(g[..]))),
                            FMul(old(El(g[..])), old(El(f[..]))), FMul(old(El(e[..])), old(El(h[..]))))
  {
    hide El, FMul, Loose, Reduced;
    M(p[0], e, f);
    M(p[1], h, g);
    M(p[2], g, f);
    M(p[3], e, h);
  }

  /** `add`: the first point becomes the sum; the second may be the first itself. */
  method Add(p: Point, q: Point)
    requires Shape(p) && Shape(q) && Good(p) && Good(q)
    modifies p
    ensures Good(p) && Coords(p) == AddPt(old(Coords(p)), old(Coords(q)))
  {
    hide El, FMul, FAdd, FSub, Loose, Reduced, Twice;
    var a, b := FirstProducts(p, q);
    var c, d := LastProducts(p, q);
    var e, f, g, h := Factored(a, b, c, d);
    Assemble(p, e, f, g, h);
  }

  // ---------- the masked swap ----------

  predicate Small(s: seq<int>) { |s| == 16 && forall i :: 0 <= i < 16 ==> Fits(s[i]) }

  /** `sel25519`: the limbs of two arrays change places when the bit is set, and stay otherwise. */
  method Sel25519(p: array<exact>, q: array<exact>, b: int)
    requires p != q && Small(p[..]) && Small(q[..]) && (b == 0 || b == 1)
    modifies p, q
    ensures p[..] == old(if b == 1 then q[..] else p[..])
    ensures q[..] == old(if b == 1 then p[..] else q[..])
  {
    hide And, Xor, Mask;
    var c := Mask(b);
    ghost var x: seq<int>, y: seq<int> := p[..], q[..];
    for i := 0 to 16
      invariant forall k :: 0 <= k < i ==> p[k] == (if b == 1 then y[k] else x[k])
      invariant forall k :: 0 <= k < i ==> q[k] == (if b == 1 then x[k] else y[k])
      invariant forall k :: i <= k < 16 ==> p[k] == x[k] && q[k] == y[k]
    {
      assert Fits(x[i]) && Fits(y[i]);
      Exchange(x[i], y[i], b);
      var t := And(c, Xor(ToWord(p[i]), ToWord(q[i])));
      p[i] := Signed(Xor(ToWord(p[i]), t));
      q[i] := Signed(Xor(ToWord(q[i]), t));
    }
  }

  predicate Apart(p: Point, q: Point)
    requires |p| == |q| == 4
  {
    forall i, j :: 0 <= i < 4 && 0 <= j < 4 ==> p[i] != q[j]
  }

  lemma ReducedIsSmall(s: seq<int>)
    requires Reduced(s)
    ensures Small(s)
  {
  }

  /** `cswap` */
  method Cswap(p: Point, q: Point, b: int)
    requires Shape(p) && Shape(q) && Apart(p, q) && Good(p) && Good(q) && (b == 0 || b == 1)
    modifies p, q
    ensures Good(p) && Good(q)
    ensures Coords(p) == old(if b == 1 then Coords(q) else Coords(p))
    ensures Coords(q) == old(if b == 1 then Coords(p) else Coords(q))
  {
    hide Reduced, El;
    for i := 0 to 4
      invariant forall k :: 0 <= k < 4 ==>
        p[k][..] == old(if b == 1 && k < i then q[k][..] else p[k][..])
        && q[k][..] == old(if b == 1 && k < i then p[k][..] else q[k][..])
    {
      ReducedIsSmall(p[i][..]);
      ReducedIsSmall(q[i][..]);
      Sel25519(p[i], q[i], b);
    }
    assert p[0][..] == old(if b == 1 then q[0][..] else p[0][..]);
    assert p[1][..] == old(if b == 1 then q[1][..] else p[1][..]);
    assert p[2][..] == old(if b == 1 then q[2][..] else p[2][..]);
    assert p[3][..] == old(if b == 1 then q[3][..] else p[3][..]);
  }

  // ---------- the ladder ----------

  /** `set25519`, with its conversion to 32-bit integers. */
  method Set25519(r: array<exact>, a: seq<exact>)
    requires r.Length == 16 && Small(a)
    modifies r
    ensures r[..] == a
  {
    hide ToWord, Signed;
    for i := 0 to 16
      invariant forall k :: 0 <= k < i ==> r[k] == a[k]
    {
      WordRoundTrip(a[i]);
      r[i] := Signed(ToWord(a[i]));
    }
  }

  const GF0: seq<exact> := [0, 0, 0, 0, 0, 0, 0, 0, 0, 0, 0, 0, 0, 0, 0, 0]

  const GF1: seq<exact> := [1, 0, 0, 0, 0, 0, 0, 0, 0, 0, 0, 0, 0, 0, 0, 0]

  lemma Constants()
    ensures Reduced(GF0) && Reduced(GF1) && Small(GF0) && Small(GF1)
    ensures El(GF0) == 0 && El(GF1) == 1
  {
    hide Val;
    ZeroValue(GF0);
    ValUpdateFirst(GF0, 1);
    assert GF1 == GF0[0 := 1];
  }

  method SetOrigin(p: Point)
    requires Shape(p)
    modifies p
    ensures Good(p) && Coords(p) == ORIGIN
  {
    hide El, Reduced, Small;
    Constants();
    Set25519(p[0], GF0);
    Set25519(p[1], GF1);
    Set25519(p[2], GF1);
    Set25519(p[3], GF0);
  }

  method OneTurn(p: Point, q: Point, b: int)
    requires Shape(p) && Shape(q) && Apart(p, q) && Good(p) && Good(q) && (b == 0 || b == 1)
    modifies p, q
    ensures Good(p) && Good(q)
    ensures Rungs(Coords(p), Coords(q)) == Turn(old(Rungs(Coords(p), Coords(q))), b)
  {
    hide AddPt, Reduced, El;
    Cswap(p, q, b);
    AddApart(q, p);
    AddInto(p, q);
    Cswap(p, q, b);
  }

  method AddApart(p: Point, q: Point)
    requires Shape(p) && Shape(q) && Apart(p, q) && Good(p) && Good(q)
    modifies p
    ensures Good(p) && Coords(p) == AddPt(old(Coords(p)), old(Coords(q)))
    ensures Good(q) && Coords(q) == old(Coords(q))
  {
    hide AddPt, Reduced, El;
    Add(p, q);
  }

  method AddInto(p: Point, q: Point)
    requires Shape(p) && Shape(q) && Apart(p, q) && Good(p) && Good(q)
    modifies p
    ensures Good(p) && Coords(p) == AddPt(old(Coords(p)), old(Coords(p)))
    ensures Good(q) && Coords(q) == old(Coords(q))
  {
    hide AddPt, Reduced, El;
    Add(p, p);
  }

  /** `scalarmult`: the 256 bits of the scalar from the top. */
  method ScalarMult(p: Point, q: Point, s: seq<byte>)
    requires Shape(p) && Shape(q) && Apart(p, q) && Good(q) && |s| >= 32
    modifies p, q
    ensures Good(p) && Coords(p) == Climb(old(Coords(q)), s[..32], 0).p
  {
    hide Reduced, El, Turn, AddPt, Good;
    ghost var base := Coords(q);
    ghost var k := s[..32];
    Origin(p, q);
    var i := 255;
    while i >= 0
      invariant -1 <= i <= 255 && Good(p) && Good(q)
      invariant Rungs(Coords(p), Coords(q)) == Climb(base, k, i + 1)
    {
      BitSmall(k, i);
      SameBit(s, i);
      var b := s[i / 8] / Two(i % 8) % 2;
      OneTurn(p, q, b);
      i := i - 1;
    }
  }

  lemma SameBit(s: seq<byte>, i: nat)
    requires |s| >= 32 && i < 256
    ensures Bit(s[..32], i) == s[i / 8] / Two(i % 8) % 2
  {
  }

  method Origin(p: Point, q: Point)
    requires Shape(p) && Shape(q) && Apart(p, q) && Good(q)
    modifies p
    ensures Good(p) && Good(q) && Coords(p) == ORIGIN && Coords(q) == old(Coords(q))
  {
    hide Reduced, El;
    SetOrigin(p);
  }

  lemma BaseLimbsReduced()
    ensures Reduced(BASE_X) && Reduced(BASE_Y) && Small(BASE_X) && Small(BASE_Y)
  {
  }

  /** The first three coordinates. */
  method SetBase(q: Point)
    requires Shape(q)
    modifies q
    ensures q[0][..] == BASE_X && q[1][..] == BASE_Y && q[2][..] == GF1
  {
    hide Small;
    BaseLimbsReduced();
    Constants();
    Set25519(q[0], BASE_X);
    Set25519(q[1], BASE_Y);
    Set25519(q[2], GF1);
  }

  method BaseProduct(o: array<exact>)
    requires o.Length == 16
    modifies o
    ensures Reduced(o[..]) && El(o[..]) == FMul(El(BASE_X), El(BASE_Y))
  {
    hide El, Reduced, FMul, Loose;
    BaseLimbsReduced();
    ReducedIsLoose(BASE_X);
    ReducedIsLoose(BASE_Y);
    var x := Gf(BASE_X);
    var y := Gf(BASE_Y);
    M(o, x, y);
  }

  method BasePoint(q: Point)
    requires Shape(q)
    modifies q
    ensures Good(q) && Coords(q) == BASE
  {
    hide El, Reduced, FMul, BASE_X, BASE_Y, GF1;
    SetBase(q);
    BaseProduct(q[3]);
    BaseLimbsReduced();
    Constants();
    BaseLimbs();
  }

  method NewPoint() returns (q: Point)
    ensures Shape(q) && fresh(q[0]) && fresh(q[1]) && fresh(q[2]) && fresh(q[3])
  {
    var q0, q1, q2, q3 := new exact[16], new exact[16], new exact[16], new exact[16];
    q := [q0, q1, q2, q3];
  }

  /** `scalarbase` */
  method ScalarBase(p: Point, s: seq<byte>)
    requires Shape(p) && |s| >= 32
    modifies p
    ensures Good(p) && Coords(p) == Climb(BASE, s[..32], 0).p
  {
    hide Reduced, El, Climb, Good;
    var q := NewPoint();
    BasePoint(q);
    ScalarMult(p, q, s);
  }
}
