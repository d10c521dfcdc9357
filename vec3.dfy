/** Three-component vectors of signed 8-bit integers. Every operation computes in
    8 bits and would panic on overflow, so each one requires that its
    intermediate results fit. */
module Vectors {

  newtype I8 = v: int | -128 <= v < 128

  predicate InI8(v: int) {
    -128 <= v < 128
  }

  /** The vector stores its components in a three-element array; `x`, `y` and `z`
      read components 0, 1 and 2. */
  datatype Vec3 = Vec3(x: I8, y: I8, z: I8)

  /** Component `i` of `v` (indexing past 2 panics). */
  function Index(v: Vec3, i: nat): I8
    requires i < 3
  {
    if i == 0 then v.x else if i == 1 then v.y else v.z
  }

  /** `v` with component `i` replaced by `c`. */
  function WithComponent(v: Vec3, i: nat, c: I8): (r: Vec3)
    requires i < 3
    ensures Index(r, i) == c
    ensures forall j :: 0 <= j < 3 && j != i ==> Index(r, j) == Index(v, j)
  {
    if i == 0 then v.(x := c) else if i == 1 then v.(y := c) else v.(z := c)
  }

  function New(x: I8, y: I8, z: I8): (v: Vec3)
    ensures Index(v, 0) == x && Index(v, 1) == y && Index(v, 2) == z
  {
    Vec3(x, y, z)
  }

  function Zero(): (v: Vec3)
    ensures forall i :: 0 <= i < 3 ==> Index(v, i) == 0
  {
    New(0, 0, 0)
  }

  // ---------------------------------------------------------------------------
  // Overflow guards, stated on unbounded integers.

  predicate NegFits(v: Vec3) {
    v.x != -128 && v.y != -128 && v.z != -128
  }

  predicate AddFits(a: Vec3, b: Vec3) {
    InI8(a.x as int + b.x as int) && InI8(a.y as int + b.y as int) && InI8(a.z as int + b.z as int)
  }

  predicate MulFits(a: Vec3, b: Vec3) {
    InI8(a.x as int * b.x as int) && InI8(a.y as int * b.y as int) && InI8(a.z as int * b.z as int)
  }

  predicate ScaleFits(v: Vec3, s: I8) {
    InI8(v.x as int * s as int) && InI8(v.y as int * s as int) && InI8(v.z as int * s as int)
  }

  /** Each product, the sum of the first two and the full sum fit. */
  predicate DotFits(a: Vec3, b: Vec3) {
    var xx, yy, zz := a.x as int * b.x as int, a.y as int * b.y as int, a.z as int * b.z as int;
    InI8(xx) && InI8(yy) && InI8(zz) && InI8(xx + yy) && InI8(xx + yy + zz)
  }

  predicate DiffOfProductsFits(a: int, b: int, c: int, d: int) {
    InI8(a * b) && InI8(c * d) && InI8(a * b - c * d)
  }

  predicate CrossFits(a: Vec3, b: Vec3) {
    && DiffOfProductsFits(a.y as int, b.z as int, a.z as int, b.y as int)
    && DiffOfProductsFits(a.z as int, b.x as int, a.x as int, b.z as int)
    && DiffOfProductsFits(a.x as int, b.y as int, a.y as int, b.x as int)
  }

  // ---------------------------------------------------------------------------
  // Operations.

  function Neg(v: Vec3): (r: Vec3)
    requires NegFits(v)
    ensures NegFits(r)
    ensures r.x as int == -(v.x as int) && r.y as int == -(v.y as int) && r.z as int == -(v.z as int)
  {
    New(-v.x, -v.y, -v.z)
  }

  function Add(a: Vec3, b: Vec3): (r: Vec3)
    requires AddFits(a, b)
    ensures r.x as int == a.x as int + b.x as int
    ensures r.y as int == a.y as int + b.y as int
    ensures r.z as int == a.z as int + b.z as int
  {
    New(a.x + b.x, a.y + b.y, a.z + b.z)
  }

  /** Subtraction adds the negation, so it needs both the negation and the sum to fit. */
  function Sub(a: Vec3, b: Vec3): (r: Vec3)
    requires NegFits(b) && AddFits(a, Neg(b))
    ensures r.x as int == a.x as int - b.x as int
    ensures r.y as int == a.y as int - b.y as int
    ensures r.z as int == a.z as int - b.z as int
  {
    Add(a, Neg(b))
  }

  /** Componentwise product. */
  function Mul(a: Vec3, b: Vec3): (r: Vec3)
    requires MulFits(a, b)
    ensures r.x as int == a.x as int * b.x as int
    ensures r.y as int == a.y as int * b.y as int
    ensures r.z as int == a.z as int * b.z as int
  {
    New(a.x * b.x, a.y * b.y, a.z * b.z)
  }

  /** `v * s`. */
  function Scale(v: Vec3, s: I8): (r: Vec3)
    requires ScaleFits(v, s)
    ensures r.x as int == v.x as int * s as int
    ensures r.y as int == v.y as int * s as int
    ensures r.z as int == v.z as int * s as int
  {
    New(v.x * s, v.y * s, v.z * s)
  }

  /** `s * v`, defined as `v * s`. */
  function ScaleLeft(s: I8, v: Vec3): (r: Vec3)
    requires ScaleFits(v, s)
    ensures r.x as int == s as int * v.x as int
    ensures r.y as int == s as int * v.y as int
    ensures r.z as int == s as int * v.z as int
  {
    Scale(v, s)
  }

  /** `s * v` and `v * s` are the same vector. */
  lemma ScaleLeftIsScale(s: I8, v: Vec3)
    requires ScaleFits(v, s)
    ensures ScaleLeft(s, v) == Scale(v, s)
  {
    IntMulCommutes(v.x as int, s as int);
    IntMulCommutes(v.y as int, s as int);
    IntMulCommutes(v.z as int, s as int);
  }

  function Dot(a: Vec3, b: Vec3): I8
    requires DotFits(a, b)
  {
    a.x * b.x + a.y * b.y + a.z * b.z
  }

  function LengthSquared(v: Vec3): (r: I8)
    requires DotFits(v, v)
    ensures r >= 0
    ensures r == Dot(v, v)
    ensures r as int == v.x as int * v.x as int + v.y as int * v.y as int + v.z as int * v.z as int
  {
    Dot(v, v)
  }

  function Cross(a: Vec3, b: Vec3): Vec3
    requires CrossFits(a, b)
  {
    New(a.y * b.z - a.z * b.y, a.z * b.x - a.x * b.z, a.x * b.y - a.y * b.x)
  }

  // ---------------------------------------------------------------------------
  // Laws.

  lemma NegInvolution(v: Vec3)
    requires NegFits(v)
    ensures Neg(Neg(v)) == v
  {
  }

  lemma AddComponentwise(a: Vec3, b: Vec3, i: nat)
    requires AddFits(a, b) && i < 3
    ensures Index(Add(a, b), i) as int == Index(a, i) as int + Index(b, i) as int
  {
  }

  lemma AddCommutes(a: Vec3, b: Vec3)
    requires AddFits(a, b)
    ensures AddFits(b, a) && Add(a, b) == Add(b, a)
  {
  }

  lemma AddAssociates(a: Vec3, b: Vec3, c: Vec3)
    requires AddFits(a, b) && AddFits(b, c)
    requires InI8(a.x as int + b.x as int + c.x as int)
    requires InI8(a.y as int + b.y as int + c.y as int)
    requires InI8(a.z as int + b.z as int + c.z as int)
    ensures AddFits(Add(a, b), c) && AddFits(a, Add(b, c))
    ensures Add(Add(a, b), c) == Add(a, Add(b, c))
  {
  }

  lemma AddZeroIdentity(v: Vec3)
    ensures AddFits(v, Zero()) && Add(v, Zero()) == v
  {
  }

  lemma SubZeroIdentity(v: Vec3)
    ensures NegFits(Zero()) && AddFits(v, Neg(Zero())) && Sub(v, Zero()) == v
  {
    var z := Zero();
    assert z == Vec3(0, 0, 0);
    assert Neg(z) == z;
    AddZeroIdentity(v);
    assert Sub(v, z) == Add(v, z);
  }

  lemma MulCommutes(a: Vec3, b: Vec3)
    requires MulFits(a, b)
    ensures MulFits(b, a) && Mul(a, b) == Mul(b, a)
  {
  }

  lemma MulOneIdentity(v: Vec3)
    ensures MulFits(v, New(1, 1, 1)) && Mul(v, New(1, 1, 1)) == v
  {
  }

  lemma MulZeroAnnihilates(v: Vec3)
    ensures MulFits(v, Zero()) && Mul(v, Zero()) == Zero()
  {
  }

  lemma MulAssociates(a: Vec3, b: Vec3, c: Vec3)
    requires MulFits(a, b) && MulFits(b, c)
    requires InI8(a.x as int * b.x as int * c.x as int)
    requires InI8(a.y as int * b.y as int * c.y as int)
    requires InI8(a.z as int * b.z as int * c.z as int)
    ensures MulFits(Mul(a, b), c) && MulFits(a, Mul(b, c))
    ensures Mul(Mul(a, b), c) == Mul(a, Mul(b, c))
  {
    IntMulAssociates(a.x as int, b.x as int, c.x as int);
    IntMulAssociates(a.y as int, b.y as int, c.y as int);
    IntMulAssociates(a.z as int, b.z as int, c.z as int);
  }

  lemma IntMulAssociates(p: int, q: int, r: int)
    ensures (p * q) * r == p * (q * r)
  {
  }

  lemma MulDistributesOverAdd(a: Vec3, b: Vec3, c: Vec3)
    requires AddFits(b, c) && MulFits(a, b) && MulFits(a, c)
    requires MulFits(a, Add(b, c)) && AddFits(Mul(a, b), Mul(a, c))
    ensures Mul(a, Add(b, c)) == Add(Mul(a, b), Mul(a, c))
  {
    IntMulDistributes(a.x as int, b.x as int, c.x as int);
    IntMulDistributes(a.y as int, b.y as int, c.y as int);
    IntMulDistributes(a.z as int, b.z as int, c.z as int);
  }

  lemma IntMulDistributes(p: int, q: int, r: int)
    ensures p * (q + r) == p * q + p * r
  {
  }

  lemma ScaleOneIdentity(v: Vec3)
    ensures ScaleFits(v, 1) && Scale(v, 1) == v
  {
  }

  lemma ScaleZeroAnnihilates(v: Vec3)
    ensures ScaleFits(v, 0) && Scale(v, 0) == Zero()
  {
  }

  /** `(a * s) * b == a * (s * b)`. */
  lemma ScaleMulAssociates(a: Vec3, s: I8, b: Vec3)
    requires ScaleFits(a, s) && ScaleFits(b, s)
    requires MulFits(Scale(a, s), b) && MulFits(a, ScaleLeft(s, b))
    ensures Mul(Scale(a, s), b) == Mul(a, ScaleLeft(s, b))
  {
    IntMulAssociates(a.x as int, s as int, b.x as int);
    IntMulAssociates(a.y as int, s as int, b.y as int);
    IntMulAssociates(a.z as int, s as int, b.z as int);
    ScaleLeftIsScale(s, b);
  }

  lemma IntMulCommutes(p: int, q: int)
    ensures p * q == q * p
  {
  }

  lemma DotCommutes(a: Vec3, b: Vec3)
    requires DotFits(a, b)
    ensures DotFits(b, a) && Dot(a, b) == Dot(b, a)
  {
  }

  lemma CrossComponents(a: Vec3, b: Vec3)
    requires CrossFits(a, b)
    ensures Cross(a, b).x as int == a.y as int * b.z as int - a.z as int * b.y as int
    ensures Cross(a, b).y as int == a.z as int * b.x as int - a.x as int * b.z as int
    ensures Cross(a, b).z as int == a.x as int * b.y as int - a.y as int * b.x as int
  {
  }

  /** The cross product is anti-commutative. */
  lemma CrossAntiCommutes(a: Vec3, b: Vec3)
    requires CrossFits(a, b) && NegFits(Cross(a, b))
    ensures CrossFits(b, a) && NegFits(Cross(b, a)) && Cross(a, b) == Neg(Cross(b, a))
  {
  }

  // ---------------------------------------------------------------------------
  // A vector held in place: `v[i] = c`, `v += w` and `v *= s` overwrite the
  // receiver's three-element array.

  class MutableVec3 {
    const data: array<I8>

    ghost predicate Valid()
      reads this
    {
      data.Length == 3
    }

    /** The vector currently held. */
    function Value(): Vec3
      reads this, data
      requires Valid()
    {
      Vec3(data[0], data[1], data[2])
    }

    constructor (v: Vec3)
      ensures Valid() && fresh(data) && Value() == v
    {
      data := new I8[3] [v.x, v.y, v.z];
    }

    /** `v[i]`. */
    function Get(i: nat): (c: I8)
      reads this, data
      requires Valid() && i < 3
      ensures c == Index(Value(), i)
    {
      data[i]
    }

    /** `v[i] = c`: only component `i` changes. */
    method SetComponent(i: nat, c: I8)
      requires Valid() && i < 3
      modifies data
      ensures Valid() && Value() == WithComponent(old(Value()), i, c)
    {
      data[i] := c;
    }

    /** `v += w`. */
    method AddAssign(w: Vec3)
      requires Valid() && AddFits(Value(), w)
      modifies data
      ensures Valid() && Value() == Add(old(Value()), w)
    {
      var sum := Add(Value(), w);
      data[0], data[1], data[2] := sum.x, sum.y, sum.z;
    }

    /** `v *= s`. */
    method MulAssign(s: I8)
      requires Valid() && ScaleFits(Value(), s)
      modifies data
      ensures Valid() && Value() == Scale(old(Value()), s)
    {
      var product := Scale(Value(), s);
      data[0], data[1], data[2] := product.x, product.y, product.z;
    }
  }
}
