/** Integer lattice points and exact quarter-turn rotations about a principal axis. */
module Points {

  datatype Axis = X | Y | Z

  datatype Point3 = Point3(x: int, y: int, z: int)

  /** The coordinate of `p` along axis `a`. */
  function Coord(p: Point3, a: Axis): int {
    match a
    case X => p.x
    case Y => p.y
    case Z => p.z
  }

  /** Exact cosine and sine of k quarter turns, k in [0, 3]. */
  const COS: seq<int> := [1, 0, -1, 0]
  const SIN: seq<int> := [0, 1, 0, -1]

  /** Rotate `p` by `turns` clockwise quarter turns about `axis` (negative means
      counter-clockwise). The standard rotation matrices turn counter-clockwise
      for a positive angle, so the turn count is negated and reduced into [0, 3]
      before the cosine and sine are looked up. */
  function RotateAroundAxis(p: Point3, axis: Axis, turns: int): Point3 {
    if turns == 0 then p else MatrixTurn(p, axis, (-turns) % 4)
  }

  /** The rotation matrix for `k` counter-clockwise quarter turns, applied to `p`. */
  function MatrixTurn(p: Point3, axis: Axis, k: int): Point3
    requires 0 <= k < 4
  {
    var c, s := COS[k], SIN[k];
    match axis
    case X => Point3(p.x, c * p.y - s * p.z, s * p.y + c * p.z)
    case Y => Point3(c * p.x + s * p.z, p.y, -s * p.x + c * p.z)
    case Z => Point3(c * p.x - s * p.y, s * p.x + c * p.y, p.z)
  }

  /** One clockwise quarter turn, seen from the positive end of the axis, written
      as the signed permutation of coordinates it is: the reference that
      `RotateAroundAxis` is proved against. */
  function Quarter(p: Point3, axis: Axis): (q: Point3)
    ensures Coord(q, axis) == Coord(p, axis)
  {
    match axis
    case X => Point3(p.x, p.z, -p.y)
    case Y => Point3(-p.z, p.y, p.x)
    case Z => Point3(p.y, -p.x, p.z)
  }

  /** `k` clockwise quarter turns applied one after another. */
  function Quarters(p: Point3, axis: Axis, k: nat): Point3
    decreases k
  {
    if k == 0 then p else Quarters(Quarter(p, axis), axis, k - 1)
  }

  lemma {:induction false} QuartersAdd(p: Point3, axis: Axis, i: nat, j: nat)
    ensures Quarters(Quarters(p, axis, i), axis, j) == Quarters(p, axis, i + j)
    decreases i
  {
    if i > 0 {
      QuartersAdd(Quarter(p, axis), axis, i - 1, j);
    }
  }

  /** Four quarter turns are the identity. */
  lemma FourQuarters(p: Point3, axis: Axis)
    ensures Quarters(p, axis, 4) == p
  {
    var q1 := Quarter(p, axis);
    var q2 := Quarter(q1, axis);
    var q3 := Quarter(q2, axis);
    assert Quarters(p, axis, 4) == Quarters(q1, axis, 3) == Quarters(q2, axis, 2)
        == Quarters(q3, axis, 1) == Quarter(q3, axis);
  }

  lemma {:induction false} QuartersMod4(p: Point3, axis: Axis, k: nat)
    ensures Quarters(p, axis, k) == Quarters(p, axis, k % 4)
    decreases k
  {
    if k >= 4 {
      QuartersAdd(p, axis, 4, k - 4);
      FourQuarters(p, axis);
      QuartersMod4(p, axis, k - 4);
    }
  }

  lemma {:induction false} QuartersKeepAxisCoord(p: Point3, axis: Axis, k: nat)
    ensures Coord(Quarters(p, axis, k), axis) == Coord(p, axis)
    decreases k
  {
    if k > 0 {
      QuartersKeepAxisCoord(Quarter(p, axis), axis, k - 1);
    }
  }

  /** One, two and three quarter turns written out. */
  lemma QuartersSmall(p: Point3, axis: Axis)
    ensures Quarters(p, axis, 1) == Quarter(p, axis)
    ensures Quarters(p, axis, 2) == Quarter(Quarter(p, axis), axis)
    ensures Quarters(p, axis, 3) == Quarter(Quarter(Quarter(p, axis), axis), axis)
  {
    var q1 := Quarter(p, axis);
    var q2 := Quarter(q1, axis);
    assert Quarters(p, axis, 2) == Quarters(q1, axis, 1);
    assert Quarters(p, axis, 3) == Quarters(q1, axis, 2) == Quarters(q2, axis, 1);
  }

  /** One counter-clockwise quarter turn is three clockwise ones. */
  lemma MatrixTurnOne(p: Point3, axis: Axis)
    ensures MatrixTurn(p, axis, 1) == Quarter(Quarter(Quarter(p, axis), axis), axis)
  {
    assert COS[1] == 0 && SIN[1] == 1;
  }

  /** A half turn is two clockwise quarter turns. */
  lemma MatrixTurnTwo(p: Point3, axis: Axis)
    ensures MatrixTurn(p, axis, 2) == Quarter(Quarter(p, axis), axis)
  {
    assert COS[2] == -1 && SIN[2] == 0;
  }

  /** Three counter-clockwise quarter turns are one clockwise one. */
  lemma MatrixTurnThree(p: Point3, axis: Axis)
    ensures MatrixTurn(p, axis, 3) == Quarter(p, axis)
  {
    assert COS[3] == 0 && SIN[3] == -1;
  }

  /** `k` counter-clockwise quarter turns are `4 - k` clockwise ones. */
  lemma MatrixTurnIsQuarters(p: Point3, axis: Axis, k: int)
    requires 0 <= k < 4
    ensures MatrixTurn(p, axis, k) == Quarters(p, axis, (4 - k) % 4)
  {
    QuartersSmall(p, axis);
    if k == 0 {
      assert COS[0] == 1 && SIN[0] == 0;
    } else if k == 1 {
      MatrixTurnOne(p, axis);
    } else if k == 2 {
      MatrixTurnTwo(p, axis);
    } else {
      MatrixTurnThree(p, axis);
    }
  }

  /** The table-driven rotation agrees with `turns mod 4` clockwise quarter turns. */
  lemma RotateIsQuarters(p: Point3, axis: Axis, turns: int)
    ensures RotateAroundAxis(p, axis, turns) == Quarters(p, axis, turns % 4)
  {
    if turns != 0 {
      var k := (-turns) % 4;
      MatrixTurnIsQuarters(p, axis, k);
      NegMod4(turns);
    }
  }

  lemma NegMod4(t: int)
    ensures (4 - (-t) % 4) % 4 == t % 4
  {
  }

  lemma AddMod4(t1: int, t2: int)
    ensures (t1 % 4 + t2 % 4) % 4 == (t1 + t2) % 4
  {
  }

  /** Turn counts that agree modulo 4 give the same rotation. */
  lemma RotateSameMod(p: Point3, axis: Axis, t1: int, t2: int)
    requires t1 % 4 == t2 % 4
    ensures RotateAroundAxis(p, axis, t1) == RotateAroundAxis(p, axis, t2)
  {
    RotateIsQuarters(p, axis, t1);
    RotateIsQuarters(p, axis, t2);
  }

  /** Rotations about one axis compose by adding their turn counts. */
  lemma RotateCompose(p: Point3, axis: Axis, t1: int, t2: int)
    ensures RotateAroundAxis(RotateAroundAxis(p, axis, t1), axis, t2)
         == RotateAroundAxis(p, axis, t1 + t2)
  {
    var a, b := t1 % 4, t2 % 4;
    assert (a + b) % 4 == (t1 + t2) % 4 by {
      AddMod4(t1, t2);
    }
    calc {
      RotateAroundAxis(RotateAroundAxis(p, axis, t1), axis, t2);
    == { RotateIsQuarters(p, axis, t1); }
      RotateAroundAxis(Quarters(p, axis, a), axis, t2);
    == { RotateIsQuarters(Quarters(p, axis, a), axis, t2); }
      Quarters(Quarters(p, axis, a), axis, b);
    == { QuartersAdd(p, axis, a, b); }
      Quarters(p, axis, a + b);
    == { QuartersMod4(p, axis, a + b); }
      Quarters(p, axis, (a + b) % 4);
    == { RotateIsQuarters(p, axis, t1 + t2); }
      RotateAroundAxis(p, axis, t1 + t2);
    }
  }

  /** A rotation followed by the opposite rotation is the identity. */
  lemma RotateInverse(p: Point3, axis: Axis, t: int)
    ensures RotateAroundAxis(RotateAroundAxis(p, axis, t), axis, -t) == p
  {
    RotateCompose(p, axis, t, -t);
  }

  /** Four more quarter turns give the same rotation. */
  lemma RotatePeriodic(p: Point3, axis: Axis, t: int)
    ensures RotateAroundAxis(p, axis, t + 4) == RotateAroundAxis(p, axis, t)
  {
    assert (t + 4) % 4 == t % 4;
    RotateSameMod(p, axis, t + 4, t);
  }

  /** A rotation never changes the coordinate along its own axis. */
  lemma RotateKeepsAxisCoord(p: Point3, axis: Axis, t: int)
    ensures Coord(RotateAroundAxis(p, axis, t), axis) == Coord(p, axis)
  {
    RotateIsQuarters(p, axis, t);
    QuartersKeepAxisCoord(p, axis, t % 4);
  }

  /** One clockwise turn is the quarter-turn permutation; one counter-clockwise
      turn is its inverse permutation. */
  lemma RotateOneTurn(p: Point3, axis: Axis)
    ensures RotateAroundAxis(p, axis, 1) == Quarter(p, axis)
    ensures Quarter(RotateAroundAxis(p, axis, -1), axis) == p
  {
    var back := RotateAroundAxis(p, axis, -1);
    assert (-1) % 4 == 3;
    MatrixTurnThree(p, axis);
    MatrixTurnThree(back, axis);
    RotateInverse(p, axis, -1);
  }
}
