/** Laws of geometric moves on the whole cube: what `create_gmove` selects,
    which turn sequences restore the cube, and the worked single-sticker moves. */
module CubeLaws {
  import opened Points
  import opened Moves
  import opened GeometryModel

  // ===========================================================================
  // Folding moves over a cube

  /** Moves applied in two batches are the moves applied in one. */
  lemma {:induction false} AfterGMovesAppend(s: seq<Sticker>, a: seq<GMove>, b: seq<GMove>)
    ensures AfterGMoves(s, a + b) == AfterGMoves(AfterGMoves(s, a), b)
    decreases |a|
  {
    if a == [] {
      assert a + b == b;
    } else {
      assert (a + b)[1..] == a[1..] + b;
      AfterGMovesAppend(AfterGMove(s, a[0]), a[1..], b);
    }
  }

  /** Moving never adds, drops or reorders stickers and never touches where a
      sticker started. */
  lemma {:induction false} AfterGMovesKeepsInitials(s: seq<Sticker>, gs: seq<GMove>)
    ensures |AfterGMoves(s, gs)| == |s|
    ensures forall i :: 0 <= i < |s| ==> AfterGMoves(s, gs)[i].initial == s[i].initial
    decreases |gs|
  {
    if gs != [] {
      AfterGMovesKeepsInitials(AfterGMove(s, gs[0]), gs[1..]);
    }
  }

  lemma AfterFourGMoves(s: seq<Sticker>, g1: GMove, g2: GMove, g3: GMove, g4: GMove)
    ensures AfterGMoves(s, [g1, g2, g3, g4])
         == AfterGMove(AfterGMove(AfterGMove(AfterGMove(s, g1), g2), g3), g4)
  {
    var s1 := AfterGMove(s, g1);
    var s2 := AfterGMove(s1, g2);
    var s3 := AfterGMove(s2, g3);
    assert [g1, g2, g3, g4][1..] == [g2, g3, g4];
    assert [g2, g3, g4][1..] == [g3, g4];
    assert [g3, g4][1..] == [g4];
    assert AfterGMoves(s, [g1, g2, g3, g4]) == AfterGMoves(s1, [g2, g3, g4]);
    assert AfterGMoves(s1, [g2, g3, g4]) == AfterGMoves(s2, [g3, g4]);
    assert AfterGMoves(s2, [g3, g4]) == AfterGMoves(s3, [g4]);
    assert AfterGMoves(s3, [g4]) == AfterGMoves(AfterGMove(s3, g4), []);
  }

  // ===========================================================================
  // Turn sequences that restore the cube

  /** The turn that undoes `t`. */
  function Undo(t: Turn): (u: Turn)
    ensures TurnValue(u) % 4 == (-TurnValue(t)) % 4
  {
    match t
    case Single => Inverse
    case Inverse => Single
    case Double => Double
  }

  /** A move and the same move with the undoing turn act on the same layer about
      the same axis, and their turn counts cancel modulo a full revolution. */
  lemma UndoPair(n: nat, m: Move, t: Turn)
    ensures var g1, g2 := CreateGMove(n, Movement(m, t)), CreateGMove(n, Movement(m, Undo(t)));
      g2.axis == g1.axis && g2.selector == g1.selector
      && (EffectiveTurns(g1) + EffectiveTurns(g2)) % 4 == 0
  {
  }

  /** Two moves on one layer whose turn counts cancel put a sticker back. */
  lemma StickerRestored(x: Sticker, g1: GMove, g2: GMove)
    requires SelectsAlong(g1.selector, g1.axis)
    requires g2.axis == g1.axis && g2.selector == g1.selector
    requires (EffectiveTurns(g1) + EffectiveTurns(g2)) % 4 == 0
    ensures ApplyGMoveToSticker(ApplyGMoveToSticker(x, g1), g2) == x
  {
    ApplyTwice(x, g1, g2);
    if Selects(g1.selector, x.current) {
      RotateSameMod(x.current, g1.axis, EffectiveTurns(g1) + EffectiveTurns(g2), 0);
    }
  }

  /** On any cube, a movement followed by the movement with the undoing turn
      puts every sticker back. */
  lemma MovementUndone(n: nat, s: seq<Sticker>, m: Move, t: Turn)
    ensures AfterGMove(AfterGMove(s, CreateGMove(n, Movement(m, t))), CreateGMove(n, Movement(m, Undo(t)))) == s
  {
    var g1, g2 := CreateGMove(n, Movement(m, t)), CreateGMove(n, Movement(m, Undo(t)));
    UndoPair(n, m, t);
    forall i | 0 <= i < |s|
      ensures ApplyGMoveToSticker(ApplyGMoveToSticker(s[i], g1), g2) == s[i]
    {
      StickerRestored(s[i], g1, g2);
    }
  }

  /** The four geometric moves `gcube_test` applies for one move: single,
      inverse, then double twice. */
  function TestCycle(n: nat, m: Move): seq<GMove> {
    [CreateGMove(n, Movement(m, Single)), CreateGMove(n, Movement(m, Inverse)),
     CreateGMove(n, Movement(m, Double)), CreateGMove(n, Movement(m, Double))]
  }

  /** The test cycles of the moves `ms`, one after another. */
  function TestCycles(n: nat, ms: seq<Move>): seq<GMove> {
    if ms == [] then [] else TestCycle(n, ms[0]) + TestCycles(n, ms[1..])
  }

  /** One test cycle restores any cube of any size: a single and an inverse
      turn cancel, and two double turns make a full revolution. */
  lemma TestCycleRestores(n: nat, s: seq<Sticker>, m: Move)
    ensures AfterGMoves(s, TestCycle(n, m)) == s
  {
    var gs := TestCycle(n, m);
    var s2 := AfterGMove(AfterGMove(s, gs[0]), gs[1]);
    MovementUndone(n, s, m, Single);
    assert s2 == s;
    MovementUndone(n, s, m, Double);
    assert AfterGMove(AfterGMove(s, gs[2]), gs[3]) == s;
    AfterFourGMoves(s, gs[0], gs[1], gs[2], gs[3]);
  }

  /** Test cycles for any list of moves restore any cube. */
  lemma {:induction false} TestCyclesRestore(n: nat, s: seq<Sticker>, ms: seq<Move>)
    ensures AfterGMoves(s, TestCycles(n, ms)) == s
    decreases |ms|
  {
    if ms != [] {
      AfterGMovesAppend(s, TestCycle(n, ms[0]), TestCycles(n, ms[1..]));
      TestCycleRestores(n, s, ms[0]);
      TestCyclesRestore(n, s, ms[1..]);
    }
  }

  /** `gcube_test`: a solved 3-cube, put through the test cycle of every move in
      turn, equals a solved 3-cube again. */
  lemma GCubeTest()
    ensures AfterGMoves(Solved(3), TestCycles(3, AllMoves)) == Solved(3)
  {
    TestCyclesRestore(3, Solved(3), AllMoves);
  }

  /** Two single turns of a move are its double turn. */
  lemma TwoSinglesMakeDouble(n: nat, s: seq<Sticker>, m: Move)
    ensures var single := CreateGMove(n, Movement(m, Single));
      AfterGMove(AfterGMove(s, single), single) == AfterGMove(s, CreateGMove(n, Movement(m, Double)))
  {
    var single := CreateGMove(n, Movement(m, Single));
    forall i | 0 <= i < |s|
      ensures ApplyGMoveToSticker(ApplyGMoveToSticker(s[i], single), single)
           == ApplyGMoveToSticker(s[i], CreateGMove(n, Movement(m, Double)))
    {
      ApplyTwice(s[i], single, single);
    }
  }

  /** Four single turns of any move restore any cube. */
  lemma FourSinglesRestore(n: nat, s: seq<Sticker>, m: Move)
    ensures var g := CreateGMove(n, Movement(m, Single)); AfterGMoves(s, [g, g, g, g]) == s
  {
    var g := CreateGMove(n, Movement(m, Single));
    AfterFourGMoves(s, g, g, g, g);
    TwoSinglesMakeDouble(n, s, m);
    var half := AfterGMove(AfterGMove(s, g), g);
    TwoSinglesMakeDouble(n, half, m);
    MovementUndone(n, s, m, Double);
  }

  // ===========================================================================
  // What `create_gmove` selects

  /** The axis a move turns about and the side of the cube its layers are on:
      +1 for U, R, F and the moves that follow them, -1 for D, L, B and theirs. */
  function MoveAxis(m: Move): Axis {
    match m
    case U => Axis.Y
    case Uw => Axis.Y
    case D => Axis.Y
    case Dw => Axis.Y
    case E => Axis.Y
    case Y => Axis.Y
    case R => Axis.X
    case Rw => Axis.X
    case L => Axis.X
    case Lw => Axis.X
    case M => Axis.X
    case X => Axis.X
    case F => Axis.Z
    case Fw => Axis.Z
    case B => Axis.Z
    case Bw => Axis.Z
    case S => Axis.Z
    case Z => Axis.Z
  }

  function MoveSide(m: Move): int {
    match m
    case U => 1
    case Uw => 1
    case R => 1
    case Rw => 1
    case F => 1
    case Fw => 1
    case S => 1
    case X => 1
    case Y => 1
    case Z => 1
    case D => -1
    case Dw => -1
    case E => -1
    case L => -1
    case Lw => -1
    case M => -1
    case B => -1
    case Bw => -1
  }

  predicate IsFaceMove(m: Move) {
    m in {Move.U, Move.L, Move.F, Move.R, Move.B, Move.D}
  }

  predicate IsWideMove(m: Move) {
    m in {Move.Uw, Move.Lw, Move.Fw, Move.Rw, Move.Bw, Move.Dw}
  }

  predicate IsSliceMove(m: Move) {
    m in {Move.E, Move.M, Move.S}
  }

  predicate IsRotation(m: Move) {
    m in {Move.X, Move.Y, Move.Z}
  }

  /** Every move turns about its own axis and, seen from its own side of the
      cube, clockwise: the D, L and B families (and E and M, which follow D and
      L) are counter-clockwise about the positive axis. */
  lemma CreateGMoveDirection(n: nat, mv: Movement)
    ensures CreateGMove(n, mv).axis == MoveAxis(mv.base)
    ensures CreateGMove(n, mv).isClockwise <==> MoveSide(mv.base) == 1
  {
  }

  /** A face move turns exactly the outermost layer on its side: the sticker
      centres whose coordinate along the move's axis, signed toward its side, is
      N (the face itself) or N - 1 (the edge of the neighbouring faces). */
  lemma FaceMoveLayer(n: nat, mv: Movement, p: Point3)
    requires IsFaceMove(mv.base) && n >= 2 && OnSurface(n, p)
    ensures Selects(CreateGMove(n, mv).selector, p)
        <==> MoveSide(mv.base) * Coord(p, MoveAxis(mv.base)) >= n - 1
  {
    CoordOnSurface(n, p, MoveAxis(mv.base));
  }

  /** A wide move turns the two outermost layers on its side: signed
      coordinate N, N - 1 or N - 3. */
  lemma WideMoveLayers(n: nat, mv: Movement, p: Point3)
    requires IsWideMove(mv.base) && n >= 3 && OnSurface(n, p)
    ensures Selects(CreateGMove(n, mv).selector, p)
        <==> MoveSide(mv.base) * Coord(p, MoveAxis(mv.base)) >= n - 3
  {
    CoordOnSurface(n, p, MoveAxis(mv.base));
  }

  /** A slice move turns the middle layer, coordinate 0 along its axis; a cube of
      even side has no sticker there, so a slice move leaves it unchanged. */
  lemma SliceMoveLayer(n: nat, mv: Movement, p: Point3)
    requires IsSliceMove(mv.base) && OnSurface(n, p)
    ensures Selects(CreateGMove(n, mv).selector, p) <==> Coord(p, MoveAxis(mv.base)) == 0
    ensures n % 2 == 0 ==> !Selects(CreateGMove(n, mv).selector, p)
  {
    CoordOnSurface(n, p, MoveAxis(mv.base));
  }

  /** A rotation turns every sticker. */
  lemma RotationSelectsAll(n: nat, mv: Movement, p: Point3)
    requires IsRotation(mv.base)
    ensures Selects(CreateGMove(n, mv).selector, p)
  {
  }

  /** On the surface, a coordinate is either +N or -N or one of the in-face
      coordinates, which have the parity of N - 1. */
  lemma CoordOnSurface(n: int, p: Point3, a: Axis)
    requires OnSurface(n, p)
    ensures var c := Coord(p, a); c == n || c == -n || InRange(n, c)
  {
  }

  // ===========================================================================
  // The worked examples of `apply_gmove_to_stickers`

  /** The wide U, wide R double and wide L moves of the test, with the layer
      predicates the test gives them. */
  const WideU: GMove := GMove(Movement(Move.Uw, Single), Axis.Y, true, AtLeast(Axis.Y, 0))
  const WideR2: GMove := GMove(Movement(Move.Rw, Double), Axis.X, true, AtLeast(Axis.X, 0))
  const WideL: GMove := GMove(Movement(Move.Lw, Single), Axis.X, false, AtMost(Axis.X, 1))

  /** The RU sticker, the FD sticker and the U centre of the test. */
  const RU: Sticker := FromPoint(Point3(3, 2, 0))
  const FD: Sticker := FromPoint(Point3(0, -2, 3))
  const UC: Sticker := FromPoint(Point3(0, 3, 0))

  /** Wide U moves RU to FU and leaves FD and the U centre where they are. */
  lemma WideUExamples()
    ensures ApplyGMoveToSticker(RU, WideU) == Sticker(RU.initial, Point3(0, 2, 3))
    ensures ApplyGMoveToSticker(FD, WideU) == FD
    ensures ApplyGMoveToSticker(UC, WideU) == UC
  {
    assert COS[3] == 0 && SIN[3] == -1;
  }

  /** Wide R double moves RU to RD, the U centre to the D centre and FD to BU. */
  lemma WideR2Examples()
    ensures ApplyGMoveToSticker(RU, WideR2) == Sticker(RU.initial, Point3(3, -2, 0))
    ensures ApplyGMoveToSticker(UC, WideR2) == Sticker(UC.initial, Point3(0, -3, 0))
    ensures ApplyGMoveToSticker(FD, WideR2) == Sticker(FD.initial, Point3(0, 2, -3))
  {
    assert COS[2] == -1 && SIN[2] == 0;
  }

  /** Wide L leaves RU alone, moves the U centre to the F centre and FD to DB. */
  lemma WideLExamples()
    ensures ApplyGMoveToSticker(RU, WideL) == RU
    ensures ApplyGMoveToSticker(UC, WideL) == Sticker(UC.initial, Point3(0, 0, 3))
    ensures ApplyGMoveToSticker(FD, WideL) == Sticker(FD.initial, Point3(0, -3, -2))
  {
    assert COS[1] == 0 && SIN[1] == 1;
  }
}
