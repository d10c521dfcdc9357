/** The geometric simulation of an N x N x N cube. Every sticker is a pair of
    lattice points: where it started and where it is now. Pieces are 2 units
    long and the cube is centred on the origin, so sticker centres have their
    in-face coordinates in -N+1, -N+3, ..., N-1 and their outward coordinate at
    +N or -N. A geometric move rotates, about one axis, exactly the stickers
    whose current position its selector accepts. */
module GeometryModel {
  import opened Faces
  import opened Points
  import opened Moves
  import opened Facelets

  datatype Option<T> = None | Some(value: T)

  // ===========================================================================
  // Stickers and geometric moves

  /** `Sticker::new(initial, current)`. */
  datatype Sticker = Sticker(initial: Point3, current: Point3)

  /** `Sticker::from_point`: a sticker that has not moved. */
  function FromPoint(p: Point3): Sticker {
    Sticker(p, p)
  }

  /** The predicate of a geometric move, as data: a bound on the coordinate along
      one axis, or no restriction at all. */
  datatype Selector =
    | AtLeast(axis: Axis, bound: int)
    | AtMost(axis: Axis, bound: int)
    | Exactly(axis: Axis, value: int)
    | Everything

  predicate Selects(sel: Selector, p: Point3) {
    match sel
    case AtLeast(a, b) => Coord(p, a) >= b
    case AtMost(a, b) => Coord(p, a) <= b
    case Exactly(a, v) => Coord(p, a) == v
    case Everything => true
  }

  /** The selector looks at no coordinate other than the one along `axis`. */
  predicate SelectsAlong(sel: Selector, axis: Axis) {
    sel.Everything? || sel.axis == axis
  }

  /** `GMove::new(movement, axis, is_clockwise, predicate)`. */
  datatype GMove = GMove(movement: Movement, axis: Axis, isClockwise: bool, selector: Selector)

  /** The signed number of clockwise quarter turns a move performs. */
  function EffectiveTurns(g: GMove): int {
    var t := TurnValue(g.movement.turn);
    if g.isClockwise then t else -t
  }

  /** `Sticker::apply_gmove`. */
  function ApplyGMoveToSticker(s: Sticker, g: GMove): (r: Sticker)
    ensures r.initial == s.initial
    ensures !Selects(g.selector, s.current) ==> r == s
  {
    if Selects(g.selector, s.current) then
      Sticker(s.initial, RotateAroundAxis(s.current, g.axis, EffectiveTurns(g)))
    else
      s
  }

  /** Reversing the direction of a move gives the rotation by the opposite turn count. */
  lemma ReversedTurns(g: GMove)
    ensures EffectiveTurns(g.(isClockwise := !g.isClockwise)) == -EffectiveTurns(g)
    ensures g.isClockwise ==> EffectiveTurns(g) == TurnValue(g.movement.turn)
    ensures !g.isClockwise ==> EffectiveTurns(g) == -TurnValue(g.movement.turn)
  {
  }

  /** A move whose selector only looks along its own axis still selects a sticker
      after moving it, so two such moves on the same axis and selector compose
      into one rotation by the sum of their turn counts. */
  lemma ApplyTwice(s: Sticker, g1: GMove, g2: GMove)
    requires SelectsAlong(g1.selector, g1.axis)
    requires g2.axis == g1.axis && g2.selector == g1.selector
    ensures ApplyGMoveToSticker(ApplyGMoveToSticker(s, g1), g2)
         == if Selects(g1.selector, s.current)
            then Sticker(s.initial, RotateAroundAxis(s.current, g1.axis, EffectiveTurns(g1) + EffectiveTurns(g2)))
            else s
  {
    if Selects(g1.selector, s.current) {
      var q := RotateAroundAxis(s.current, g1.axis, EffectiveTurns(g1));
      RotateKeepsAxisCoord(s.current, g1.axis, EffectiveTurns(g1));
      assert Selects(g1.selector, q);
      RotateCompose(s.current, g1.axis, EffectiveTurns(g1), EffectiveTurns(g2));
    }
  }

  /** The same move with its direction reversed undoes it. */
  lemma ReverseUndoes(s: Sticker, g: GMove)
    requires SelectsAlong(g.selector, g.axis)
    ensures ApplyGMoveToSticker(ApplyGMoveToSticker(s, g), g.(isClockwise := !g.isClockwise)) == s
  {
    ApplyTwice(s, g, g.(isClockwise := !g.isClockwise));
  }

  // ===========================================================================
  // Positions on the cube's surface

  /** `c` is one of the N in-face coordinates -N+1, -N+3, ..., N-1. */
  predicate InRange(n: int, c: int) {
    -n < c < n && (c + n) % 2 == 1
  }

  /** `p` is the centre of a sticker on an N-cube: one coordinate is +N or -N and
      the other two are in-face coordinates. */
  predicate OnSurface(n: int, p: Point3) {
    || ((p.x == n || p.x == -n) && InRange(n, p.y) && InRange(n, p.z))
    || (InRange(n, p.x) && (p.y == n || p.y == -n) && InRange(n, p.z))
    || (InRange(n, p.x) && InRange(n, p.y) && (p.z == n || p.z == -n))
  }

  lemma InRangeNeg(n: int, c: int)
    requires InRange(n, c)
    ensures InRange(n, -c)
  {
    assert (-c + n) == (c + n) - 2 * c;
  }

  lemma QuarterOnSurface(n: int, p: Point3, axis: Axis)
    requires OnSurface(n, p)
    ensures OnSurface(n, Quarter(p, axis))
  {
    if InRange(n, p.x) { InRangeNeg(n, p.x); }
    if InRange(n, p.y) { InRangeNeg(n, p.y); }
    if InRange(n, p.z) { InRangeNeg(n, p.z); }
  }

  lemma {:induction false} QuartersOnSurface(n: int, p: Point3, axis: Axis, k: nat)
    requires OnSurface(n, p)
    ensures OnSurface(n, Quarters(p, axis, k))
    decreases k
  {
    if k > 0 {
      QuarterOnSurface(n, p, axis);
      QuartersOnSurface(n, Quarter(p, axis), axis, k - 1);
    }
  }

  /** Rotating a sticker centre about any axis gives a sticker centre. */
  lemma RotateOnSurface(n: int, p: Point3, axis: Axis, t: int)
    requires OnSurface(n, p)
    ensures OnSurface(n, RotateAroundAxis(p, axis, t))
  {
    RotateIsQuarters(p, axis, t);
    QuartersOnSurface(n, p, axis, t % 4);
  }

  // ===========================================================================
  // The coordinate range and the solved cube

  /** lo, lo + 2, lo + 4, ... up to and including hi. */
  function StepRange(lo: int, hi: int): seq<int>
    decreases hi - lo + 2
  {
    if lo > hi then [] else [lo] + StepRange(lo + 2, hi)
  }

  /** `GCube::range`: the in-face coordinates -N+1, -N+3, ..., N-1. */
  function Range(n: nat): seq<int> {
    StepRange(-(n as int) + 1, n as int - 1)
  }

  lemma {:induction false} StepRangeAt(lo: int, hi: int, k: nat)
    requires hi - lo + 2 == 2 * k
    ensures |StepRange(lo, hi)| == k
    ensures forall i :: 0 <= i < k ==> StepRange(lo, hi)[i] == lo + 2 * i
    decreases k
  {
    if k > 0 {
      StepRangeAt(lo + 2, hi, k - 1);
    }
  }

  /** `range()` yields exactly N values, from -N+1 in steps of 2, and they are
      exactly the in-face coordinates. */
  lemma RangeFacts(n: nat)
    ensures |Range(n)| == n
    ensures forall i :: 0 <= i < n ==> Range(n)[i] == -(n as int) + 1 + 2 * i
    ensures forall c :: c in Range(n) <==> InRange(n, c)
  {
    StepRangeAt(-(n as int) + 1, n as int - 1, n);
    var r := Range(n);
    forall c | InRange(n, c)
      ensures c in r
    {
      var i := (c + n - 1) / 2;
      assert r[i] == c;
    }
  }

  /** The three stickers that `new` pushes for one (face, coord1, coord2). */
  function Triple(face: int, a: int, b: int): seq<Sticker> {
    [FromPoint(Point3(face, a, b)), FromPoint(Point3(a, face, b)), FromPoint(Point3(a, b, face))]
  }

  /** The stickers pushed by the innermost loop, over coord2 in `bs`. */
  function Row(face: int, a: int, bs: seq<int>): seq<Sticker> {
    if bs == [] then [] else Row(face, a, bs[..|bs| - 1]) + Triple(face, a, bs[|bs| - 1])
  }

  /** The stickers pushed by the middle loop, over coord1 in `cs`. */
  function Sheet(face: int, cs: seq<int>, bs: seq<int>): seq<Sticker> {
    if cs == [] then [] else Sheet(face, cs[..|cs| - 1], bs) + Row(face, cs[|cs| - 1], bs)
  }

  /** The stickers pushed by the outer loop, over the face coordinates in `fs`. */
  function Shell(fs: seq<int>, rs: seq<int>): seq<Sticker> {
    if fs == [] then [] else Shell(fs[..|fs| - 1], rs) + Sheet(fs[|fs| - 1], rs, rs)
  }

  /** The stickers of a solved N-cube, in the order `GCube::new` pushes them. */
  function Solved(n: nat): seq<Sticker> {
    Shell([-(n as int), n as int], Range(n))
  }

  /** Every sticker has not moved and sits on the surface. */
  predicate AllSolvedOnSurface(n: int, s: seq<Sticker>) {
    forall i :: 0 <= i < |s| ==> s[i].initial == s[i].current && OnSurface(n, s[i].current)
  }

  lemma {:induction false} RowFacts(n: int, face: int, a: int, bs: seq<int>)
    requires face == n || face == -n
    requires InRange(n, a) && forall b :: b in bs ==> InRange(n, b)
    ensures |Row(face, a, bs)| == 3 * |bs|
    ensures AllSolvedOnSurface(n, Row(face, a, bs))
  {
    if bs != [] {
      RowFacts(n, face, a, bs[..|bs| - 1]);
    }
  }

  lemma {:induction false} SheetFacts(n: int, face: int, cs: seq<int>, bs: seq<int>)
    requires face == n || face == -n
    requires forall a :: a in cs ==> InRange(n, a)
    requires forall b :: b in bs ==> InRange(n, b)
    ensures |Sheet(face, cs, bs)| == |cs| * (3 * |bs|)
    ensures AllSolvedOnSurface(n, Sheet(face, cs, bs))
  {
    if cs != [] {
      var init := cs[..|cs| - 1];
      assert forall a :: a in init ==> a in cs;
      SheetFacts(n, face, init, bs);
      RowFacts(n, face, cs[|cs| - 1], bs);
      MulStep(|cs|, 3 * |bs|);
    }
  }

  lemma {:induction false} ShellFacts(n: int, fs: seq<int>, rs: seq<int>)
    requires forall f :: f in fs ==> f == n || f == -n
    requires forall r :: r in rs ==> InRange(n, r)
    ensures |Shell(fs, rs)| == |fs| * (|rs| * (3 * |rs|))
    ensures AllSolvedOnSurface(n, Shell(fs, rs))
  {
    if fs != [] {
      var init := fs[..|fs| - 1];
      assert forall f :: f in init ==> f in fs;
      ShellFacts(n, init, rs);
      assert fs[|fs| - 1] in fs;
      SheetFacts(n, fs[|fs| - 1], rs, rs);
      MulStep(|fs|, |rs| * (3 * |rs|));
    }
  }

  lemma MulStep(k: int, m: int)
    ensures (k - 1) * m + m == k * m
  {
  }

  lemma SolvedLength(n: nat)
    ensures |Solved(n)| == 6 * n * n
  {
    SolvedFacts(n);
  }

  /** A solved N-cube has 6 N^2 stickers, none of them moved, each with exactly
      one coordinate at +N or -N and the other two from `range()`. */
  lemma SolvedFacts(n: nat)
    ensures |Solved(n)| == 6 * n * n
    ensures AllSolvedOnSurface(n, Solved(n))
  {
    RangeFacts(n);
    ShellFacts(n, [-(n as int), n as int], Range(n));
    assert 2 * (n * (3 * n)) == 6 * n * n;
  }

  // ===========================================================================
  // Whole-cube moves

  /** Every sticker of `s` after the geometric move `g` (`GCube::apply_gmove`). */
  function AfterGMove(s: seq<Sticker>, g: GMove): seq<Sticker> {
    seq(|s|, i requires 0 <= i < |s| => ApplyGMoveToSticker(s[i], g))
  }

  /** `s` after the geometric moves `gs`, first to last (`GCube::apply_gmoves`). */
  function AfterGMoves(s: seq<Sticker>, gs: seq<GMove>): seq<Sticker>
    decreases |gs|
  {
    if gs == [] then s else AfterGMoves(AfterGMove(s, gs[0]), gs[1..])
  }

  /** `GCube::create_gmove`: the axis, the direction and the layers each move turns
      on an N-cube. Every selector looks only along the move's own axis. */
  function CreateGMove(n: nat, m: Movement): (g: GMove)
    ensures g.movement == m
    ensures SelectsAlong(g.selector, g.axis)
  {
    var k := n as int;
    match m.base
    case U => GMove(m, Axis.Y, true, AtLeast(Axis.Y, k - 2))
    case Uw => GMove(m, Axis.Y, true, AtLeast(Axis.Y, k - 2 * 2))
    case L => GMove(m, Axis.X, false, AtMost(Axis.X, -k + 2))
    case Lw => GMove(m, Axis.X, false, AtMost(Axis.X, -k + 2 * 2))
    case F => GMove(m, Axis.Z, true, AtLeast(Axis.Z, k - 2))
    case Fw => GMove(m, Axis.Z, true, AtLeast(Axis.Z, k - 2 * 2))
    case R => GMove(m, Axis.X, true, AtLeast(Axis.X, k - 2))
    case Rw => GMove(m, Axis.X, true, AtLeast(Axis.X, k - 2 * 2))
    case B => GMove(m, Axis.Z, false, AtMost(Axis.Z, -k + 2))
    case Bw => GMove(m, Axis.Z, false, AtMost(Axis.Z, -k + 2 * 2))
    case D => GMove(m, Axis.Y, false, AtMost(Axis.Y, -k + 2))
    case Dw => GMove(m, Axis.Y, false, AtMost(Axis.Y, -k + 2 * 2))
    case E => GMove(m, Axis.Y, false, Exactly(Axis.Y, 0))
    case M => GMove(m, Axis.X, false, Exactly(Axis.X, 0))
    case S => GMove(m, Axis.Z, true, Exactly(Axis.Z, 0))
    case X => GMove(m, Axis.X, true, Everything)
    case Y => GMove(m, Axis.Y, true, Everything)
    case Z => GMove(m, Axis.Z, true, Everything)
  }

  /** `GCube::create_gmoves`. */
  function CreateGMoves(n: nat, ms: seq<Movement>): seq<GMove> {
    seq(|ms|, i requires 0 <= i < |ms| => CreateGMove(n, ms[i]))
  }

  // ===========================================================================
  // Faces of positions

  /** The axis a face looks along. */
  function FaceAxis(f: Face): Axis
    requires IsRealFace(f)
  {
    match f
    case R => Axis.X
    case L => Axis.X
    case U => Axis.Y
    case D => Axis.Y
    case F => Axis.Z
    case B => Axis.Z
  }

  /** Whether a face looks toward the positive (1) or negative (-1) end of its axis. */
  function FaceSign(f: Face): int
    requires IsRealFace(f)
  {
    match f
    case R => 1
    case U => 1
    case F => 1
    case L => -1
    case D => -1
    case B => -1
  }

  /** `GCube::get_face`: the face whose plane a position lies in, testing x, then
      y, then z; `X` for a position in none of the six planes. */
  function FaceOf(n: nat, p: Point3): (f: Face)
    ensures IsRealFace(f) ==> Coord(p, FaceAxis(f)) == FaceSign(f) * n
    ensures f == Face.X <==> var k := n as int;
      p.x != k && p.x != -k && p.y != k && p.y != -k && p.z != k && p.z != -k
  {
    var k := n as int;
    if p.x == k then Face.R
    else if p.x == -k then Face.L
    else if p.y == k then Face.U
    else if p.y == -k then Face.D
    else if p.z == k then Face.F
    else if p.z == -k then Face.B
    else Face.X
  }

  // ===========================================================================
  // Projection onto the facelet model

  /** The whole-cube rotation that brings face `f` to the front before its
      stickers are read off; none for `F` itself. */
  function FrontTurn(f: Face): Option<Movement> {
    match f
    case U => Some(Movement(Move.X, Turn.Inverse))
    case R => Some(Movement(Move.Y, Turn.Single))
    case L => Some(Movement(Move.Y, Turn.Inverse))
    case B => Some(Movement(Move.Y, Turn.Double))
    case D => Some(Movement(Move.X, Turn.Single))
    case _ => None
  }

  /** A copy of the cube turned so that face `f` is at the front. */
  function FrontView(n: nat, s: seq<Sticker>, f: Face): seq<Sticker> {
    match FrontTurn(f)
    case None => s
    case Some(m) => AfterGMove(s, CreateGMove(n, m))
  }

  /** The stickers of `s` currently on the front face, in order. */
  function OnFront(n: nat, s: seq<Sticker>): seq<Sticker> {
    if s == [] then []
    else OnFront(n, s[..|s| - 1]) + (if FaceOf(n, s[|s| - 1].current) == Face.F then [s[|s| - 1]] else [])
  }

  /** The face each sticker of `s` started on. */
  function InitialFaces(n: nat, s: seq<Sticker>): seq<Face> {
    seq(|s|, i requires 0 <= i < |s| => FaceOf(n, s[i].initial))
  }

  /** The reading order of the front face: higher rows first, then left to right. */
  predicate Before(a: Sticker, b: Sticker) {
    a.current.y > b.current.y || (a.current.y == b.current.y && a.current.x < b.current.x)
  }

  /** Insert `x` at the end of `s` and move it left past every element it must
      come before. */
  function InsertTail(s: seq<Sticker>, x: Sticker): seq<Sticker> {
    if s == [] || !Before(x, s[|s| - 1]) then s + [x]
    else InsertTail(s[..|s| - 1], x) + [s[|s| - 1]]
  }

  /** Insertion sort by `Before`, inserting the elements from left to right: the
      algorithm the standard library's `sort_by` uses on slices this short. */
  function InsertionSort(s: seq<Sticker>): seq<Sticker> {
    if s == [] then [] else InsertTail(InsertionSort(s[..|s| - 1]), s[|s| - 1])
  }

  /** The nine entries face `f` contributes to the facelet model, or `None` where
      `to_facelet_model` panics because the front face does not hold nine stickers. */
  function FaceBlock(n: nat, s: seq<Sticker>, f: Face): Option<seq<Face>> {
    var v := OnFront(n, FrontView(n, s, f));
    if |v| != STICKERS_PER_FACE then None else Some(InitialFaces(n, InsertionSort(v)))
  }

  /** The blocks of the first `k` faces in canonical order, joined. */
  function FaceletBlocks(n: nat, s: seq<Sticker>, k: nat): Option<seq<Face>>
    requires k <= |ORDERED_FACES|
  {
    if k == 0 then Some([])
    else
      match FaceletBlocks(n, s, k - 1)
      case None => None
      case Some(prefix) =>
        match FaceBlock(n, s, ORDERED_FACES[k - 1])
        case None => None
        case Some(block) => Some(prefix + block)
  }

  /** `GCube::to_facelet_model`, with `None` standing for the panic. */
  function FaceletSpec(n: nat, s: seq<Sticker>): Option<FaceletModel> {
    match FaceletBlocks(n, s, |ORDERED_FACES|)
    case None => None
    case Some(faces) => Some(FaceletModel(faces))
  }

  lemma {:induction false} FaceletBlocksFail(n: nat, s: seq<Sticker>, k: nat, j: nat)
    requires k < j <= |ORDERED_FACES|
    requires FaceBlock(n, s, ORDERED_FACES[k]) == None
    ensures FaceletBlocks(n, s, j) == None
    decreases j
  {
    if j - 1 > k {
      FaceletBlocksFail(n, s, k, j - 1);
    }
  }

  lemma FaceletBlocksSnoc(n: nat, s: seq<Sticker>, k: nat, prefix: seq<Face>, block: seq<Face>)
    requires k < |ORDERED_FACES|
    requires FaceletBlocks(n, s, k) == Some(prefix)
    requires FaceBlock(n, s, ORDERED_FACES[k]) == Some(block)
    ensures FaceletBlocks(n, s, k + 1) == Some(prefix + block)
  {
  }

  // ===========================================================================
  // The cube

  lemma RowSnoc(face: int, a: int, bs: seq<int>, j: nat)
    requires j < |bs|
    ensures Row(face, a, bs[..j + 1]) == Row(face, a, bs[..j]) + Triple(face, a, bs[j])
  {
    assert bs[..j + 1][..j] == bs[..j];
  }

  lemma SheetSnoc(face: int, cs: seq<int>, bs: seq<int>, i: nat)
    requires i < |cs|
    ensures Sheet(face, cs[..i + 1], bs) == Sheet(face, cs[..i], bs) + Row(face, cs[i], bs)
  {
    assert cs[..i + 1][..i] == cs[..i];
  }

  lemma ShellSnoc(fs: seq<int>, rs: seq<int>, i: nat)
    requires i < |fs|
    ensures Shell(fs[..i + 1], rs) == Shell(fs[..i], rs) + Sheet(fs[i], rs, rs)
  {
    assert fs[..i + 1][..i] == fs[..i];
  }

  /** The innermost loop of `GCube::new`: for each second coordinate, push the
      sticker on the face plane and the two stickers on the other planes. */
  method PushRow(v0: seq<Sticker>, face: int, coord1: int, range: seq<int>) returns (v: seq<Sticker>)
    ensures v == v0 + Row(face, coord1, range)
  {
    v := v0;
    for j := 0 to |range|
      invariant v == v0 + Row(face, coord1, range[..j])
    {
      var coord2 := range[j];
      ghost var row := v;
      v := v + [FromPoint(Point3(face, coord1, coord2))];
      v := v + [FromPoint(Point3(coord1, face, coord2))];
      v := v + [FromPoint(Point3(coord1, coord2, face))];
      assert v == row + Triple(face, coord1, coord2);
      RowSnoc(face, coord1, range, j);
    }
    assert range[..|range|] == range;
  }

  /** The middle loop of `GCube::new`: one row per first coordinate. */
  method PushSheet(v0: seq<Sticker>, face: int, range: seq<int>) returns (v: seq<Sticker>)
    ensures v == v0 + Sheet(face, range, range)
  {
    v := v0;
    for i := 0 to |range|
      invariant v == v0 + Sheet(face, range[..i], range)
    {
      v := PushRow(v, face, range[i], range);
      SheetSnoc(face, range, range, i);
    }
    assert range[..|range|] == range;
  }

  /** `GCube::new`: one sheet of rows for each of the two face coordinates -N
      and N. */
  method NewStickers(n: nat) returns (v: seq<Sticker>)
    ensures v == Solved(n)
  {
    v := [];
    var faces: seq<int> := [-(n as int), n as int];
    var range := Range(n);
    for fi := 0 to |faces|
      invariant v == Shell(faces[..fi], range)
    {
      v := PushSheet(v, faces[fi], range);
      ShellSnoc(faces, range, fi);
    }
    assert faces[..|faces|] == faces;
  }

  lemma InsertTailShift(s: seq<Sticker>, j: nat, x: Sticker)
    requires 0 < j <= |s| && Before(x, s[j - 1])
    ensures InsertTail(s[..j], x) + s[j..] == InsertTail(s[..j - 1], x) + s[j - 1..]
  {
    assert s[..j][..j - 1] == s[..j - 1];
    assert s[j - 1..] == [s[j - 1]] + s[j..];
  }

  lemma InsertTailStop(s: seq<Sticker>, j: nat, x: Sticker)
    requires j <= |s| && (j == 0 || !Before(x, s[j - 1]))
    ensures InsertTail(s[..j], x) == s[..j] + [x]
  {
  }

  /** `insert_tail`: move `a[i]` left past every element of the sorted prefix
      `a[..i]` it must come before, shifting those one place right. */
  method InsertLast(a: array<Sticker>, i: nat)
    requires i < a.Length
    modifies a
    ensures a[..i + 1] == InsertTail(old(a[..i]), old(a[i]))
    ensures a[i + 1..] == old(a[i + 1..])
  {
    ghost var sorted := a[..i];
    var x := a[i];
    var j := i;
    assert sorted[..i] == sorted;
    while j > 0 && Before(x, a[j - 1])
      invariant 0 <= j <= i
      invariant forall m :: 0 <= m < j ==> a[m] == sorted[m]
      invariant forall m :: j < m <= i ==> a[m] == sorted[m - 1]
      invariant forall m :: i < m < a.Length ==> a[m] == old(a[m])
      invariant InsertTail(sorted, x) == InsertTail(sorted[..j], x) + sorted[j..]
      decreases j
    {
      InsertTailShift(sorted, j, x);
      a[j] := a[j - 1];
      j := j - 1;
    }
    a[j] := x;
    InsertTailStop(sorted, j, x);
    assert a[..i + 1] == sorted[..j] + [x] + sorted[j..];
    assert a[i + 1..] == old(a[i + 1..]);
  }

  /** Sort the front stickers into reading order: a stable sort by `Before`,
      the insertion sort `sort_by` uses on slices this short. */
  method SortStickers(a: array<Sticker>)
    modifies a
    ensures a[..] == InsertionSort(old(a[..]))
  {
    ghost var input := a[..];
    for i := 0 to a.Length
      invariant a[..i] == InsertionSort(input[..i])
      invariant a[i..] == input[i..]
    {
      assert a[i] == input[i];
      InsertLast(a, i);
      assert input[..i + 1][..i] == input[..i];
    }
    assert a[..a.Length] == a[..];
    assert input[..a.Length] == input;
  }

  /** A cube of side N: its stickers in a fixed-size array, each with where it
      started and where it is now. */
  class GCube {
    const n: nat
    const stickers: array<Sticker>

    /** The array holds 6 N^2 stickers, as the type of the source's array says. */
    ghost predicate Valid()
      reads this
    {
      stickers.Length == 6 * n * n
    }

    /** `GCube::new`: a solved cube. */
    constructor (n: nat)
      ensures this.n == n && Valid()
      ensures fresh(stickers) && stickers[..] == Solved(n)
    {
      var v := NewStickers(n);
      SolvedLength(n);
      this.n := n;
      stickers := new Sticker[|v|](i requires 0 <= i < |v| => v[i]);
    }

    /** `let c = *self`: a copy of another cube. */
    constructor Clone(other: GCube)
      ensures n == other.n && Valid() == other.Valid()
      ensures fresh(stickers) && stickers[..] == other.stickers[..]
    {
      var content := other.stickers[..];
      n := other.n;
      stickers := new Sticker[|content|](i requires 0 <= i < |content| => content[i]);
    }

    /** `apply_gmove`: every sticker is replaced by the result of the move on it. */
    method ApplyGMove(g: GMove)
      requires Valid()
      modifies stickers
      ensures Valid() && stickers[..] == AfterGMove(old(stickers[..]), g)
    {
      for i := 0 to stickers.Length
        invariant forall j :: 0 <= j < i ==> stickers[j] == ApplyGMoveToSticker(old(stickers[j]), g)
        invariant forall j :: i <= j < stickers.Length ==> stickers[j] == old(stickers[j])
      {
        stickers[i] := ApplyGMoveToSticker(stickers[i], g);
      }
    }

    /** `apply_gmoves`: the moves one after another. */
    method ApplyGMoves(gs: seq<GMove>)
      requires Valid()
      modifies stickers
      ensures Valid() && stickers[..] == AfterGMoves(old(stickers[..]), gs)
    {
      for i := 0 to |gs|
        invariant Valid()
        invariant AfterGMoves(stickers[..], gs[i..]) == AfterGMoves(old(stickers[..]), gs)
      {
        assert gs[i..][1..] == gs[i + 1..];
        ApplyGMove(gs[i]);
      }
    }

    /** `apply_movement`: the geometric move of one movement. */
    method ApplyMovement(m: Movement)
      requires Valid()
      modifies stickers
      ensures Valid() && stickers[..] == AfterGMove(old(stickers[..]), CreateGMove(n, m))
    {
      ApplyGMoves([CreateGMove(n, m)]);
    }

    /** `apply_movements`: the geometric moves of a whole sequence of movements. */
    method ApplyMovements(ms: seq<Movement>)
      requires Valid()
      modifies stickers
      ensures Valid() && stickers[..] == AfterGMoves(old(stickers[..]), CreateGMoves(n, ms))
    {
      ApplyGMoves(CreateGMoves(n, ms));
    }

    /** `get_curr_face`: the face a sticker is on now; a real face for any
        sticker centre of a cube of side at least 1. */
    function GetCurrFace(s: Sticker): (f: Face)
      reads this
      ensures f == FaceOf(n, s.current)
      ensures n >= 1 && OnSurface(n, s.current) ==> IsRealFace(f)
    {
      FaceOf(n, s.current)
    }

    /** `get_initial_face`: the face a sticker started on. */
    function GetInitialFace(s: Sticker): (f: Face)
      reads this
      ensures f == FaceOf(n, s.initial)
      ensures n >= 1 && OnSurface(n, s.initial) ==> IsRealFace(f)
    {
      FaceOf(n, s.initial)
    }

    /** The stickers on face `face` once a copy of the cube has been turned to
        bring that face to the front, in array order. */
    method FrontStickers(face: Face) returns (v: seq<Sticker>)
      requires Valid()
      ensures v == OnFront(n, FrontView(n, stickers[..], face))
    {
      var c := new GCube.Clone(this);
      var turn := FrontTurn(face);
      if turn.Some? {
        c.ApplyMovement(turn.value);
      }
      v := [];
      for i := 0 to c.stickers.Length
        invariant v == OnFront(n, c.stickers[..i])
      {
        assert c.stickers[..i + 1][..i] == c.stickers[..i];
        if FaceOf(n, c.stickers[i].current) == Face.F {
          v := v + [c.stickers[i]];
        }
      }
      assert c.stickers[..c.stickers.Length] == c.stickers[..];
    }

    /** The `set_face` closure of `to_facelet_model`: sort the nine front
        stickers into reading order and write the faces they started on into
        `facelets[index..index + 9]`. */
    method SetFace(facelets: array<Face>, v: seq<Sticker>, index: nat)
      requires |v| == STICKERS_PER_FACE
      requires index + STICKERS_PER_FACE <= facelets.Length
      modifies facelets
      ensures facelets[..index] == old(facelets[..index])
      ensures facelets[index..index + STICKERS_PER_FACE] == InitialFaces(n, InsertionSort(v))
      ensures facelets[index + STICKERS_PER_FACE..] == old(facelets[index + STICKERS_PER_FACE..])
    {
      var front := new Sticker[STICKERS_PER_FACE](i requires 0 <= i < STICKERS_PER_FACE => v[i]);
      assert front[..] == v;
      SortStickers(front);
      ghost var block := InitialFaces(n, front[..]);
      for j := 0 to STICKERS_PER_FACE
        modifies facelets
        invariant facelets[..index] == old(facelets[..index])
        invariant facelets[index..index + j] == block[..j]
        invariant facelets[index + STICKERS_PER_FACE..] == old(facelets[index + STICKERS_PER_FACE..])
      {
        facelets[index + j] := FaceOf(n, front[j].initial);
      }
    }

    /** One pass of the loop in `to_facelet_model`: collect the stickers on the
        `k`-th face in canonical order and, when there are nine of them, write
        their block after the blocks of the faces before it. */
    method ReadFace(facelets: array<Face>, k: nat, index: nat) returns (ok: bool)
      requires Valid() && k < |ORDERED_FACES| && facelets.Length == TOTAL_STICKERS
      requires index == k * STICKERS_PER_FACE
      requires FaceletBlocks(n, stickers[..], k) == Some(facelets[..index])
      modifies facelets
      ensures ok <==> FaceBlock(n, stickers[..], ORDERED_FACES[k]).Some?
      ensures ok ==> FaceletBlocks(n, stickers[..], k + 1) == Some(facelets[..index + STICKERS_PER_FACE])
      ensures ok ==> facelets[index + STICKERS_PER_FACE..] == old(facelets[index + STICKERS_PER_FACE..])
      ensures !ok ==> FaceletSpec(n, stickers[..]) == None
      ensures !ok ==> facelets[..] == old(facelets[..])
    {
      ghost var prefix := facelets[..index];
      var v := FrontStickers(ORDERED_FACES[k]);
      if |v| != STICKERS_PER_FACE {
        FaceletBlocksFail(n, stickers[..], k, |ORDERED_FACES|);
        return false;
      }
      SetFace(facelets, v, index);
      FaceletBlocksSnoc(n, stickers[..], k, prefix, facelets[index..index + STICKERS_PER_FACE]);
      assert facelets[..index + STICKERS_PER_FACE] == prefix + facelets[index..index + STICKERS_PER_FACE];
      return true;
    }

    /** `to_facelet_model`: for each face in canonical order, turn a copy of the
        cube to bring that face to the front, collect the front stickers, sort
        them into reading order and write the faces they started on. */
    method ToFaceletModel() returns (r: Option<FaceletModel>)
      requires Valid()
      ensures r == FaceletSpec(n, stickers[..])
    {
      var facelets := new Face[TOTAL_STICKERS](_ => Face.U);
      var index := 0;
      for k := 0 to |ORDERED_FACES|
        invariant index == k * STICKERS_PER_FACE
        invariant FaceletBlocks(n, stickers[..], k) == Some(facelets[..index])
      {
        var ok := ReadFace(facelets, k, index);
        if !ok {
          return None;
        }
        index := index + STICKERS_PER_FACE;
      }
      assert facelets[..index] == facelets[..];
      r := Some(FaceletModel(facelets[..]));
    }
  }
}
