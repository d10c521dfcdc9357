/** What `to_facelet_model` reads off a cube: the reading order of the front
    stickers, which stickers each whole-cube turn brings to the front, how many
    stickers each face holds, and the facelet list that results. */
module FaceletLaws {
  import opened Faces
  import opened Points
  import opened Moves
  import opened Facelets
  import opened GeometryModel
  import opened CubeInvariants

  // ===========================================================================
  // Reading order of the front stickers

  /** `Before` orders stickers by descending y, then ascending x: a strict weak
      order, so "not before" is transitive too. */
  lemma BeforeIsStrictWeakOrder(a: Sticker, b: Sticker, c: Sticker)
    ensures !Before(a, a)
    ensures Before(a, b) ==> !Before(b, a)
    ensures Before(a, b) && Before(b, c) ==> Before(a, c)
    ensures !Before(a, b) && !Before(b, c) ==> !Before(a, c)
  {
  }

  /** No sticker comes before one to its left in the sequence. */
  predicate InReadingOrder(t: seq<Sticker>) {
    forall i, j :: 0 <= i < j < |t| ==> !Before(t[j], t[i])
  }

  lemma {:induction false} InsertTailPermutes(s: seq<Sticker>, x: Sticker)
    ensures multiset(InsertTail(s, x)) == multiset(s) + multiset{x}
    decreases |s|
  {
    if s != [] && Before(x, s[|s| - 1]) {
      var init := s[..|s| - 1];
      assert s == init + [s[|s| - 1]];
      InsertTailPermutes(init, x);
    }
  }

  /** Inserting into a sequence in reading order keeps it in reading order. */
  lemma {:induction false} InsertTailSorted(s: seq<Sticker>, x: Sticker)
    requires InReadingOrder(s)
    ensures InReadingOrder(InsertTail(s, x))
    decreases |s|
  {
    if s != [] {
      var init, last := s[..|s| - 1], s[|s| - 1];
      if !Before(x, last) {
        var r := s + [x];
        forall i, j | 0 <= i < j < |r|
          ensures !Before(r[j], r[i])
        {
          if j == |s| && i < |s| - 1 {
            BeforeIsStrictWeakOrder(x, last, s[i]);
          }
        }
      } else {
        InsertTailSorted(init, x);
        InsertTailPermutes(init, x);
        var m := InsertTail(init, x);
        var r := m + [last];
        forall i, j | 0 <= i < j < |r|
          ensures !Before(r[j], r[i])
        {
          if j == |m| {
            assert m[i] in multiset(m);
            if m[i] == x {
              BeforeIsStrictWeakOrder(x, last, x);
            } else {
              assert m[i] in multiset(init);
              var k :| 0 <= k < |init| && init[k] == m[i];
              assert s[k] == m[i];
            }
          }
        }
      }
    }
  }

  /** The sort of `set_face` only reorders the front stickers. */
  lemma {:induction false} SortPermutes(s: seq<Sticker>)
    ensures multiset(InsertionSort(s)) == multiset(s)
    ensures |InsertionSort(s)| == |s|
  {
    if s != [] {
      var init := s[..|s| - 1];
      assert s == init + [s[|s| - 1]];
      SortPermutes(init);
      InsertTailPermutes(InsertionSort(init), s[|s| - 1]);
    }
    assert |InsertionSort(s)| == |multiset(InsertionSort(s))|;
  }

  /** ... and leaves them in reading order: top row first, each row left to right. */
  lemma {:induction false} SortSorted(s: seq<Sticker>)
    ensures InReadingOrder(InsertionSort(s))
  {
    if s != [] {
      SortSorted(s[..|s| - 1]);
      InsertTailSorted(InsertionSort(s[..|s| - 1]), s[|s| - 1]);
    }
  }

  lemma InitialFacesAppend(n: nat, a: seq<Sticker>, b: seq<Sticker>)
    ensures InitialFaces(n, a + b) == InitialFaces(n, a) + InitialFaces(n, b)
  {
  }

  lemma FacesSnoc(n: nat, a: seq<Sticker>, y: Sticker)
    ensures multiset(InitialFaces(n, a + [y])) == multiset(InitialFaces(n, a)) + multiset{FaceOf(n, y.initial)}
  {
    InitialFacesAppend(n, a, [y]);
    assert InitialFaces(n, [y]) == [FaceOf(n, y.initial)];
  }

  lemma {:induction false} InsertTailFaces(n: nat, s: seq<Sticker>, x: Sticker)
    ensures multiset(InitialFaces(n, InsertTail(s, x))) == multiset(InitialFaces(n, s)) + multiset{FaceOf(n, x.initial)}
    decreases |s|
  {
    if s == [] || !Before(x, s[|s| - 1]) {
      FacesSnoc(n, s, x);
    } else {
      var init, last := s[..|s| - 1], s[|s| - 1];
      InsertTailFaces(n, init, x);
      FacesSnoc(n, InsertTail(init, x), last);
      assert s == init + [last];
      FacesSnoc(n, init, last);
    }
  }

  /** Sorting the front stickers does not change which faces they started on. */
  lemma {:induction false} SortKeepsFaces(n: nat, s: seq<Sticker>)
    ensures multiset(InitialFaces(n, InsertionSort(s))) == multiset(InitialFaces(n, s))
  {
    if s != [] {
      var init, last := s[..|s| - 1], s[|s| - 1];
      SortKeepsFaces(n, init);
      InsertTailFaces(n, InsertionSort(init), last);
      assert s == init + [last];
      FacesSnoc(n, init, last);
    }
  }

  // ===========================================================================
  // Bringing a face to the front

  /** On the surface, `get_face` names face `f` exactly when the coordinate along
      `f`'s axis is at `f`'s end. */
  lemma FaceOfOnSurface(n: nat, p: Point3, f: Face)
    requires OnSurface(n, p) && IsRealFace(f)
    ensures FaceOf(n, p) == f <==> Coord(p, FaceAxis(f)) == FaceSign(f) * n
  {
  }

  /** A sticker after the whole-cube turn that `to_facelet_model` makes before
      reading face `f`. */
  function FrontSticker(n: nat, x: Sticker, f: Face): Sticker {
    match FrontTurn(f)
    case None => x
    case Some(m) => ApplyGMoveToSticker(x, CreateGMove(n, m))
  }

  lemma FrontViewAt(n: nat, s: seq<Sticker>, f: Face)
    ensures |FrontView(n, s, f)| == |s|
    ensures forall i :: 0 <= i < |s| ==> FrontView(n, s, f)[i] == FrontSticker(n, s[i], f)
  {
  }

  /** The axis of the whole-cube turn that brings face `f` to the front. */
  function FrontAxis(f: Face): Axis {
    if f == Face.U || f == Face.D then Axis.X else Axis.Y
  }

  /** Its signed number of clockwise quarter turns. */
  function FrontTurns(f: Face): int {
    match f
    case U => -1
    case D => 1
    case R => 1
    case L => -1
    case B => 2
    case _ => 0
  }

  /** The whole-cube turn made before reading face `f` is `FrontTurns(f)`
      quarter turns of every sticker about `FrontAxis(f)`. */
  lemma FrontStickerTurns(n: nat, x: Sticker, f: Face)
    ensures FrontSticker(n, x, f) == Sticker(x.initial, RotateAroundAxis(x.current, FrontAxis(f), FrontTurns(f)))
  {
    if f != Face.F && FrontTurn(f).Some? {
      var g := CreateGMove(n, FrontTurn(f).value);
      assert g.selector == Everything && g.axis == FrontAxis(f) && EffectiveTurns(g) == FrontTurns(f);
    }
  }

  /** That turn carries the coordinate at `f`'s end into the front's z coordinate. */
  lemma FrontDepth(p: Point3, f: Face)
    requires IsRealFace(f)
    ensures RotateAroundAxis(p, FrontAxis(f), FrontTurns(f)).z == FaceSign(f) * Coord(p, FaceAxis(f))
  {
    match f
    case F =>
    case U =>
      RotateOneTurn(p, Axis.X);
    case D =>
      RotateOneTurn(p, Axis.X);
    case R =>
      RotateOneTurn(p, Axis.Y);
    case L =>
      RotateOneTurn(p, Axis.Y);
    case B =>
      RotateIsQuarters(p, Axis.Y, 2);
  }

  /** The turn made before reading face `f` brings exactly the stickers on `f` to
      the front, keeps every sticker on the surface and never changes where a
      sticker started. */
  lemma FrontStickerFace(n: nat, x: Sticker, f: Face)
    requires OnSurface(n, x.current) && IsRealFace(f)
    ensures FaceOf(n, FrontSticker(n, x, f).current) == Face.F <==> FaceOf(n, x.current) == f
    ensures OnSurface(n, FrontSticker(n, x, f).current)
    ensures FrontSticker(n, x, f).initial == x.initial
  {
    var p := x.current;
    var r := RotateAroundAxis(p, FrontAxis(f), FrontTurns(f));
    assert FrontSticker(n, x, f) == Sticker(x.initial, r) by {
      FrontStickerTurns(n, x, f);
    }
    assert r.z == FaceSign(f) * Coord(p, FaceAxis(f)) by {
      FrontDepth(p, f);
    }
    assert OnSurface(n, r) by {
      RotateOnSurface(n, p, FrontAxis(f), FrontTurns(f));
    }
    assert FaceOf(n, p) == f <==> Coord(p, FaceAxis(f)) == FaceSign(f) * n by {
      FaceOfOnSurface(n, p, f);
    }
    assert FaceOf(n, r) == Face.F <==> r.z == n by {
      FaceOfOnSurface(n, r, Face.F);
    }
    assert FaceSign(f) == 1 || FaceSign(f) == -1;
  }


  // ===========================================================================
  // Which stickers a face block reads

  /** The stickers of `s` currently on face `f`, in order. */
  function OnFace(n: nat, s: seq<Sticker>, f: Face): seq<Sticker> {
    if s == [] then []
    else OnFace(n, s[..|s| - 1], f) + (if FaceOf(n, s[|s| - 1].current) == f then [s[|s| - 1]] else [])
  }

  lemma {:induction false} OnFrontIsOnFace(n: nat, s: seq<Sticker>)
    ensures OnFront(n, s) == OnFace(n, s, Face.F)
  {
    if s != [] {
      OnFrontIsOnFace(n, s[..|s| - 1]);
    }
  }

  lemma {:induction false} OnFaceAppend(n: nat, a: seq<Sticker>, b: seq<Sticker>, f: Face)
    ensures OnFace(n, a + b, f) == OnFace(n, a, f) + OnFace(n, b, f)
    decreases |b|
  {
    if b == [] {
      assert a + b == a;
    } else {
      var init := b[..|b| - 1];
      assert (a + b)[..|a + b| - 1] == a + init;
      OnFaceAppend(n, a, init, f);
    }
  }

  /** The stickers on face `f` are stickers of `s`, and they are on `f`. */
  lemma {:induction false} OnFaceMembers(n: nat, s: seq<Sticker>, f: Face)
    ensures forall i :: 0 <= i < |OnFace(n, s, f)| ==>
      OnFace(n, s, f)[i] in s && FaceOf(n, OnFace(n, s, f)[i].current) == f
  {
    if s != [] {
      var init := s[..|s| - 1];
      OnFaceMembers(n, init, f);
      assert forall x :: x in init ==> x in s;
    }
  }

  lemma AfterGMoveAppend(a: seq<Sticker>, b: seq<Sticker>, g: GMove)
    ensures AfterGMove(a + b, g) == AfterGMove(a, g) + AfterGMove(b, g)
  {
  }

  /** When a move sends exactly the stickers on face `f` to the front, keeping
      the front stickers after the move is moving the stickers on `f`. */
  lemma {:induction false} OnFrontAfterGMove(n: nat, s: seq<Sticker>, g: GMove, f: Face)
    requires forall i :: 0 <= i < |s| ==>
      (FaceOf(n, ApplyGMoveToSticker(s[i], g).current) == Face.F <==> FaceOf(n, s[i].current) == f)
    ensures OnFace(n, AfterGMove(s, g), Face.F) == AfterGMove(OnFace(n, s, f), g)
  {
    if s != [] {
      var init, last := s[..|s| - 1], s[|s| - 1];
      var t := AfterGMove(s, g);
      assert t[..|t| - 1] == AfterGMove(init, g);
      assert t[|t| - 1] == ApplyGMoveToSticker(last, g);
      OnFrontAfterGMove(n, init, g, f);
      var tail := if FaceOf(n, last.current) == f then [last] else [];
      AfterGMoveAppend(OnFace(n, init, f), tail, g);
    }
  }

  /** Turning face `f` to the front and keeping the front stickers is keeping
      the stickers on `f` and turning them: the front list read for `f` is the
      stickers on `f`, in array order, each turned. */
  lemma FrontViewReadsFace(n: nat, s: seq<Sticker>, f: Face)
    requires IsRealFace(f)
    requires forall i :: 0 <= i < |s| ==> OnSurface(n, s[i].current)
    ensures OnFront(n, FrontView(n, s, f)) == FrontView(n, OnFace(n, s, f), f)
  {
    OnFrontIsOnFace(n, FrontView(n, s, f));
    if f == Face.F {
      assert FrontView(n, s, f) == s;
      assert FrontView(n, OnFace(n, s, f), f) == OnFace(n, s, f);
    } else {
      var g := CreateGMove(n, FrontTurn(f).value);
      assert FrontView(n, s, f) == AfterGMove(s, g);
      assert FrontView(n, OnFace(n, s, f), f) == AfterGMove(OnFace(n, s, f), g);
      forall i | 0 <= i < |s|
        ensures FaceOf(n, ApplyGMoveToSticker(s[i], g).current) == Face.F <==> FaceOf(n, s[i].current) == f
      {
        FrontStickerFace(n, s[i], f);
      }
      OnFrontAfterGMove(n, s, g, f);
    }
  }

  lemma InitialFacesFront(n: nat, s: seq<Sticker>, f: Face)
    ensures InitialFaces(n, FrontView(n, s, f)) == InitialFaces(n, s)
  {
    FrontViewAt(n, s, f);
    forall i | 0 <= i < |s|
      ensures FrontSticker(n, s[i], f).initial == s[i].initial
    {
      FrontStickerTurns(n, s[i], f);
    }
  }

  // ===========================================================================
  // How many stickers each face holds

  /** The positions the stickers of `s` on face `f` occupy. */
  ghost function FaceSet(n: nat, s: seq<Sticker>, f: Face): set<Point3> {
    set p | p in Currents(s) && FaceOf(n, p) == f
  }

  lemma DistinctSnoc(ps: seq<Point3>)
    requires Distinct(ps) && ps != []
    ensures Distinct(ps[..|ps| - 1]) && ps[|ps| - 1] !in ps[..|ps| - 1]
  {
  }

  lemma FaceSetSnoc(n: nat, s: seq<Sticker>, f: Face)
    requires s != []
    ensures Currents(s[..|s| - 1]) == Currents(s)[..|s| - 1]
    ensures Currents(s)[|s| - 1] == s[|s| - 1].current
    ensures FaceSet(n, s, f) == FaceSet(n, s[..|s| - 1], f)
      + (if FaceOf(n, s[|s| - 1].current) == f then {s[|s| - 1].current} else {})
  {
    assert Currents(s) == Currents(s[..|s| - 1]) + [s[|s| - 1].current];
  }

  /** With no two stickers on one centre, counting the stickers on a face is
      counting the positions they occupy. */
  lemma {:induction false} OnFaceCount(n: nat, s: seq<Sticker>, f: Face)
    requires Distinct(Currents(s))
    ensures |OnFace(n, s, f)| == |FaceSet(n, s, f)|
  {
    if s != [] {
      var init := s[..|s| - 1];
      FaceSetSnoc(n, s, f);
      DistinctSnoc(Currents(s));
      OnFaceCount(n, init, f);
      assert s[|s| - 1].current !in FaceSet(n, init, f);
    }
  }

  lemma CoveringFaceSets(n: nat, s: seq<Sticker>, t: seq<Sticker>, f: Face)
    requires Covers(n, s) && Covers(n, t)
    ensures FaceSet(n, s, f) <= FaceSet(n, t, f)
  {
    forall p | p in FaceSet(n, s, f)
      ensures p in Currents(t)
    {
      var i :| 0 <= i < |s| && Currents(s)[i] == p;
      assert OnSurface(n, s[i].current);
    }
  }

  /** Two cubes with exactly one sticker on every centre have as many stickers
      on each face. */
  lemma SameFaceCount(n: nat, s: seq<Sticker>, t: seq<Sticker>, f: Face)
    requires Covers(n, s) && Covers(n, t)
    ensures |OnFace(n, s, f)| == |OnFace(n, t, f)|
  {
    OnFaceCount(n, s, f);
    OnFaceCount(n, t, f);
    CoveringFaceSets(n, s, t, f);
    CoveringFaceSets(n, t, s, f);
    assert FaceSet(n, s, f) == FaceSet(n, t, f);
  }

  lemma OnFaceOne(n: nat, x: Sticker, f: Face)
    ensures |OnFace(n, [x], f)| == if FaceOf(n, x.current) == f then 1 else 0
  {
    assert [x][..0] == [];
  }

  /** 1 when the face plane at `face` is face `f`'s, 0 otherwise. */
  function Hits(n: nat, face: int, f: Face): nat
    requires IsRealFace(f)
  {
    if face == FaceSign(f) * n then 1 else 0
  }

  /** The three stickers `new` pushes for one position of a face plane put one
      sticker on face `f` when that plane is `f`'s, none otherwise. */
  lemma TripleOnFace(n: nat, face: int, a: int, b: int, f: Face)
    requires IsFaceCoord(n, face) && InRange(n, a) && InRange(n, b) && IsRealFace(f)
    ensures |OnFace(n, Triple(face, a, b), f)| == Hits(n, face, f)
  {
    var p0, p1, p2 := Point3(face, a, b), Point3(a, face, b), Point3(a, b, face);
    assert Triple(face, a, b) == [FromPoint(p0)] + [FromPoint(p1)] + [FromPoint(p2)];
    OnFaceAppend(n, [FromPoint(p0)] + [FromPoint(p1)], [FromPoint(p2)], f);
    OnFaceAppend(n, [FromPoint(p0)], [FromPoint(p1)], f);
    OnFaceOne(n, FromPoint(p0), f);
    OnFaceOne(n, FromPoint(p1), f);
    OnFaceOne(n, FromPoint(p2), f);
    FaceOfOnSurface(n, p0, f);
    FaceOfOnSurface(n, p1, f);
    FaceOfOnSurface(n, p2, f);
  }

  lemma {:induction false} RowOnFace(n: nat, face: int, a: int, bs: seq<int>, f: Face)
    requires IsFaceCoord(n, face) && InRange(n, a) && IsRealFace(f)
    requires forall b :: b in bs ==> InRange(n, b)
    ensures |OnFace(n, Row(face, a, bs), f)| == if Hits(n, face, f) == 1 then |bs| else 0
  {
    if bs != [] {
      var init, b := bs[..|bs| - 1], bs[|bs| - 1];
      assert forall x :: x in init ==> x in bs;
      RowOnFace(n, face, a, init, f);
      OnFaceAppend(n, Row(face, a, init), Triple(face, a, b), f);
      TripleOnFace(n, face, a, b, f);
    }
  }

  lemma {:induction false} SheetOnFace(n: nat, face: int, cs: seq<int>, bs: seq<int>, f: Face)
    requires IsFaceCoord(n, face) && IsRealFace(f)
    requires forall a :: a in cs ==> InRange(n, a)
    requires forall b :: b in bs ==> InRange(n, b)
    ensures |OnFace(n, Sheet(face, cs, bs), f)| == if Hits(n, face, f) == 1 then |cs| * |bs| else 0
  {
    if cs != [] {
      var init, a := cs[..|cs| - 1], cs[|cs| - 1];
      assert forall x :: x in init ==> x in cs;
      SheetOnFace(n, face, init, bs, f);
      OnFaceAppend(n, Sheet(face, init, bs), Row(face, a, bs), f);
      RowOnFace(n, face, a, bs, f);
      MulStep(|cs|, |bs|);
    }
  }

  lemma SolvedSheets(n: nat)
    ensures Solved(n) == Sheet(-(n as int), Range(n), Range(n)) + Sheet(n as int, Range(n), Range(n))
  {
    var lo, hi, rs := -(n as int), n as int, Range(n);
    assert [lo, hi][..1] == [lo] && [lo][..0] == [];
    assert Shell([lo], rs) == Shell([], rs) + Sheet(lo, rs, rs) == Sheet(lo, rs, rs);
  }

  lemma SolvedSplit(n: nat, f: Face)
    ensures |OnFace(n, Solved(n), f)|
      == |OnFace(n, Sheet(-(n as int), Range(n), Range(n)), f)| + |OnFace(n, Sheet(n as int, Range(n), Range(n)), f)|
  {
    SolvedSheets(n);
    OnFaceAppend(n, Sheet(-(n as int), Range(n), Range(n)), Sheet(n as int, Range(n), Range(n)), f);
  }

  /** One face plane of a solved N-cube puts N² stickers on face `f` when it is
      `f`'s plane, none otherwise. */
  lemma SolvedSheetOnFace(n: nat, face: int, f: Face)
    requires IsFaceCoord(n, face) && IsRealFace(f)
    ensures |OnFace(n, Sheet(face, Range(n), Range(n)), f)| == if Hits(n, face, f) == 1 then n * n else 0
  {
    RangeFacts(n);
    SheetOnFace(n, face, Range(n), Range(n), f);
  }

  /** A solved N-cube has N² stickers on each face. */
  lemma SolvedOnFace(n: nat, f: Face)
    requires IsRealFace(f)
    ensures |OnFace(n, Solved(n), f)| == n * n
  {
    SolvedSplit(n, f);
    SolvedSheetOnFace(n, -(n as int), f);
    SolvedSheetOnFace(n, n as int, f);
    if FaceSign(f) == 1 {
      assert n == 0 || (Hits(n, -(n as int), f) == 0 && Hits(n, n as int, f) == 1);
    } else {
      assert n == 0 || (Hits(n, -(n as int), f) == 1 && Hits(n, n as int, f) == 0);
    }
  }

  /** Any cube with exactly one sticker on every centre has N² stickers on each
      face: as many as the solved cube. */
  lemma CoveredOnFace(n: nat, s: seq<Sticker>, f: Face)
    requires Covers(n, s) && IsRealFace(f)
    ensures |OnFace(n, s, f)| == n * n
  {
    SolvedCovers(n);
    SameFaceCount(n, s, Solved(n), f);
    SolvedOnFace(n, f);
  }

  // ===========================================================================
  // The facelet list of a cube

  /** The front stickers read for face `f`, in reading order. */
  function ReadOrder(n: nat, s: seq<Sticker>, f: Face): seq<Sticker> {
    InsertionSort(OnFront(n, FrontView(n, s, f)))
  }

  /** Slot 9k + r of the first k blocks holds the face that the r-th front
      sticker in reading order started on, once face k was turned to the front. */
  lemma DivNine(i: int, q: int, r: int)
    requires i == STICKERS_PER_FACE * q + r && 0 <= r < STICKERS_PER_FACE
    ensures i / STICKERS_PER_FACE == q && i % STICKERS_PER_FACE == r
  {
  }

  /** The block read for face `f` is the starting faces of its nine front
      stickers in reading order. */
  lemma FaceBlockOrder(n: nat, s: seq<Sticker>, f: Face)
    requires FaceBlock(n, s, f).Some?
    ensures |ReadOrder(n, s, f)| == STICKERS_PER_FACE
    ensures FaceBlock(n, s, f).value == InitialFaces(n, ReadOrder(n, s, f))
  {
    SortPermutes(OnFront(n, FrontView(n, s, f)));
  }

  lemma {:induction false} FaceletBlocksSlots(n: nat, s: seq<Sticker>, k: nat)
    requires k <= |ORDERED_FACES|
    requires FaceletBlocks(n, s, k).Some?
    ensures |FaceletBlocks(n, s, k).value| == STICKERS_PER_FACE * k
    ensures forall i :: 0 <= i < STICKERS_PER_FACE * k ==>
      |ReadOrder(n, s, ORDERED_FACES[i / STICKERS_PER_FACE])| == STICKERS_PER_FACE &&
      FaceletBlocks(n, s, k).value[i]
        == FaceOf(n, ReadOrder(n, s, ORDERED_FACES[i / STICKERS_PER_FACE])[i % STICKERS_PER_FACE].initial)
  {
    if k > 0 {
      FaceletBlocksSlots(n, s, k - 1);
      var f := ORDERED_FACES[k - 1];
      var prefix := FaceletBlocks(n, s, k - 1).value;
      var block := FaceBlock(n, s, f).value;
      FaceBlockOrder(n, s, f);
      var all := FaceletBlocks(n, s, k).value;
      assert all == prefix + block;
      forall i | 0 <= i < STICKERS_PER_FACE * k
        ensures |ReadOrder(n, s, ORDERED_FACES[i / STICKERS_PER_FACE])| == STICKERS_PER_FACE
        ensures all[i] == FaceOf(n, ReadOrder(n, s, ORDERED_FACES[i / STICKERS_PER_FACE])[i % STICKERS_PER_FACE].initial)
      {
        if i >= STICKERS_PER_FACE * (k - 1) {
          DivNine(i, k - 1, i - STICKERS_PER_FACE * (k - 1));
          assert all[i] == block[i - STICKERS_PER_FACE * (k - 1)];
        } else {
          assert all[i] == prefix[i];
        }
      }
    }
  }

  /** `to_facelet_model`, slot by slot: when it succeeds, slot i holds the face
      that sticker i mod 9, in reading order, of face i / 9 started on. */
  lemma FaceletSlots(n: nat, s: seq<Sticker>)
    requires FaceletSpec(n, s).Some?
    ensures |FaceletSpec(n, s).value.faces| == TOTAL_STICKERS
    ensures forall i :: 0 <= i < TOTAL_STICKERS ==>
      |ReadOrder(n, s, ORDERED_FACES[i / STICKERS_PER_FACE])| == STICKERS_PER_FACE &&
      FaceletSpec(n, s).value.faces[i]
        == FaceOf(n, ReadOrder(n, s, ORDERED_FACES[i / STICKERS_PER_FACE])[i % STICKERS_PER_FACE].initial)
  {
    FaceletBlocksSlots(n, s, |ORDERED_FACES|);
  }

  lemma NineStickers(n: nat)
    ensures n * n == STICKERS_PER_FACE <==> n == 3
  {
    if n >= 4 {
      assert n * n >= 4 * n;
    } else if n <= 2 {
      assert n == 0 || n == 1 || n == 2;
    }
  }

  /** On a cube with one sticker on every centre, the block read for face `f`
      exists exactly when the cube is a 3-cube, and holds the faces that the
      stickers now on `f` started on. */
  lemma FaceBlockCovered(n: nat, s: seq<Sticker>, f: Face)
    requires Covers(n, s) && IsRealFace(f)
    ensures FaceBlock(n, s, f).Some? <==> n == 3
    ensures FaceBlock(n, s, f).Some? ==>
      multiset(FaceBlock(n, s, f).value) == multiset(InitialFaces(n, OnFace(n, s, f)))
  {
    var v := OnFront(n, FrontView(n, s, f));
    FrontViewReadsFace(n, s, f);
    FrontViewAt(n, OnFace(n, s, f), f);
    CoveredOnFace(n, s, f);
    NineStickers(n);
    SortKeepsFaces(n, v);
    InitialFacesFront(n, OnFace(n, s, f), f);
  }

  /** The faces started on by the stickers now on the first `k` faces of the
      canonical order. */
  function FacesOn(n: nat, s: seq<Sticker>, k: nat): multiset<Face>
    requires k <= |ORDERED_FACES|
  {
    if k == 0 then multiset{}
    else FacesOn(n, s, k - 1) + multiset(InitialFaces(n, OnFace(n, s, ORDERED_FACES[k - 1])))
  }

  /** The starting face of `x` when it is on one of the faces `fs`. */
  function FaceIfOn(n: nat, x: Sticker, fs: seq<Face>): multiset<Face> {
    if FaceOf(n, x.current) in fs then multiset{FaceOf(n, x.initial)} else multiset{}
  }

  /** The last sticker adds its starting face to the block of the face it is on. */
  lemma FacesOfLast(n: nat, s: seq<Sticker>, f: Face)
    requires s != []
    ensures multiset(InitialFaces(n, OnFace(n, s, f)))
      == multiset(InitialFaces(n, OnFace(n, s[..|s| - 1], f))) + FaceIfOn(n, s[|s| - 1], [f])
  {
    var init, x := s[..|s| - 1], s[|s| - 1];
    if FaceOf(n, x.current) == f {
      assert OnFace(n, s, f) == OnFace(n, init, f) + [x];
      assert FaceIfOn(n, x, [f]) == multiset{FaceOf(n, x.initial)};
      FacesSnoc(n, OnFace(n, init, f), x);
    } else {
      assert OnFace(n, s, f) == OnFace(n, init, f) + [];
      assert OnFace(n, init, f) + [] == OnFace(n, init, f);
      assert FaceIfOn(n, x, [f]) == multiset{};
    }
  }

  lemma FaceIfOnSnoc(n: nat, x: Sticker, k: nat)
    requires 0 < k <= |ORDERED_FACES|
    ensures FaceIfOn(n, x, ORDERED_FACES[..k])
      == FaceIfOn(n, x, ORDERED_FACES[..k - 1]) + FaceIfOn(n, x, [ORDERED_FACES[k - 1]])
  {
    assert ORDERED_FACES[..k] == ORDERED_FACES[..k - 1] + [ORDERED_FACES[k - 1]];
    OrderedFacesFacts();
    assert ORDERED_FACES[k - 1] !in ORDERED_FACES[..k - 1];
  }

  lemma {:induction false} FacesOnLast(n: nat, s: seq<Sticker>, k: nat)
    requires s != [] && k <= |ORDERED_FACES|
    ensures FacesOn(n, s, k) == FacesOn(n, s[..|s| - 1], k) + FaceIfOn(n, s[|s| - 1], ORDERED_FACES[..k])
  {
    if k > 0 {
      FacesOnLast(n, s, k - 1);
      FacesOfLast(n, s, ORDERED_FACES[k - 1]);
      FaceIfOnSnoc(n, s[|s| - 1], k);
    }
  }

  /** Every sticker on the surface is on exactly one of the six faces, so the six
      blocks together hold the starting face of every sticker once. */
  /** A sticker on the surface is on one of the six faces. */
  lemma FaceIfOnSurface(n: nat, x: Sticker)
    requires OnSurface(n, x.current)
    ensures FaceIfOn(n, x, ORDERED_FACES) == multiset{FaceOf(n, x.initial)}
  {
    assert IsRealFace(FaceOf(n, x.current));
    OrderedFacesFacts();
  }

  lemma InitialFacesLast(n: nat, s: seq<Sticker>)
    requires s != []
    ensures multiset(InitialFaces(n, s)) == multiset(InitialFaces(n, s[..|s| - 1])) + multiset{FaceOf(n, s[|s| - 1].initial)}
  {
    assert s == s[..|s| - 1] + [s[|s| - 1]];
    FacesSnoc(n, s[..|s| - 1], s[|s| - 1]);
  }

  lemma {:induction false} FacesOnPartition(n: nat, s: seq<Sticker>, k: nat)
    requires k == |ORDERED_FACES|
    requires forall i :: 0 <= i < |s| ==> OnSurface(n, s[i].current)
    ensures FacesOn(n, s, k) == multiset(InitialFaces(n, s))
  {
    if s == [] {
      FacesOnEmpty(n, k);
    } else {
      FacesOnPartition(n, s[..|s| - 1], k);
      FacesOnLast(n, s, k);
      assert ORDERED_FACES[..k] == ORDERED_FACES;
      FaceIfOnSurface(n, s[|s| - 1]);
      InitialFacesLast(n, s);
    }
  }

  lemma {:induction false} FacesOnEmpty(n: nat, k: nat)
    requires k <= |ORDERED_FACES|
    ensures FacesOn(n, [], k) == multiset{}
  {
    if k > 0 {
      FacesOnEmpty(n, k - 1);
    }
  }

  /** On a covering cube, the first `k` blocks exist exactly on a 3-cube, and
      together hold the starting faces of the stickers now on the first `k`
      faces. */
  lemma {:induction false} FaceletBlocksCovered(n: nat, s: seq<Sticker>, k: nat)
    requires Covers(n, s) && k <= |ORDERED_FACES|
    ensures FaceletBlocks(n, s, k).Some? <==> (n == 3 || k == 0)
    ensures FaceletBlocks(n, s, k).Some? ==> multiset(FaceletBlocks(n, s, k).value) == FacesOn(n, s, k)
  {
    if k > 0 {
      OrderedFacesFacts();
      FaceletBlocksCovered(n, s, k - 1);
      FaceBlockCovered(n, s, ORDERED_FACES[k - 1]);
      if n != 3 {
        FaceBlockCovered(n, s, ORDERED_FACES[0]);
        FaceletBlocksFail(n, s, 0, k);
      }
    }
  }

  /** On a cube with one sticker on every centre, `to_facelet_model` succeeds
      exactly on a 3-cube, and its 54 entries are the starting faces of the 54
      stickers, rearranged. */
  lemma FaceletPermutes(n: nat, s: seq<Sticker>)
    requires Covers(n, s)
    ensures FaceletSpec(n, s).Some? <==> n == 3
    ensures FaceletSpec(n, s).Some? ==> multiset(FaceletSpec(n, s).value.faces) == multiset(InitialFaces(n, s))
  {
    FaceletBlocksCovered(n, s, |ORDERED_FACES|);
    FacesOnPartition(n, s, |ORDERED_FACES|);
  }

  // ===========================================================================
  // Solved and reachable cubes

  /** Every sticker on face `f` of a solved cube started on `f`. */
  lemma SolvedOnFaceStarted(n: nat, f: Face)
    ensures forall i :: 0 <= i < |OnFace(n, Solved(n), f)| ==>
      InitialFaces(n, OnFace(n, Solved(n), f))[i] == f
  {
    var v := OnFace(n, Solved(n), f);
    SolvedFacts(n);
    OnFaceMembers(n, Solved(n), f);
    forall i | 0 <= i < |v|
      ensures FaceOf(n, v[i].initial) == f
    {
      var j :| 0 <= j < |Solved(n)| && Solved(n)[j] == v[i];
    }
  }

  /** A sequence of nine faces that is a rearrangement of nine copies of `f` is
      nine copies of `f`. */
  lemma BlockOfPermutation(b: seq<Face>, f: Face)
    requires multiset(b) == multiset(Block(f))
    ensures b == Block(f)
  {
    assert |b| == |multiset(b)| == STICKERS_PER_FACE;
    forall i | 0 <= i < |b|
      ensures b[i] == f
    {
      assert b[i] in multiset(b);
    }
  }

  /** Reading face `f` of a solved 3-cube gives nine copies of `f`. */
  lemma SolvedFaceBlock(n: nat, f: Face)
    requires n == 3 && IsRealFace(f)
    ensures FaceBlock(n, Solved(n), f) == Some(Block(f))
  {
    assert Covers(n, Solved(n)) by {
      SolvedCovers(n);
    }
    assert InitialFaces(n, OnFace(n, Solved(n), f)) == Block(f) by {
      CoveredOnFace(n, Solved(n), f);
      SolvedOnFaceStarted(n, f);
    }
    FaceBlockCovered(n, Solved(n), f);
    BlockOfPermutation(FaceBlock(n, Solved(n), f).value, f);
  }

  lemma BlocksSnoc(fs: seq<Face>, k: nat)
    requires 0 < k <= |fs|
    ensures Blocks(fs[..k]) == Blocks(fs[..k - 1]) + Block(fs[k - 1])
  {
    assert fs[..k][..k - 1] == fs[..k - 1];
  }

  /** When every face reads as nine copies of itself, the facelet list is the
      solved layout. */
  lemma {:induction false} UniformFaceletBlocks(n: nat, s: seq<Sticker>, k: nat)
    requires k <= |ORDERED_FACES|
    requires forall j :: 0 <= j < |ORDERED_FACES| ==> FaceBlock(n, s, ORDERED_FACES[j]) == Some(Block(ORDERED_FACES[j]))
    ensures FaceletBlocks(n, s, k) == Some(Blocks(ORDERED_FACES[..k]))
  {
    if k > 0 {
      var f := ORDERED_FACES[k - 1];
      UniformFaceletBlocks(n, s, k - 1);
      FaceletBlocksSnoc(n, s, k - 1, Blocks(ORDERED_FACES[..k - 1]), Block(f));
      BlocksSnoc(ORDERED_FACES, k);
    }
  }

  /** `to_facelet_model` of `GCube::new()`: the solved layout of
      `default_facelet` on a 3-cube, and a failure on any other size. */
  lemma SolvedFacelet(n: nat)
    ensures FaceletSpec(n, Solved(n)) == if n == 3 then Some(FaceletModel(SolvedLayout())) else None
  {
    if n == 3 {
      forall j | 0 <= j < |ORDERED_FACES|
        ensures FaceBlock(n, Solved(n), ORDERED_FACES[j]) == Some(Block(ORDERED_FACES[j]))
      {
        OrderedFacesFacts();
        SolvedFaceBlock(n, ORDERED_FACES[j]);
      }
      UniformFaceletBlocks(n, Solved(n), |ORDERED_FACES|);
      assert ORDERED_FACES[..|ORDERED_FACES|] == ORDERED_FACES;
    } else {
      SolvedCovers(n);
      FaceletPermutes(n, Solved(n));
    }
  }

  /** Moves never change which face a sticker started on. */
  lemma ReachableInitialFaces(n: nat, ms: seq<Movement>)
    ensures InitialFaces(n, AfterGMoves(Solved(n), CreateGMoves(n, ms))) == InitialFaces(n, Solved(n))
  {
    var s := AfterGMoves(Solved(n), CreateGMoves(n, ms));
    ReachableCovers(n, ms);
    SolvedFacts(n);
    assert |s| == |Initials(s)|;
    forall i | 0 <= i < |s|
      ensures s[i].initial == Solved(n)[i].initial
    {
      assert Initials(s)[i] == Currents(Solved(n))[i];
    }
  }

  /** On any cube reached from the solved N-cube by movements, `to_facelet_model`
      succeeds exactly when N is 3, and then its 54 entries rearrange the solved
      layout: each of the six faces appears exactly nine times, the sentinel
      never. */
  lemma ReachableFacelet(n: nat, ms: seq<Movement>)
    ensures var r := FaceletSpec(n, AfterGMoves(Solved(n), CreateGMoves(n, ms)));
      && (r.Some? <==> n == 3)
      && (r.Some? ==> multiset(r.value.faces) == multiset(SolvedLayout()))
      && (r.Some? ==> forall f :: multiset(r.value.faces)[f] == if IsRealFace(f) then STICKERS_PER_FACE else 0)
  {
    var s := AfterGMoves(Solved(n), CreateGMoves(n, ms));
    ReachableCovers(n, ms);
    FaceletPermutes(n, s);
    if n == 3 {
      ReachableInitialFaces(n, ms);
      SolvedCovers(n);
      FaceletPermutes(n, Solved(n));
      SolvedFacelet(n);
      forall f {
        SolvedLayoutCounts(f);
      }
    }
  }
}
