/** The flat facelet layout: six blocks of nine faces, one block per face in the
    canonical order U, R, F, D, L, B. */
module Facelets {
  import opened Faces

  const ORDERED_FACES: seq<Face> := [Face.U, Face.R, Face.F, Face.D, Face.L, Face.B]
  const STICKERS_PER_FACE: nat := 9
  const TOTAL_STICKERS: nat := |ORDERED_FACES| * STICKERS_PER_FACE

  datatype FaceletModel = FaceletModel(faces: seq<Face>)

  lemma OrderedFacesFacts()
    ensures |ORDERED_FACES| == 6 && TOTAL_STICKERS == 54
    ensures forall k :: 0 <= k < 6 ==> IsRealFace(ORDERED_FACES[k])
    ensures forall f :: IsRealFace(f) ==> f in ORDERED_FACES
    ensures forall i, j :: 0 <= i < j < 6 ==> ORDERED_FACES[i] != ORDERED_FACES[j]
  {
  }

  /** `STICKERS_PER_FACE` copies of `f`. */
  function Block(f: Face): seq<Face> {
    seq(STICKERS_PER_FACE, _ => f)
  }

  /** Each face of `fs` expanded into its block, in order (a flat map). */
  function Blocks(fs: seq<Face>): seq<Face> {
    if fs == [] then [] else Blocks(fs[..|fs| - 1]) + Block(fs[|fs| - 1])
  }

  /** The solved layout: the blocks of the six faces in canonical order. */
  function SolvedLayout(): seq<Face> {
    Blocks(ORDERED_FACES)
  }

  lemma {:induction false} BlocksAt(fs: seq<Face>)
    ensures |Blocks(fs)| == STICKERS_PER_FACE * |fs|
    ensures forall i :: 0 <= i < |Blocks(fs)| ==> Blocks(fs)[i] == fs[i / STICKERS_PER_FACE]
  {
    if fs != [] {
      var init := fs[..|fs| - 1];
      BlocksAt(init);
      var b := Blocks(fs);
      assert b == Blocks(init) + Block(fs[|fs| - 1]);
      forall i | 0 <= i < |b|
        ensures b[i] == fs[i / STICKERS_PER_FACE]
      {
        if i < |Blocks(init)| {
          assert b[i] == init[i / STICKERS_PER_FACE];
        } else {
          assert i / STICKERS_PER_FACE == |fs| - 1;
        }
      }
    }
  }

  /** The solved layout has 54 entries, and entry i carries face i / 9: entries
      9k .. 9k+8 form the block of face k. */
  lemma SolvedLayoutBlocks()
    ensures |SolvedLayout()| == TOTAL_STICKERS
    ensures forall i :: 0 <= i < TOTAL_STICKERS ==>
      SolvedLayout()[i] == ORDERED_FACES[i / STICKERS_PER_FACE]
  {
    BlocksAt(ORDERED_FACES);
  }

  /** The solved layout spelled out: nine U, nine R, nine F, nine D, nine L, nine B. */
  lemma SolvedLayoutLiteral()
    ensures SolvedLayout() ==
        [Face.U, Face.U, Face.U, Face.U, Face.U, Face.U, Face.U, Face.U, Face.U]
      + [Face.R, Face.R, Face.R, Face.R, Face.R, Face.R, Face.R, Face.R, Face.R]
      + [Face.F, Face.F, Face.F, Face.F, Face.F, Face.F, Face.F, Face.F, Face.F]
      + [Face.D, Face.D, Face.D, Face.D, Face.D, Face.D, Face.D, Face.D, Face.D]
      + [Face.L, Face.L, Face.L, Face.L, Face.L, Face.L, Face.L, Face.L, Face.L]
      + [Face.B, Face.B, Face.B, Face.B, Face.B, Face.B, Face.B, Face.B, Face.B]
  {
    var f1, f2, f3 := [Face.U], [Face.U, Face.R], [Face.U, Face.R, Face.F];
    var f4, f5 := [Face.U, Face.R, Face.F, Face.D], [Face.U, Face.R, Face.F, Face.D, Face.L];
    assert ORDERED_FACES[..5] == f5 && f5[..4] == f4 && f4[..3] == f3;
    assert f3[..2] == f2 && f2[..1] == f1 && f1[..0] == [];
    BlockLiteral(Face.U);
    BlockLiteral(Face.R);
    BlockLiteral(Face.F);
    BlockLiteral(Face.D);
    BlockLiteral(Face.L);
    BlockLiteral(Face.B);
    assert Blocks(f1) == Block(Face.U);
    assert Blocks(f2) == Blocks(f1) + Block(Face.R);
    assert Blocks(f3) == Blocks(f2) + Block(Face.F);
    assert Blocks(f4) == Blocks(f3) + Block(Face.D);
    assert Blocks(f5) == Blocks(f4) + Block(Face.L);
    assert SolvedLayout() == Blocks(f5) + Block(Face.B);
  }

  lemma BlockLiteral(f: Face)
    ensures Block(f) == [f, f, f, f, f, f, f, f, f]
  {
  }

  lemma BlockCount(g: Face, f: Face)
    ensures multiset(Block(g))[f] == if g == f then STICKERS_PER_FACE else 0
  {
    BlockLiteral(g);
  }

  lemma {:induction false} BlocksCount(fs: seq<Face>, f: Face)
    ensures multiset(Blocks(fs))[f] == STICKERS_PER_FACE * multiset(fs)[f]
  {
    if fs != [] {
      var init, last := fs[..|fs| - 1], fs[|fs| - 1];
      assert fs == init + [last];
      BlocksCount(init, f);
      BlockCount(last, f);
    }
  }

  /** Every real face occurs exactly nine times in the solved layout, the sentinel never. */
  lemma SolvedLayoutCounts(f: Face)
    ensures multiset(SolvedLayout())[f] == if IsRealFace(f) then STICKERS_PER_FACE else 0
  {
    BlocksCount(ORDERED_FACES, f);
  }

  /** `default_facelet`: fill a 54-entry array with the flat map of the ordered faces. */
  method DefaultFacelet() returns (m: FaceletModel)
    ensures m.faces == SolvedLayout()
  {
    var stickers := new Face[TOTAL_STICKERS](_ => Face.U);
    BlocksAt(ORDERED_FACES);
    var index := 0;
    for k := 0 to |ORDERED_FACES|
      invariant index == k * STICKERS_PER_FACE
      invariant forall i :: 0 <= i < index ==> stickers[i] == ORDERED_FACES[i / STICKERS_PER_FACE]
    {
      for r := 0 to STICKERS_PER_FACE
        invariant index == k * STICKERS_PER_FACE + r
        invariant forall i :: 0 <= i < index ==> stickers[i] == ORDERED_FACES[i / STICKERS_PER_FACE]
      {
        stickers[index] := ORDERED_FACES[k];
        index := index + 1;
      }
    }
    m := FaceletModel(stickers[..]);
  }

  /** Element-wise comparison of two layouts. */
  function SameFaces(a: seq<Face>, b: seq<Face>): (r: bool)
    ensures r <==> a == b
  {
    if a == [] || b == [] then a == b
    else a[0] == b[0] && SameFaces(a[1..], b[1..])
  }

  /** Equality of facelet models: element-wise equality of their entries. */
  function Equal(a: FaceletModel, b: FaceletModel): (r: bool)
    ensures r <==> a.faces == b.faces
  {
    SameFaces(a.faces, b.faces)
  }

  lemma EqualIsEquivalence(a: FaceletModel, b: FaceletModel, c: FaceletModel)
    ensures Equal(a, a)
    ensures Equal(a, b) ==> Equal(b, a)
    ensures Equal(a, b) && Equal(b, c) ==> Equal(a, c)
  {
  }
}
