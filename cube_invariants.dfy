/** The invariant that makes the geometric model a cube: every sticker centre
    on the surface carries exactly one sticker. The solved cube has it, and every
    geometric move whose selector looks only along its own axis keeps it. */
module CubeInvariants {
  import opened Points
  import opened Moves
  import opened GeometryModel

  /** Where the stickers of `s` are now, in order. */
  function Currents(s: seq<Sticker>): seq<Point3> {
    seq(|s|, i requires 0 <= i < |s| => s[i].current)
  }

  /** Where the stickers of `s` started, in order. */
  function Initials(s: seq<Sticker>): seq<Point3> {
    seq(|s|, i requires 0 <= i < |s| => s[i].initial)
  }

  predicate Distinct(ps: seq<Point3>) {
    forall i, j :: 0 <= i < j < |ps| ==> ps[i] != ps[j]
  }

  /** Every sticker sits on a sticker centre, no two share one, and every sticker
      centre of the N-cube is taken. */
  ghost predicate Covers(n: int, s: seq<Sticker>) {
    && (forall i :: 0 <= i < |s| ==> OnSurface(n, s[i].current))
    && Distinct(Currents(s))
    && (forall q :: OnSurface(n, q) ==> q in Currents(s))
  }

  // ===========================================================================
  // Moves keep the invariant

  /** A selector that looks only along `a` cannot tell apart two points with the
      same coordinate along `a`. */
  lemma SelectsAlongCoord(sel: Selector, a: Axis, p: Point3, q: Point3)
    requires SelectsAlong(sel, a) && Coord(p, a) == Coord(q, a)
    ensures Selects(sel, p) <==> Selects(sel, q)
  {
  }

  lemma RotateInjective(p: Point3, q: Point3, a: Axis, t: int)
    requires RotateAroundAxis(p, a, t) == RotateAroundAxis(q, a, t)
    ensures p == q
  {
    RotateInverse(p, a, t);
    RotateInverse(q, a, t);
  }

  /** A move whose selector looks only along its own axis permutes the sticker
      centres: it keeps every sticker on the surface, sends no two stickers to
      the same centre and leaves no centre empty. */
  lemma AfterGMoveCovers(n: int, s: seq<Sticker>, g: GMove)
    requires SelectsAlong(g.selector, g.axis) && Covers(n, s)
    ensures Covers(n, AfterGMove(s, g))
  {
    var r := AfterGMove(s, g);
    var t := EffectiveTurns(g);
    forall i | 0 <= i < |r|
      ensures OnSurface(n, r[i].current)
    {
      if Selects(g.selector, s[i].current) {
        RotateOnSurface(n, s[i].current, g.axis, t);
      }
    }
    forall i, j | 0 <= i < j < |r|
      ensures Currents(r)[i] != Currents(r)[j]
    {
      var p, q := s[i].current, s[j].current;
      assert Currents(s)[i] == p && Currents(s)[j] == q;
      var si, sj := Selects(g.selector, p), Selects(g.selector, q);
      if si && sj {
        if RotateAroundAxis(p, g.axis, t) == RotateAroundAxis(q, g.axis, t) {
          RotateInjective(p, q, g.axis, t);
        }
      } else if si && !sj {
        RotateKeepsAxisCoord(p, g.axis, t);
        if RotateAroundAxis(p, g.axis, t) == q {
          SelectsAlongCoord(g.selector, g.axis, p, q);
        }
      } else if !si && sj {
        RotateKeepsAxisCoord(q, g.axis, t);
        if RotateAroundAxis(q, g.axis, t) == p {
          SelectsAlongCoord(g.selector, g.axis, p, q);
        }
      }
    }
    forall q | OnSurface(n, q)
      ensures q in Currents(r)
    {
      if Selects(g.selector, q) {
        var p := RotateAroundAxis(q, g.axis, -t);
        RotateOnSurface(n, q, g.axis, -t);
        RotateKeepsAxisCoord(q, g.axis, -t);
        SelectsAlongCoord(g.selector, g.axis, p, q);
        RotateInverse(q, g.axis, -t);
        assert p in Currents(s);
        var i :| 0 <= i < |s| && Currents(s)[i] == p;
        assert Currents(r)[i] == q;
      } else {
        assert q in Currents(s);
        var i :| 0 <= i < |s| && Currents(s)[i] == q;
        assert Currents(r)[i] == q;
      }
    }
  }

  /** Every geometric move `create_gmove` builds keeps the invariant, so any
      sequence of them does. */
  lemma {:induction false} AfterGMovesCovers(n: int, s: seq<Sticker>, gs: seq<GMove>)
    requires forall k :: 0 <= k < |gs| ==> SelectsAlong(gs[k].selector, gs[k].axis)
    requires Covers(n, s)
    ensures Covers(n, AfterGMoves(s, gs))
    decreases |gs|
  {
    if gs != [] {
      AfterGMoveCovers(n, s, gs[0]);
      AfterGMovesCovers(n, AfterGMove(s, gs[0]), gs[1..]);
    }
  }

  /** Moving never changes where any sticker started. */
  lemma {:induction false} AfterGMovesInitials(s: seq<Sticker>, gs: seq<GMove>)
    ensures Initials(AfterGMoves(s, gs)) == Initials(s)
    decreases |gs|
  {
    if gs != [] {
      AfterGMovesInitials(AfterGMove(s, gs[0]), gs[1..]);
      assert Initials(AfterGMove(s, gs[0])) == Initials(s);
    }
  }

  // ===========================================================================
  // The solved cube has the invariant

  /** The sticker centre on plane `t` (0: x, 1: y, 2: z) at face coordinate `f`
      with in-face coordinates `a` and `b`, as `GCube::new` places it. */
  function Place(t: nat, f: int, a: int, b: int): Point3 {
    if t == 0 then Point3(f, a, b) else if t == 1 then Point3(a, f, b) else Point3(a, b, f)
  }

  /** The plane a sticker centre lies in: the first coordinate equal to +N or -N. */
  function Plane(n: int, p: Point3): nat {
    if p.x == n || p.x == -n then 0 else if p.y == n || p.y == -n then 1 else 2
  }

  function FaceCoord(n: int, p: Point3): int {
    match Plane(n, p)
    case 0 => p.x
    case 1 => p.y
    case _ => p.z
  }

  function FirstCoord(n: int, p: Point3): int {
    if Plane(n, p) == 0 then p.y else p.x
  }

  function SecondCoord(n: int, p: Point3): int {
    if Plane(n, p) == 2 then p.y else p.z
  }

  predicate IsFaceCoord(n: int, f: int) {
    f == n || f == -n
  }

  /** A sticker centre is recovered from its plane and coordinates. */
  lemma PlaceDecode(n: int, t: nat, f: int, a: int, b: int)
    requires t < 3 && IsFaceCoord(n, f) && InRange(n, a) && InRange(n, b)
    ensures var p := Place(t, f, a, b);
      Plane(n, p) == t && FaceCoord(n, p) == f && FirstCoord(n, p) == a && SecondCoord(n, p) == b
  {
  }

  /** ... and every sticker centre is placed that way. */
  lemma DecodePlace(n: int, q: Point3)
    requires OnSurface(n, q)
    ensures Plane(n, q) < 3 && IsFaceCoord(n, FaceCoord(n, q))
    ensures InRange(n, FirstCoord(n, q)) && InRange(n, SecondCoord(n, q))
    ensures Place(Plane(n, q), FaceCoord(n, q), FirstCoord(n, q), SecondCoord(n, q)) == q
  {
  }

  lemma TripleAt(face: int, a: int, b: int, t: nat)
    requires t < 3
    ensures Triple(face, a, b)[t] == FromPoint(Place(t, face, a, b))
  {
  }

  lemma CurrentsAppend(x: seq<Sticker>, y: seq<Sticker>)
    ensures Currents(x + y) == Currents(x) + Currents(y)
  {
  }

  predicate DistinctInts(xs: seq<int>) {
    forall i, j :: 0 <= i < j < |xs| ==> xs[i] != xs[j]
  }

  /** The sticker centres of one row: all on the plane of `face` at first
      coordinate `a`, with second coordinates from `bs`, pairwise different. */
  lemma {:induction false} RowShape(n: int, face: int, a: int, bs: seq<int>)
    requires IsFaceCoord(n, face) && InRange(n, a)
    requires forall b :: b in bs ==> InRange(n, b)
    requires DistinctInts(bs)
    ensures forall i :: 0 <= i < |Row(face, a, bs)| ==>
      var p := Row(face, a, bs)[i].current;
      FaceCoord(n, p) == face && FirstCoord(n, p) == a && SecondCoord(n, p) in bs
    ensures Distinct(Currents(Row(face, a, bs)))
  {
    if bs != [] {
      var init, b := bs[..|bs| - 1], bs[|bs| - 1];
      assert forall x :: x in init ==> x in bs;
      assert b in bs && b !in init;
      RowShape(n, face, a, init);
      var r0, tr := Row(face, a, init), Triple(face, a, b);
      forall t | 0 <= t < 3
        ensures var p := tr[t].current; FaceCoord(n, p) == face && FirstCoord(n, p) == a && SecondCoord(n, p) == b
        ensures Plane(n, tr[t].current) == t
      {
        TripleAt(face, a, b, t);
        PlaceDecode(n, t, face, a, b);
      }
      CurrentsAppend(r0, tr);
      var all := Currents(r0 + tr);
      forall i, j | 0 <= i < j < |all|
        ensures all[i] != all[j]
      {
        if j >= |r0| && i < |r0| {
          assert SecondCoord(n, all[i]) in init;
          assert SecondCoord(n, all[j]) == b;
        } else if i >= |r0| {
          assert Plane(n, all[i]) == i - |r0| && Plane(n, all[j]) == j - |r0|;
        } else {
          assert Currents(r0)[i] == all[i] && Currents(r0)[j] == all[j];
        }
      }
    }
  }

  /** The sticker centres of one sheet: all on the plane of `face`, with first
      coordinates from `cs` and second from `bs`, pairwise different. */
  lemma {:induction false} SheetShape(n: int, face: int, cs: seq<int>, bs: seq<int>)
    requires IsFaceCoord(n, face)
    requires forall a :: a in cs ==> InRange(n, a)
    requires forall b :: b in bs ==> InRange(n, b)
    requires DistinctInts(cs) && DistinctInts(bs)
    ensures forall i :: 0 <= i < |Sheet(face, cs, bs)| ==>
      var p := Sheet(face, cs, bs)[i].current;
      FaceCoord(n, p) == face && FirstCoord(n, p) in cs && SecondCoord(n, p) in bs
    ensures Distinct(Currents(Sheet(face, cs, bs)))
  {
    if cs != [] {
      var init, a := cs[..|cs| - 1], cs[|cs| - 1];
      assert forall x :: x in init ==> x in cs;
      assert a in cs && a !in init;
      SheetShape(n, face, init, bs);
      RowShape(n, face, a, bs);
      var s0, row := Sheet(face, init, bs), Row(face, a, bs);
      CurrentsAppend(s0, row);
      var all := Currents(s0 + row);
      forall i, j | 0 <= i < j < |all|
        ensures all[i] != all[j]
      {
        if j >= |s0| && i < |s0| {
          assert FirstCoord(n, all[i]) in init;
          assert FirstCoord(n, all[j]) == a;
        } else if i >= |s0| {
          assert Currents(row)[i - |s0|] == all[i] && Currents(row)[j - |s0|] == all[j];
        } else {
          assert Currents(s0)[i] == all[i] && Currents(s0)[j] == all[j];
        }
      }
    }
  }

  /** The sticker centres of the whole shell are pairwise different. */
  lemma {:induction false} ShellShape(n: int, fs: seq<int>, rs: seq<int>)
    requires forall f :: f in fs ==> IsFaceCoord(n, f)
    requires forall r :: r in rs ==> InRange(n, r)
    requires DistinctInts(fs) && DistinctInts(rs)
    ensures forall i :: 0 <= i < |Shell(fs, rs)| ==> FaceCoord(n, Shell(fs, rs)[i].current) in fs
    ensures Distinct(Currents(Shell(fs, rs)))
  {
    if fs != [] {
      var init, f := fs[..|fs| - 1], fs[|fs| - 1];
      assert forall x :: x in init ==> x in fs;
      assert f in fs && f !in init;
      ShellShape(n, init, rs);
      SheetShape(n, f, rs, rs);
      var s0, sheet := Shell(init, rs), Sheet(f, rs, rs);
      CurrentsAppend(s0, sheet);
      var all := Currents(s0 + sheet);
      forall i, j | 0 <= i < j < |all|
        ensures all[i] != all[j]
      {
        if j >= |s0| && i < |s0| {
          assert FaceCoord(n, all[i]) in init;
          assert FaceCoord(n, all[j]) == f;
        } else if i >= |s0| {
          assert Currents(sheet)[i - |s0|] == all[i] && Currents(sheet)[j - |s0|] == all[j];
        } else {
          assert Currents(s0)[i] == all[i] && Currents(s0)[j] == all[j];
        }
      }
    }
  }

  lemma {:induction false} RowHas(face: int, a: int, bs: seq<int>, b: int, t: nat)
    requires b in bs && t < 3
    ensures Place(t, face, a, b) in Currents(Row(face, a, bs))
  {
    var init, last := bs[..|bs| - 1], bs[|bs| - 1];
    var r0, tr := Row(face, a, init), Triple(face, a, last);
    CurrentsAppend(r0, tr);
    if b == last {
      TripleAt(face, a, b, t);
      assert Currents(r0 + tr)[|r0| + t] == Place(t, face, a, b);
    } else {
      assert b in init by {
        assert bs == init + [last];
      }
      RowHas(face, a, init, b, t);
    }
  }

  lemma {:induction false} SheetHas(face: int, cs: seq<int>, bs: seq<int>, a: int, b: int, t: nat)
    requires a in cs && b in bs && t < 3
    ensures Place(t, face, a, b) in Currents(Sheet(face, cs, bs))
  {
    var init, last := cs[..|cs| - 1], cs[|cs| - 1];
    CurrentsAppend(Sheet(face, init, bs), Row(face, last, bs));
    if a == last {
      RowHas(face, a, bs, b, t);
    } else {
      assert a in init by {
        assert cs == init + [last];
      }
      SheetHas(face, init, bs, a, b, t);
    }
  }

  lemma {:induction false} ShellHas(fs: seq<int>, rs: seq<int>, f: int, a: int, b: int, t: nat)
    requires f in fs && a in rs && b in rs && t < 3
    ensures Place(t, f, a, b) in Currents(Shell(fs, rs))
  {
    var init, last := fs[..|fs| - 1], fs[|fs| - 1];
    CurrentsAppend(Shell(init, rs), Sheet(last, rs, rs));
    if f == last {
      SheetHas(f, rs, rs, a, b, t);
    } else {
      assert f in init by {
        assert fs == init + [last];
      }
      ShellHas(init, rs, f, a, b, t);
    }
  }

  /** A solved cube has exactly one sticker on every sticker centre. */
  lemma SolvedCovers(n: nat)
    ensures Covers(n, Solved(n))
  {
    var fs: seq<int> := [-(n as int), n as int];
    var rs := Range(n);
    RangeFacts(n);
    SolvedFacts(n);
    if n > 0 {
      ShellShape(n, fs, rs);
    } else {
      assert Solved(n) == [];
    }
    forall q | OnSurface(n, q)
      ensures q in Currents(Solved(n))
    {
      DecodePlace(n, q);
      ShellHas(fs, rs, FaceCoord(n, q), FirstCoord(n, q), SecondCoord(n, q), Plane(n, q));
    }
  }

  /** Every cube reached from a solved one by movements has exactly one sticker
      on every sticker centre, and its stickers started where a solved cube's do. */
  lemma ReachableCovers(n: nat, ms: seq<Movement>)
    ensures Covers(n, AfterGMoves(Solved(n), CreateGMoves(n, ms)))
    ensures Initials(AfterGMoves(Solved(n), CreateGMoves(n, ms))) == Currents(Solved(n))
  {
    SolvedCovers(n);
    AfterGMovesCovers(n, Solved(n), CreateGMoves(n, ms));
    AfterGMovesInitials(Solved(n), CreateGMoves(n, ms));
    SolvedFacts(n);
  }
}
