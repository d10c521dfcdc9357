# cubedesu geometry model in Dafny

A model of the geometric simulation at the heart of cubedesu, a Rubik's-cube toolkit
written in Rust. The model covers an N x N x N cube whose stickers are pairs of integer
lattice points: where a sticker started (`initial`) and where it is now (`current`).
Pieces are two units long and the cube is centred on the origin. A sticker centre
therefore has one coordinate at +N or -N and the other two among -N+1, -N+3, ..., N-1.

A geometric move (`GMove`) turns every sticker whose current position passes a layer
predicate. It turns them by a number of quarter turns about the X, Y or Z axis, and
`create_gmove` builds that predicate for each of the 18 moves. `GCube` holds the 6·N²
stickers in an array. It can build the solved cube, apply moves in place, and project
the cube onto the 54-entry facelet list of `FaceletModel`. The model also covers the
small `i8` three-vector type of `src/vec3.rs` and the canonical solved facelet layout
of `src/facelet_model.rs`.

Modules:

- `Faces` (faces.dfy): the six faces plus the sentinel `X`, which `get_face` returns
  for a point on no face.
- `Moves` (moves.dfy): the 18 base moves, the three turn amounts and `Movement`.
- `Points` (point3.dfy): lattice points and `rotate_around_axis`, which uses exact
  cosine and sine tables. It is proved equal to repeated signed coordinate
  permutations (`Quarter`).
- `Vectors` (vec3.dfy): `Vec3` over an `I8` newtype. Every operation requires that
  its results fit in `i8`, because Rust panics on overflow in debug builds. The
  in-place `IndexMut`, `AddAssign` and `MulAssign` operations belong to the class
  `MutableVec3`, which holds a three-element array.
- `Facelets` (facelet_model.dfy): `ORDERED_FACES`, `default_facelet` and equality.
- `GeometryModel` (geometry_model.dfy): the model itself.
  - Stickers, selectors and moves.
  - The surface and the solved cube.
  - `get_face`.
  - The reading order and the projection onto facelets.
  - Methods for the loops of `new`, the in-place sort and the class `GCube`.
  - Each method is proved against a specification function.
- `CubeLaws` (cube_laws.dfy): layers selected by each move, turn sequences that
  restore the cube, and the worked single-sticker examples of the tests.
- `CubeInvariants` (cube_invariants.dfy): "the stickers cover the surface exactly
  once". The solved cube has this property and every move along an axis preserves it.
- `FaceletLaws` (facelet_laws.dfy): facts about the facelet projection.
  - The sort is a permutation into reading order.
  - Turning face f to the front and reading the front is reading face f.
  - Every face of a covering cube holds N² stickers.
  - The facelet list is a permutation of the stickers' initial faces.
  - The solved cube projects to the solved layout.
  - For N = 3, every cube reachable by moves projects to a list that holds each face
    exactly nine times; for any other N the projection fails (`FaceletLaws.ReachableFacelet`).

## Model

| member | source | states |
|---|---|---|
| GeometryModel.FromPoint | src/geometry_model.rs:18-20 | no contract of its own; `SolvedFacts` shows every sticker `new` builds with it has `initial == current` |
| GeometryModel.Range | src/geometry_model.rs:84-91 | no contract of its own; `RangeFacts` carries its laws |
| GeometryModel.Solved | src/geometry_model.rs:94-110 | no contract of its own; `SolvedFacts`, `CubeInvariants.SolvedCovers` and `FaceletLaws.SolvedOnFace` carry its laws |
| GeometryModel.AfterGMove | src/geometry_model.rs:147-151 | no contract of its own; `GCube.ApplyGMove` is proved against it, and `CubeInvariants.AfterGMoveCovers` carries its law |
| GeometryModel.AfterGMoves | src/geometry_model.rs:153-157 | no contract of its own; `GCube.ApplyGMoves` is proved against it, and `CubeLaws.AfterGMovesAppend` and `CubeLaws.AfterGMovesKeepsInitials` carry its laws |
| GeometryModel.CreateGMoves | src/geometry_model.rs:140-145 | no contract of its own; `GCube.ApplyMovements` is proved against it, and `CubeInvariants.ReachableCovers` carries its law |
| GeometryModel.FrontTurn | src/geometry_model.rs:213-220 | no contract of its own; `FaceletLaws.FrontStickerTurns`, `FaceletLaws.FrontDepth` and `FaceletLaws.FrontStickerFace` show that it brings each face to the front |
| GeometryModel.Before | src/geometry_model.rs:196-203 | no contract of its own; `FaceletLaws.BeforeIsStrictWeakOrder` shows it is a strict weak order |
| GeometryModel.InsertionSort | src/geometry_model.rs:196-203 | no contract of its own; `SortStickers` is proved against it, and `FaceletLaws.SortPermutes` and `FaceletLaws.SortSorted` carry its laws |
| GeometryModel.FaceletSpec | src/geometry_model.rs:186-231 | no contract of its own; `GCube.ToFaceletModel` is proved against it, and `FaceletLaws.FaceletSlots`, `FaceletLaws.FaceletPermutes`, `FaceletLaws.SolvedFacelet` and `FaceletLaws.ReachableFacelet` carry its laws |
| GeometryModel.ApplyGMoveToSticker | src/geometry_model.rs:22-37 | a move never changes `initial`; a sticker whose `current` the predicate rejects is returned unchanged |
| GeometryModel.ReversedTurns | src/geometry_model.rs:25-29 | the effective turn count is the turn value when clockwise and its negation otherwise; reversing the direction negates it |
| GeometryModel.ApplyTwice | src/geometry_model.rs:22-37 | two moves with the same layer and axis act on a sticker as one rotation by the sum of their turn counts (a turned sticker stays in its layer) |
| GeometryModel.ReverseUndoes | src/geometry_model.rs:22-37 | a move followed by the same move with the direction flipped restores any sticker |
| GeometryModel.RotateOnSurface | src/geometry_model.rs:31 | rotating a sticker centre about any axis by any number of turns gives a sticker centre of the same cube |
| GeometryModel.RangeFacts | src/geometry_model.rs:84-91 | `range()` has exactly N values; value i is -N+1+2i; a value occurs in it iff it is an in-face coordinate |
| GeometryModel.SolvedFacts | src/geometry_model.rs:94-110 | the solved cube has 6·N² stickers, each with `initial == current` and on the surface: one coordinate ±N and the other two from `range()` |
| GeometryModel.CreateGMove | src/geometry_model.rs:113-138 | the move keeps its movement, and its predicate looks only at the coordinate along the move's own axis |
| GeometryModel.FaceOf | src/geometry_model.rs:167-184 | a real face is returned only for a point in that face's plane (coordinate along the face's axis equal to its sign times N); the sentinel `X` is returned iff no coordinate is ±N |
| GeometryModel.FaceletBlocksFail | src/geometry_model.rs:210-228 | once one face's block fails (not nine front stickers), every longer prefix of faces fails too |
| GeometryModel.FaceletBlocksSnoc | src/geometry_model.rs:210-228 | the facelet list of k+1 faces is the list of k faces followed by the block of face k+1 |
| GeometryModel.PushRow | src/geometry_model.rs:102-106 | the inner loop of `new` appends the three stickers for each coord2 of the range, in order |
| GeometryModel.PushSheet | src/geometry_model.rs:101-107 | the middle loop of `new` appends one row for each coord1 of the range |
| GeometryModel.NewStickers | src/geometry_model.rs:94-110 | the three nested loops of `new` produce exactly the solved sticker sequence |
| GeometryModel.InsertLast | src/geometry_model.rs:196-203 | inserting element i of the array moves it left past every element it sorts before, exactly as `InsertTail` does, and leaves the rest of the array alone |
| GeometryModel.SortStickers | src/geometry_model.rs:196-203 | sorting the nine front stickers in place leaves the array equal to `InsertionSort` of its old contents |
| GeometryModel.GCube.constructor | src/geometry_model.rs:94-110 | `GCube::new` gives a fresh array of 6·N² stickers holding the solved cube |
| GeometryModel.GCube.Clone | src/geometry_model.rs:211 | the copy has the same side and the same stickers in a fresh array |
| GeometryModel.GCube.ApplyGMove | src/geometry_model.rs:147-151 | every array slot is replaced in place by the move applied to it; the array length does not change |
| GeometryModel.GCube.ApplyGMoves | src/geometry_model.rs:153-157 | the stickers become the fold of the moves over the old stickers |
| GeometryModel.GCube.ApplyMovement | src/geometry_model.rs:159-161 | the stickers become the old stickers after the move that `create_gmove` builds for the movement |
| GeometryModel.GCube.ApplyMovements | src/geometry_model.rs:163-165 | the stickers become the old stickers after the moves that `create_gmoves` builds |
| GeometryModel.GCube.GetCurrFace | src/geometry_model.rs:233-235 | the face of `current`, which is a real face for every sticker centre |
| GeometryModel.GCube.GetInitialFace | src/geometry_model.rs:237-239 | the face of `initial`, which is a real face for every sticker centre |
| GeometryModel.GCube.FrontStickers | src/geometry_model.rs:211-225 | a cloned cube turned so that the face is at the front, filtered to the stickers now on F |
| GeometryModel.GCube.SetFace | src/geometry_model.rs:190-208 | the nine slots from `index` receive the initial faces of the sorted stickers; every other slot is unchanged |
| GeometryModel.GCube.ReadFace | src/geometry_model.rs:210-228 | one iteration of the face loop: it succeeds iff face k's front holds nine stickers; on success the array holds the facelet blocks of the first k+1 faces and the later slots are unchanged; on failure the projection fails and the array is unchanged |
| GeometryModel.GCube.ToFaceletModel | src/geometry_model.rs:186-231 | the method returns exactly the projection `FaceletSpec`, with `None` where the source panics |
| CubeLaws.AfterGMovesAppend | src/geometry_model.rs:153-157 | applying two batches of moves is applying their concatenation |
| CubeLaws.AfterGMovesKeepsInitials | src/geometry_model.rs:147-157 | moves never change the number of stickers or any sticker's `initial` |
| CubeLaws.UndoPair | src/geometry_model.rs:113-138 | a move and the same move with the undoing turn have the same axis and layer, and their turn counts cancel modulo 4 |
| CubeLaws.StickerRestored | src/geometry_model.rs:22-37 | two moves on one layer whose turn counts cancel modulo 4 restore any sticker |
| CubeLaws.MovementUndone | src/geometry_model.rs:328-333 | on any cube of any size, a movement followed by the movement with the undoing turn restores every sticker |
| CubeLaws.TestCycleRestores | src/geometry_model.rs:327-340 | single, inverse, double, double of one move restores any cube |
| CubeLaws.TestCyclesRestore | src/geometry_model.rs:327-340 | the test cycles of any list of moves restore any cube |
| CubeLaws.GCubeTest | src/geometry_model.rs:325-342 | `gcube_test`: the solved 3-cube put through the test cycle of every move equals the solved 3-cube |
| CubeLaws.TwoSinglesMakeDouble | src/geometry_model.rs:113-138 | two single turns of a move are its double turn, on any cube |
| CubeLaws.FourSinglesRestore | src/geometry_model.rs:113-138 | four single turns of any move restore any cube |
| CubeLaws.CreateGMoveDirection | src/geometry_model.rs:113-138 | every move turns about its own axis; it is clockwise iff it follows U, R, F, S or a rotation |
| CubeLaws.FaceMoveLayer | src/geometry_model.rs:117-128 | for N ≥ 2, a face move selects exactly the surface stickers whose signed coordinate along its axis is at least N-1 (threshold N-2) |
| CubeLaws.WideMoveLayers | src/geometry_model.rs:118-128 | for N ≥ 3, a wide move selects exactly the surface stickers whose signed coordinate is at least N-3 (threshold N-4) |
| CubeLaws.SliceMoveLayer | src/geometry_model.rs:130-132 | a slice selects exactly the stickers with coordinate 0 along its axis, so it selects none on a cube of even side |
| CubeLaws.RotationSelectsAll | src/geometry_model.rs:134-136 | a whole-cube rotation selects every sticker |
| CubeLaws.CoordOnSurface | src/geometry_model.rs:94-108 | every coordinate of a sticker centre is ±N or an in-face coordinate |
| CubeLaws.WideUExamples | src/geometry_model.rs:353-371 | wide U clockwise sends (3,2,0) to (0,2,3), and fixes (0,-2,3) and (0,3,0) |
| CubeLaws.WideR2Examples | src/geometry_model.rs:356-387 | wide R double sends (3,2,0) to (3,-2,0), (0,3,0) to (0,-3,0) and (0,-2,3) to (0,2,-3) |
| CubeLaws.WideLExamples | src/geometry_model.rs:359-400 | wide L counter-clockwise fixes (3,2,0), and sends (0,3,0) to (0,0,3) and (0,-2,3) to (0,-3,-2) |
| CubeInvariants.SelectsAlongCoord | src/geometry_model.rs:113-138 | a predicate on one axis gives the same answer for two points that agree on that axis |
| CubeInvariants.RotateInjective | src/geometry_model.rs:31 | a rotation maps distinct points to distinct points |
| CubeInvariants.AfterGMoveCovers | src/geometry_model.rs:147-151 | a move along its own axis keeps the stickers on the surface, pairwise apart, and covering every sticker centre |
| CubeInvariants.AfterGMovesCovers | src/geometry_model.rs:153-157 | any sequence of such moves keeps that covering |
| CubeInvariants.AfterGMovesInitials | src/geometry_model.rs:147-157 | the list of initial positions never changes under moves |
| CubeInvariants.DecodePlace | src/geometry_model.rs:98-105 | every sticker centre is the point `new` pushes for some face coordinate, plane and pair of range values |
| CubeInvariants.RowShape | src/geometry_model.rs:102-106 | the stickers of one inner loop have pairwise different centres, each with the row's face coordinate, the row's first in-face coordinate and a second in-face coordinate from the loop's list |
| CubeInvariants.SheetShape | src/geometry_model.rs:101-107 | the stickers of one middle loop are pairwise apart |
| CubeInvariants.ShellShape | src/geometry_model.rs:98-108 | the stickers of the whole of `new` are pairwise apart |
| CubeInvariants.ShellHas | src/geometry_model.rs:98-108 | every point with a face coordinate and two range values is pushed by `new` |
| CubeInvariants.SolvedCovers | src/geometry_model.rs:94-110 | the solved cube covers every sticker centre exactly once |
| CubeInvariants.ReachableCovers | src/geometry_model.rs:159-165 | a solved cube after any movements still covers the surface exactly once, with the same initial positions |
| FaceletLaws.BeforeIsStrictWeakOrder | src/geometry_model.rs:196-203 | the comparator is irreflexive, asymmetric and transitive, and so is incomparability |
| FaceletLaws.InsertTailPermutes | src/geometry_model.rs:196-203 | inserting an element adds exactly that element to the multiset |
| FaceletLaws.InsertTailSorted | src/geometry_model.rs:196-203 | inserting into a list in reading order gives a list in reading order |
| FaceletLaws.SortPermutes | src/geometry_model.rs:196-203 | the sort is a permutation of its input |
| FaceletLaws.SortSorted | src/geometry_model.rs:196-203 | the sorted stickers are in reading order: higher `current.y` first, then smaller `current.x` |
| FaceletLaws.SortKeepsFaces | src/geometry_model.rs:196-207 | sorting does not change the multiset of initial faces written |
| FaceletLaws.FaceOfOnSurface | src/geometry_model.rs:167-184 | on the surface, `get_face` names f iff the coordinate along f's axis is f's sign times N |
| FaceletLaws.FrontStickerTurns | src/geometry_model.rs:213-220 | the turn for each face is a rotation about X (U, D) or Y (R, L, B) by -1, 1, 1, -1 or 2 quarter turns |
| FaceletLaws.FrontDepth | src/geometry_model.rs:213-220 | after the turn for face f, the z coordinate is f's sign times the coordinate along f's axis, so face f lands on z = N |
| FaceletLaws.FrontStickerFace | src/geometry_model.rs:213-224 | after the turn, a sticker is on F iff it was on f; it stays on the surface and keeps `initial` |
| FaceletLaws.OnFrontIsOnFace | src/geometry_model.rs:221-225 | the front filter is the filter for face F |
| FaceletLaws.OnFrontAfterGMove | src/geometry_model.rs:213-225 | when a move sends exactly the stickers of f to the front, filtering after the move is moving the stickers filtered for f |
| FaceletLaws.FrontViewReadsFace | src/geometry_model.rs:210-225 | the front stickers of the turned copy are exactly the stickers of face f, turned, in array order |
| FaceletLaws.InitialFacesFront | src/geometry_model.rs:211-220 | turning the copy does not change any initial face |
| FaceletLaws.OnFaceCount | src/geometry_model.rs:221-225 | with distinct positions, the number of stickers on a face is the number of distinct positions on it |
| FaceletLaws.SameFaceCount | src/geometry_model.rs:221-225 | two cubes that cover the surface have the same number of stickers on every face |
| FaceletLaws.SheetOnFace | src/geometry_model.rs:98-107 | one sheet of `new` puts one sticker per pair of its two in-face coordinates on face f when its face coordinate hits f, and none otherwise |
| FaceletLaws.SolvedOnFace | src/geometry_model.rs:94-110 | the solved N-cube has exactly N² stickers on every face |
| FaceletLaws.CoveredOnFace | src/geometry_model.rs:221-227 | every cube that covers the surface has exactly N² stickers on every face (`FaceBlockCovered` then shows that the `unwrap` to nine stickers succeeds iff N = 3) |
| FaceletLaws.FaceBlockOrder | src/geometry_model.rs:196-207 | the block of a face is the initial faces of its front stickers in reading order, nine of them |
| FaceletLaws.FaceletBlocksSlots | src/geometry_model.rs:204-228 | slot i of the list holds the initial face of front sticker i mod 9 of face `ORDERED_FACES[i / 9]` |
| FaceletLaws.FaceletSlots | src/geometry_model.rs:186-231 | `to_facelet_model` fills slot 9k + r with the initial face of the r-th front sticker, in reading order, after face k is turned to the front; 54 slots in all |
| FaceletLaws.NineStickers | src/facelet_model.rs:4 | N² = 9 iff N = 3 |
| FaceletLaws.FaceBlockCovered | src/geometry_model.rs:221-228 | on a covering cube a face's block exists iff N = 3, and it holds the initial faces of the stickers on that face |
| FaceletLaws.FacesOnPartition | src/geometry_model.rs:210-228 | the six faces partition the stickers: their blocks together hold each sticker's initial face once |
| FaceletLaws.FaceletBlocksCovered | src/geometry_model.rs:210-228 | on a covering cube, the blocks of the first k faces exist iff N = 3 or k = 0, and together hold the initial faces of those faces' stickers |
| FaceletLaws.FaceletPermutes | src/geometry_model.rs:186-231 | on a covering cube the projection succeeds iff N = 3, and the facelet list is a permutation of the initial faces of all stickers |
| FaceletLaws.SolvedFaceBlock | src/geometry_model.rs:210-228 | every face of the solved 3-cube reads as nine copies of that face |
| FaceletLaws.UniformFaceletBlocks | src/geometry_model.rs:210-228 | when every face reads as nine copies of itself, the list is the blocks of `ORDERED_FACES` |
| FaceletLaws.SolvedFacelet | src/geometry_model.rs:186-231 | the solved cube projects to `default_facelet` when N = 3, and the projection fails for any other N |
| FaceletLaws.ReachableInitialFaces | src/geometry_model.rs:159-165 | movements never change the list of initial faces |
| FaceletLaws.ReachableFacelet | src/geometry_model.rs:186-231 | after any movements from solved, the projection succeeds iff N = 3 and then holds each real face exactly nine times and the sentinel never |
| Points.RotateAroundAxis | src/geometry_model.rs:31 | no contract of its own; `RotateIsQuarters` ties it to the reference `Quarters`, and `RotateCompose`, `RotateInverse`, `RotatePeriodic`, `RotateKeepsAxisCoord` and `RotateOneTurn` carry its laws |
| Points.QuartersAdd | src/geometry_model.rs:31 | i quarter turns followed by j quarter turns are i + j quarter turns |
| Points.QuartersMod4 | src/geometry_model.rs:31 | quarter turns repeat with period 4 |
| Points.MatrixTurnIsQuarters | src/geometry_model.rs:31 | the cosine/sine rotation matrix for k counter-clockwise quarter turns is (4 - k) mod 4 clockwise quarter turns |
| Points.RotateIsQuarters | src/geometry_model.rs:31 | `rotate_around_axis` by t turns is t mod 4 clockwise quarter turns |
| Points.RotateSameMod | src/geometry_model.rs:31 | turn counts that agree modulo 4 give the same rotation |
| Points.RotateCompose | src/geometry_model.rs:31 | rotations about one axis compose by adding their turn counts |
| Points.RotateInverse | src/geometry_model.rs:31 | rotating by t then by -t is the identity |
| Points.RotatePeriodic | src/geometry_model.rs:31 | adding four turns does not change a rotation |
| Points.RotateKeepsAxisCoord | src/geometry_model.rs:31 | a rotation never changes the coordinate along its own axis |
| Points.RotateOneTurn | src/geometry_model.rs:353-400 | one clockwise turn is the signed permutation `Quarter` that the tests pin: about Y (x,y,z) goes to (-z,y,x) |
| Vectors.New | src/vec3.rs:11-13 | component 0, 1 and 2 are x, y and z |
| Vectors.Zero | src/vec3.rs:15-17 | every component is 0 |
| Vectors.WithComponent | src/vec3.rs:62-66 | writing component i sets it and leaves the other two unchanged |
| Vectors.Neg | src/vec3.rs:48-53 | each component is negated |
| Vectors.Sub | src/vec3.rs:93-98 | subtraction, defined as adding the negation, is the componentwise difference |
| Vectors.Add | src/vec3.rs:86-91 | each component of the sum is the exact sum of the components (the requires rule out `i8` overflow) |
| Vectors.Mul | src/vec3.rs:100-105 | each component of the product is the exact product of the components |
| Vectors.Scale | src/vec3.rs:107-112 | `v * s` multiplies each component by `s` |
| Vectors.ScaleLeft | src/vec3.rs:114-119 | `s * v` has each component equal to `s` times that component of `v` |
| Vectors.ScaleLeftIsScale | src/vec3.rs:114-119 | `s * v == v * s` |
| Vectors.Index | src/vec3.rs:55-60 | no contract of its own; `New`, `Zero`, `WithComponent` and `MutableVec3.Get` state components through it |
| Vectors.Dot | src/vec3.rs:35-37 | no contract of its own; `DotCommutes` and `LengthSquared` carry its laws (commutative, and `dot(v, v)` is the non-negative sum of squares) |
| Vectors.Cross | src/vec3.rs:39-45 | no contract of its own; `CrossComponents` and `CrossAntiCommutes` carry its laws |
| Vectors.LengthSquared | src/vec3.rs:31-33 | `length_squared` is `dot(v, v)`, the non-negative sum of squared components |
| Vectors.NegInvolution | src/vec3.rs:178-181 | `--v == v` |
| Vectors.AddComponentwise | src/vec3.rs:86-91 | component i of a sum is the sum of the components i |
| Vectors.AddCommutes | src/vec3.rs:202-205 | addition commutes |
| Vectors.AddAssociates | src/vec3.rs:212-215 | addition associates whenever the partial sums fit |
| Vectors.AddZeroIdentity | src/vec3.rs:207-210 | `v + zero == v` |
| Vectors.SubZeroIdentity | src/vec3.rs:223-226 | `v - zero == v` |
| Vectors.MulCommutes | src/vec3.rs:234-237 | the componentwise product commutes |
| Vectors.MulOneIdentity | src/vec3.rs:239-242 | `v * (1,1,1) == v` |
| Vectors.MulZeroAnnihilates | src/vec3.rs:244-247 | `v * zero == zero` |
| Vectors.MulAssociates | src/vec3.rs:249-252 | the componentwise product associates whenever the products fit |
| Vectors.MulDistributesOverAdd | src/vec3.rs:254-257 | `v1 * (v2 + v3) == v1 * v2 + v1 * v3` |
| Vectors.ScaleOneIdentity | src/vec3.rs:265-268 | `v * 1 == v` |
| Vectors.ScaleZeroAnnihilates | src/vec3.rs:270-273 | `v * 0 == zero` |
| Vectors.ScaleMulAssociates | src/vec3.rs:275-278 | `(v1 * s) * v2 == v1 * (s * v2)` |
| Vectors.DotCommutes | src/vec3.rs:298-301 | the dot product commutes |
| Vectors.CrossComponents | src/vec3.rs:39-45 | `cross` is (y1z2 - z1y2, z1x2 - x1z2, x1y2 - y1x2) |
| Vectors.CrossAntiCommutes | src/vec3.rs:39-45 | `cross(a, b) == -cross(b, a)` |
| Vectors.MutableVec3.constructor | src/vec3.rs:8 | a fresh three-element array holding the vector |
| Vectors.MutableVec3.Get | src/vec3.rs:55-60 | `v[i]` reads component i |
| Vectors.MutableVec3.SetComponent | src/vec3.rs:62-66 | `v[i] = c` in place changes component i only |
| Vectors.MutableVec3.AddAssign | src/vec3.rs:68-72 | `v += w` in place leaves `v + w` in the receiver |
| Vectors.MutableVec3.MulAssign | src/vec3.rs:74-78 | `v *= s` in place leaves `v * s` in the receiver |
| Facelets.SolvedLayout | src/facelet_model.rs:11-19 | no contract of its own; `SolvedLayoutBlocks`, `SolvedLayoutLiteral` and `SolvedLayoutCounts` carry its laws |
| Facelets.OrderedFacesFacts | src/facelet_model.rs:3-5 | `ORDERED_FACES` holds the six real faces, each once, and `TOTAL_STICKERS` is 54 |
| Facelets.BlocksAt | src/facelet_model.rs:13-16 | the flattened blocks have 9 entries per face, and entry i is face i / 9 |
| Facelets.SolvedLayoutBlocks | src/facelet_model.rs:11-19 | the solved layout has 54 entries, and block k consists entirely of `ORDERED_FACES[k]` |
| Facelets.SolvedLayoutLiteral | src/facelet_model.rs:32-40 | the solved layout is the literal U×9, R×9, F×9, D×9, L×9, B×9 |
| Facelets.BlocksCount | src/facelet_model.rs:13-16 | a face occurs in the flattened blocks nine times as often as in the face list |
| Facelets.SolvedLayoutCounts | src/facelet_model.rs:13-16 | every real face occurs exactly nine times in the solved layout, the sentinel never |
| Facelets.DefaultFacelet | src/facelet_model.rs:11-19 | `default_facelet` fills a 54-entry array from the flattened blocks and returns the solved layout |
| Facelets.SameFaces | src/facelet_model.rs:22-26 | the element-wise comparison answers true iff the two lists are equal |
| Facelets.Equal | src/facelet_model.rs:22-26 | two facelet models are equal iff their face lists are equal |
| Facelets.EqualIsEquivalence | src/facelet_model.rs:22-26 | facelet equality is reflexive, symmetric and transitive |

## Left out

- Not part of this model: `Point3`, `Axis`, `Move`, `Movement`, `Turn`,
  `Point3::rotate_around_axis` and the crate constants that `src/geometry_model.rs`
  imports. They are defined here from how the geometry uses them. The rotation uses
  exact cosine/sine tables, and its direction is the one fixed by the expectations at
  src/geometry_model.rs:353-400: clockwise about Y sends (3,2,0) to (0,2,3).
- `Face` in src/lib.rs:5-12 lacks the sentinel that src/geometry_model.rs:182 returns.
  The model's `Face` adds `X` as a seventh value.
- The text-notation parser `scramble_to_movements` and the Roux-solution regression
  test (src/geometry_model.rs:259-322). The parser is not part of this model, and the
  test depends on it. `CubeLaws.GCubeTest` covers `gcube_test`, which needs no parser.
- src/main.rs: SVG drawing, colours and file output.
- `Display` for `Vec3` and the proptest generators: formatting and test scaffolding.
- GCube: the side N is a const generic in the source; here it is the field `n`.
  `Valid()` states the array length `6·N²` that the source's array type fixes.
- GCube.ToFaceletModel: the source panics when the front face does not hold nine
  stickers. The model returns `None`, and `FaceletLaws` proves that on every reachable
  cube this happens iff N ≠ 3.
- GCube.SetFace: `sort_by` is modelled as one particular sort, insertion sort inserting
  from the left. Any correct sort gives the same result when no two keys are equal.
  `FaceletLaws.SortPermutes` and `FaceletLaws.SortSorted` prove that the model's sort
  is a permutation into reading order. Their contracts do not state stability. Equal
  positions never occur on a covering cube, by the distinctness part of
  `CubeInvariants.Covers`.
- Point coordinates are unbounded integers rather than `i16`. The coordinates of an
  N-cube are bounded by N, so overflow is not modelled.
- Vectors: `i8` overflow panics in Rust. Each operation instead requires that its
  results fit in `i8`, and the laws carry the same requirements as the ranges of the
  property tests. Out-of-bounds indexing panics; `Index` and `MutableVec3.Get` require
  an index below 3.
- Vectors.MutableVec3.constructor: Rust's `Vec3` is a value type whose array is
  updated in place. The class holds that array, so aliasing between copies is not part
  of the model.
- GeometryModel.ApplyGMoveToSticker: the source's `GMove` carries an arbitrary
  `fn(Point3) -> bool`. The model's `Selector` allows only four shapes: `AtLeast`,
  `AtMost` and `Exactly` bound one coordinate, and `Everything` accepts every point.
  These cover every predicate `create_gmove` and the tests build. The contract of
  `ApplyGMoveToSticker` does not depend on the shape. The undo and covering laws
  (`ApplyTwice`, `CubeLaws.StickerRestored`, `CubeInvariants.AfterGMoveCovers`) need
  `SelectsAlong`: the predicate looks only at the coordinate along the move's axis.
