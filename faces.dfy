/** The six outer faces of the cube, plus the sentinel `X` that the geometry
    uses for a point that lies on no outer face. */
module Faces {

  datatype Face = U | L | F | R | B | D | X

  /** The six real faces. */
  predicate IsRealFace(f: Face) {
    f != Face.X
  }
}
