/** Move notation: the 18 base moves, the three turn amounts and their pair. */
module Moves {

  /** Face turns, their wide variants, the three slices and the three whole-cube rotations. */
  datatype Move =
    | U | L | F | R | B | D
    | Uw | Lw | Fw | Rw | Bw | Dw
    | E | M | S
    | X | Y | Z

  datatype Turn = Single | Double | Inverse

  datatype Movement = Movement(base: Move, turn: Turn)

  /** The number of clockwise quarter turns a `Turn` stands for (`turn as i16`). */
  function TurnValue(t: Turn): (v: int)
    ensures -1 <= v <= 2 && v != 0
  {
    match t
    case Single => 1
    case Double => 2
    case Inverse => -1
  }

  /** Every move, in declaration order. */
  const AllMoves: seq<Move> :=
    [Move.U, Move.L, Move.F, Move.R, Move.B, Move.D,
     Move.Uw, Move.Lw, Move.Fw, Move.Rw, Move.Bw, Move.Dw,
     Move.E, Move.M, Move.S,
     Move.X, Move.Y, Move.Z]
}
