/**
 * The part of a game piece that placement looks at: a 3x3 block pattern and
 * the piece's value. A cell of the pattern belongs to the shape when it holds
 * the value. The piece catalogue itself (shapes, rotation) is not part of
 * this model.
 */
module GamePieces {

  /** `GamePiece.PIECES`: the number of pieces in the catalogue. */
  const PIECES: int := 15

  datatype Piece = Piece(blocks: seq<seq<int>>, value: int)

  /** A piece whose pattern is 3 columns of 3 cells, as every catalogue piece is. */
  type GamePiece = p: Piece | |p.blocks| == 3 && forall i | 0 <= i < 3 :: |p.blocks[i]| == 3
    witness Piece([[0, 0, 0], [0, 0, 0], [0, 0, 0]], 1)

  /** Pattern cell (i, j) is part of the shape. */
  predicate IsBlock(p: GamePiece, i: int, j: int) {
    0 <= i < 3 && 0 <= j < 3 && p.blocks[i][j] == p.value
  }
}
