/** Entities of the three-player chess rules engine: coordinates, fields,
    pieces, players and the board value the click handler updates. */
module Types {

  /** The conventional Some/None wrapper, used where the engine returns an
      optional field or piece. */
  datatype Option<+T> = None | Some(value: T)

  /** Files are letters; a file is stored as its distance from 'a', so
      'a' is 0, 'e' is 4, 'i' is 8 and 'l' is 11. A letter below 'a' is
      negative. */
  const FileA: int := 0
  const FileD: int := 3
  const FileE: int := 4
  const FileH: int := 7
  const FileI: int := 8
  const FileL: int := 11

  /** The character code of 'a'; letters are added in `u8` arithmetic. */
  const CodeA: int := 97

  /** A (file, rank) pair; the rank is an unsigned machine integer. */
  datatype Coord = Coord(file: int, rank: nat)

  /** The colour of a field. */
  datatype FieldType = White | Black

  datatype Player = Red | Green | Yellow

  datatype PieceType = Pawn | Rook | Knight | Bishop | Queen | King

  datatype Piece = Piece(typ: PieceType, player: Player)

  /** A field: its coordinate, its colour and the piece standing on it. */
  datatype Field = Field(coord: Coord, typ: FieldType, piece: Option<Piece>)

  /** The board: the 96 fields in section order, the player to move and the
      field whose piece is selected, if any (a copy taken when selected). */
  datatype Board = Board(fields: seq<Field>, current: Player, active: Option<Field>)
}
