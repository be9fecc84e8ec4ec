# threechess rules core, early version

A Dafny model of the rules core of `src/main.rs` in an early version of
threechess, a three-player chess program. The board has 96 fields in six
4×4 sections. The model covers:

- the coordinate and section topology (`Section::new`, `Board::new`,
  `get_fields`, `get_section_and_field`, `get_field`, `cadd`);
- the two directions this version defines (`Direction::next`:
  ForwardRed and ForwardYellow);
- the two implemented arms of `Field::get_possible_moves` (rook and queen);
- the initial placement (`place_pieces_half`, `place_pieces`);
- the left-click branch of the main loop, as a pure transition on the
  board.

The finished engine is designed around 21 directions, a check-aware
legality filter and turn rotation with mate flags. None of these exist in
this version of the code, and the model follows the code:

- there are two directions;
- pawn, knight, bishop and king moves are `todo!()`;
- `place_pieces_half` returns right after placing its first rook, so
  each call places one rook;
- a click moves the selected piece to any clicked field, even onto an own
  piece or back onto itself. Clicking the selected field again deletes
  the piece;
- the player to move never changes.

Representation choices:

- Files are integers counted from `'a'` (a = 0 … l = 11). Ranks are
  natural numbers, like the `usize` of the source.
- The board is stored flat, in the order `get_fields` produces:
  section by section, then row by row, then column by column.
  `get_section_and_field` rebuilds the section copy it returns from the
  16 fields of that section and the section's anchor.
- Every board the program builds has the standard layout
  (`Topology.StandardLayout`): field `k` sits at `LayoutCoord(k)`.
  Later steps change only pieces.
- An `unwrap` that could panic becomes an `Option` result, where None
  stands for the panic. For the placement the lemmas show that the panic
  never happens on standard-layout boards. For the click it never happens
  on `Click.Consistent` boards, which the initial position is; a
  selection whose coordinate no field has would make it panic. The one
  exception is `self.piece.unwrap()` in `get_possible_moves`
  (src/main.rs:121): `Moves.GetPossibleMoves` requires a piece instead.

Modules, one per file: `Types` (types.dfy), `Topology` (topology.dfy),
`Directions` (directions.dfy), `Moves` (moves.dfy), `Placement`
(placement.dfy), `Click` (click.dfy).

## Model

| member | source | states |
|---|---|---|
| Topology.SectionNew | src/main.rs:182-216 | The section is 4×4 and anchored at (f, r). Field [i][j] has coordinate (f+i, r+j) and no piece. It is dark (tp2) exactly when i+j is even, and dark and light swap when `inverse_colors` is set. |
| Topology.SectionColoursAlternate | src/main.rs:182-216 | Neighbouring fields of a section, along a file or along a rank, always have different colours. |
| Topology.GetFields | src/main.rs:305-311 | Flattening gives 16 fields per section. |
| Topology.GetFieldsIndex | src/main.rs:305-311 | Field k of the flattened board is row (k%16)/4, column k%4 of section k/16. |
| Topology.BoardSectionsAt | src/main.rs:283-297 | The six sections of `Board::new` are the blocks at a1, e1, e9, i9, i5 and a5, in that order. Only i9 has inverted colours. |
| Topology.BoardNew | src/main.rs:283-303 | The new board has the standard layout of 96 fields. Every field is empty, Red is to move and nothing is selected. Each field's colour follows its row and column in its section, inverted in section i9. |
| Topology.LayoutIsExactlyTheValidCoordinates | src/main.rs:283-297 | The 96 layout coordinates are pairwise distinct. A coordinate is valid (files a-d ranks 1-8, e-h ranks 1-4 and 9-12, i-l ranks 5-12) exactly when it occurs in the layout. |
| Topology.BoardNewCoordinates | src/main.rs:283-303 | `Board::new` has 96 fields with pairwise distinct coordinates, and these are exactly the valid ones. |
| Topology.LayoutCoordOnBoard | src/main.rs:283-297 | Every layout coordinate is valid, and mapping it back gives its index. The layout is a bijection between indices 0-95 and the valid coordinates. |
| Topology.FindFrom | src/main.rs:313-327 | The scan from position i returns the first index at or after i whose field has the coordinate. It returns None only when no field from i on has it. |
| Topology.FindIndex | src/main.rs:313-327 | The lookup returns the first field in board order with the coordinate. None means no field has it. |
| Topology.FindIndexIgnoresPieces | src/main.rs:313-327 | Two boards with the same coordinates give the same lookup result, whatever pieces stand on them. |
| Topology.FindIndexOnLayout | src/main.rs:313-327 | On the standard layout the lookup succeeds exactly for valid coordinates, at the index the layout gives them. |
| Topology.GetSectionAndField | src/main.rs:313-327 | The result is Some exactly when some field has the coordinate, and the field it returns has that coordinate. On the standard layout, the section copy holds that field at the position given by the offset from the section's anchor. |
| Topology.GetSectionAndFieldFindsSection | src/main.rs:313-327 | Suppose the board is the flattening of six well-shaped sections at the `Board::new` anchors. Then the lookup of a valid coordinate returns the section that contains it, together with the field at its layout index. |
| Topology.GetField | src/main.rs:329-331 | The result is Some exactly when some field has the coordinate. The field returned carries that coordinate and is a field of the board. |
| Topology.GetFieldOnLayout | src/main.rs:329-331 | On the standard layout `get_field` succeeds exactly on valid coordinates and returns the field the layout puts there. |
| Directions.Target | src/main.rs:56-101 | A step never changes the file. |
| Directions.Next | src/main.rs:55-108 | A returned field is a field of the board, at the coordinate the direction's formula gives. When the formula gives a coordinate but the result is None, no field of the board has that coordinate. |
| Directions.ForwardRedOnBoard | src/main.rs:57-74 | From a valid field, ForwardRed gives up exactly on files i-l and at ranks 8 and 12. Otherwise it moves one rank up, except that rank 4 of files e-h jumps to rank 9. The target is always a valid field. |
| Directions.ForwardYellowOnBoard | src/main.rs:75-101 | From a valid field, ForwardYellow gives up exactly on files a-d and at ranks 1 and 8. Rank 9 goes to 5 on files i-l and to 4 on files e-h. Ranks above 9 and ranks 2-4 go down one, and ranks 5-7 go up one. The target is always valid. |
| Directions.ForwardYellowUndoesForwardRed | src/main.rs:57-101 | On files e-h each direction undoes the other: stepping one way and then the other returns to the start. |
| Directions.TargetFollowsColumn | src/main.rs:56-101 | Each direction steps to the next rank of an independently listed walk of the file, and has no step from the walk's last rank. |
| Directions.ColumnCoversFile | src/main.rs:56-101 | The listed walk of a file visits every valid rank of that file. |
| Directions.NextOnLayout | src/main.rs:55-108 | On the standard layout, `next` from a valid field finds a field exactly when the formula applies. The field it finds is the one at the target coordinate. |
| Moves.StepDecreases | src/main.rs:131-147 | Each step of the rook loop lowers a measure, so every ray terminates. |
| Moves.Ray | src/main.rs:129-147 | Every coordinate of a ray is a valid field. None of them holds a piece of the rook's owner. |
| Moves.RayIsTruncatedWalk | src/main.rs:129-147 | A ray is the direction's walk cut at the first occupied field. That field is kept exactly when it holds an enemy piece. |
| Moves.EmptyBoardRay | src/main.rs:129-147 | On a board without pieces a ray is the whole walk. |
| Moves.WalkFollowsColumn | src/main.rs:129-147 | From a valid field, the walk visits the rest of the direction's column in order and nothing else. |
| Moves.RookMoves | src/main.rs:129-150 | The rook's moves are the red-forward walk cut at the first occupied field, followed by the yellow-forward walk cut the same way. An occupied field ends the ray and is kept only when it holds an enemy piece. Every move is a valid field without an own piece. |
| Moves.QueenMoves | src/main.rs:154-159 | A coordinate is a queen move exactly when some field of the board has it and it shares the queen's file or rank. The queen's own field is included, and pieces are not consulted. |
| Moves.QueenIgnoresPieces | src/main.rs:154-159 | The queen's moves depend only on the fields' coordinates, not on what stands on them. |
| Moves.QueenIncludesOwnField | src/main.rs:154-159 | On the standard layout the queen's own field is among its moves. |
| Moves.QueenAppend | src/main.rs:154-159 | The queen filter distributes over concatenation of field lists. |
| Moves.QueenMoveCount | src/main.rs:154-159 | On the standard layout a queen on a valid field always gets exactly 15 moves: its own field, seven more on its file and seven more on its rank. |
| Moves.GetPossibleMoves | src/main.rs:120-162 | For a rook, the moves are the two walks, each cut at its first occupied field, which is kept only for an enemy piece; every move is a valid field without an own piece. For a queen, the moves are exactly the board's coordinates on its file or rank. |
| Placement.SetPiece | src/main.rs:354-359 | `get_field(..).unwrap().piece = p` succeeds exactly when some field has the coordinate. |
| Placement.SetPieceChangesOneField | src/main.rs:354-359 | A successful write puts `p` into the first field with the coordinate. Nothing else changes: not other fields, coordinates, colours, the player to move or the selection. |
| Placement.SetPieceOnLayout | src/main.rs:354-359 | On the standard layout, writing to a valid coordinate succeeds, changes only the field at that coordinate's index and keeps the layout. |
| Placement.PlacePiecesHalf | src/main.rs:346-385 | One call succeeds exactly when some field has the target coordinate: the corner file of the half (`invf`, flipped for the right half) on the rank next to `rank`. On success, the first field with that coordinate gets a rook of the half's player, and nothing else changes. |
| Placement.PlacePieces | src/main.rs:387-396 | On a standard-layout board `place_pieces` never panics. It keeps the layout, the player to move and the selection, and it adds exactly a rook on a2 and h2 (Red), l7 and a7 (Green), and h11 and l11 (Yellow). |
| Placement.PlaceAllOnLayout | src/main.rs:387-396 | A sequence of `place_pieces_half` calls whose targets are valid never panics on a standard-layout board. Each call writes its rook at its target's index, and the layout is kept. |
| Placement.PlacementTargets | src/main.rs:346-396 | Every `place_pieces_half` call in `place_pieces` is well formed: no `rank - 1` underflow and no `u8` overflow in `cadd`. The six calls aim at a2, h2, l7, a7, h11 and l11. |
| Placement.InitialRookIndex | src/main.rs:346-396 | Through the layout, the coordinates that receive the six rooks are exactly layout indices 1, 29, 78, 82, 46 and 62. |
| Placement.RooksAt | src/main.rs:387-396 | After the six writes, every field is unchanged except for a rook of the right player on each of the six target fields. |
| Placement.PlacePiecesOnLayout | src/main.rs:346-396 | On any standard-layout board every `unwrap` of `place_pieces` succeeds. The result keeps the layout, the player to move and the selection. It differs from the input exactly by a rook on a2 and h2 (Red), l7 and a7 (Green), and h11 and l11 (Yellow). |
| Placement.PlacePiecesOnEmpty | src/main.rs:346-396 | Placing the pieces on an empty standard-layout board leaves exactly those six rooks and no other piece. |
| Placement.InitialPosition | src/main.rs:646-649 | `Board::new` followed by `place_pieces` keeps the standard layout and has Red to move with nothing selected. It holds exactly six pieces, all rooks, on the six initial fields. |
| Click.LeftClick | src/main.rs:507-522 | A click panics (None) exactly when a selection exists and no field has its coordinate. Otherwise the player to move is unchanged, and every field keeps its coordinate and colour. |
| Click.ClickOutside | src/main.rs:494-507 | A click that hits no field changes nothing. |
| Click.ClickSelects | src/main.rs:508-514 | With nothing selected, a click never changes a field. It selects the clicked field exactly when that field holds a piece of the player to move, and the selection is then that field. |
| Click.ClickMoves | src/main.rs:514-521 | With a selection on a consistent board, the selected field is emptied and, if it is another field, the clicked field receives the selected piece. The selection is cleared, no other field changes and the player to move stays the same. |
| Click.ReclickDeletes | src/main.rs:514-521 | Clicking the selected field again removes its piece from the board. |
| Click.StaleSelectionPanics | src/main.rs:514-518 | On a standard-layout board, a selection whose coordinate is not on the board makes any click on a field panic at the `unwrap`. |
| Click.ClickPreservesConsistency | src/main.rs:507-522 | Every click on a consistent board succeeds and leaves it consistent. Consistent means standard layout, and a selection is the board's own field holding a piece of the player to move. |
| Click.CountWithPiece | src/main.rs:514-521 | Replacing the piece of one field changes the piece count by the difference of the two occupancies. |
| Click.ClickCount | src/main.rs:514-521 | A move never adds a piece. Re-clicking the selected field removes one piece, a click on an occupied field removes the piece that stood there, and a click on an empty field keeps the count. |
| Click.ClicksPreserveConsistency | src/main.rs:486-522 | Any sequence of clicks from a consistent board runs without panicking, stays consistent and never changes the player to move. |
| Click.PlacedBoardConsistent | src/main.rs:387-396 | Placing the rooks on an empty standard-layout board with nothing selected never panics. The result is consistent, and the player to move is kept. |
| Click.InitialBoardConsistent | src/main.rs:646-649 | The board the game starts with is consistent, with Red to move, so no click sequence on it panics. |

## Left out

- Pawn, knight, bishop and king arms of `get_possible_moves` (src/main.rs:128, 152, 153, 160): they are `todo!()` in this version. `Moves.GetPossibleMoves` excludes them by precondition.
- The statements after `return` in `place_pieces_half` (src/main.rs:361-384): they never run.
- Rendering and geometry: `get_radius_and_height`, `Section::get_coords`, `Board::get_coords`, `draw_polygon`, `fill_quadrilateral`, `sign`, `point_is_in_triangle`, `point_is_in_quadrilateral` and the drawing half of `main_loop`. They are floating-point screen geometry with no effect on the rules. The section's rendering callback is dropped from `Section` for the same reason.
- The pixel hit test of the click handler (src/main.rs:495-505): the click arrives as its outcome, the position of the hit field in section order, or None.
- SDL set-up, the event pump, `load_textures`, `main` and the `println!` logging: these are I/O.
- The unused `player` argument of `next` and its unsafe cast of the board to a mutable one (src/main.rs:104-107): the model looks fields up read-only.
- `csub`, `PIECE_LETTERS` and `COLOR_LETTERS`: unused by the core, or used only for drawing.
- Check detection, legality filtering, mate flags, turn rotation, the 19 further directions and pawn promotion: none exist in this version of the code.
- Topology.Cadd: carries no ensures. It requires the character code and the sum to stay within `u8`, where the source's `as u8` casts neither truncate nor wrap. Every call in the core stays within that range.
- Directions.Target: the precondition `Steppable` excludes ForwardYellow from rank 0 on files after 'd'. In the source this is a `usize` underflow panic. No field has rank 0, so no `next` call that starts on a board field reaches it.
- Topology.GetFields: its own contract states only the length. The order of the fields is stated in `Topology.GetFieldsIndex`.
- Directions.Target: its own contract states only that the file never changes. The rank formulas of both directions are stated in `Directions.ForwardRedOnBoard` and `Directions.ForwardYellowOnBoard`.
- Placement.SetPiece: its own contract states only when the write succeeds. What it changes is stated in `Placement.SetPieceChangesOneField`.
- Moves.Ray: requires the standard layout, which every board the program builds has. On that layout the rook loop provably terminates.
- Moves.GetPossibleMoves: requires the field to hold a piece, where the source's `self.piece.unwrap()` (src/main.rs:121) would panic on an empty field. Its only caller (src/main.rs:568) passes the selected field, and a selected field always holds a piece (`Click.Consistent`, kept by `Click.ClickPreservesConsistency`).
