/** The left-click handler of the main loop as a pure transition on the
    board. The pixel hit test is replaced by its outcome: the position, in
    section order, of the field under the mouse, or None when the click
    hits no field. */
module Click {
  import opened Types
  import opened Topology
  import opened Placement

  /** What holds between clicks: the layout is the standard one, and a
      selected field is the field of the board at its coordinate, holding a
      piece of the player to move. */
  predicate Consistent(b: Board) {
    && StandardLayout(b.fields)
    && match b.active
       case None => true
       case Some(a) =>
         && OnBoard(a.coord)
         && b.fields[IndexOf(a.coord)] == a
         && a.piece.Some? && a.piece.value.player == b.current
  }

  /** The board after a left click on field `pressed`. With nothing
      selected, a field holding a piece of the player to move becomes the
      selection. With a selection, the clicked field receives the selected
      piece, then the field found at the selection's coordinate is emptied
      and the selection cleared. None stands for the panic of `unwrap` when
      no field has the selection's coordinate. */
  function LeftClick(b: Board, pressed: Option<nat>): (r: Option<Board>)
    requires |b.fields| == 96
    requires pressed.Some? ==> pressed.value < 96
    ensures r.None? <==>
      pressed.Some? && b.active.Some? && FindIndex(b.fields, b.active.value.coord).None?
    ensures r.Some? ==>
      && r.value.current == b.current
      && |r.value.fields| == 96
      && forall j | 0 <= j < 96 ::
           r.value.fields[j].coord == b.fields[j].coord && r.value.fields[j].typ == b.fields[j].typ
  {
    match pressed
    case None => Some(b)
    case Some(k) =>
      var f := b.fields[k];
      match b.active
      case None =>
        if f.piece.Some? && f.piece.value.player == b.current then Some(b.(active := Some(f)))
        else Some(b)
      case Some(a) =>
        var moved := WithPiece(b.fields, k, a.piece);
        FindIndexIgnoresPieces(b.fields, moved, a.coord);
        match FindIndex(moved, a.coord)
        case None => None
        case Some(src) => Some(b.(fields := WithPiece(moved, src, None), active := None))
  }

  /** A click that hits no field changes nothing. */
  lemma ClickOutside(b: Board)
    requires |b.fields| == 96
    ensures LeftClick(b, None) == Some(b)
  {
  }

  /** With nothing selected a click never moves a piece; it selects the
      clicked field exactly when that field holds a piece of the player to
      move, and otherwise leaves the selection empty. */
  lemma ClickSelects(b: Board, k: nat)
    requires |b.fields| == 96 && k < 96
    requires b.active.None?
    ensures LeftClick(b, Some(k)).Some?
    ensures var r := LeftClick(b, Some(k)).value;
      && r.fields == b.fields
      && (r.active.Some? <==>
           b.fields[k].piece.Some? && b.fields[k].piece.value.player == b.current)
      && (r.active.Some? ==> r.active == Some(b.fields[k]))
  {
  }

  /** With a selection on a consistent board, the clicked field receives the
      selected piece, the selected field is emptied (which empties the clicked
      field too when it is the selected one), the selection is cleared and no
      other field changes. Any field can be clicked: an own piece standing on
      it is overwritten. */
  lemma ClickMoves(b: Board, k: nat)
    requires Consistent(b) && b.active.Some? && k < 96
    ensures LeftClick(b, Some(k)).Some?
    ensures var r := LeftClick(b, Some(k)).value;
      var a := b.active.value;
      var src := IndexOf(a.coord);
      && r.active == None
      && r.current == b.current
      && r.fields[src].piece == None
      && (k != src ==> r.fields[k].piece == a.piece)
      && forall j | 0 <= j < 96 && j != k && j != src :: r.fields[j] == b.fields[j]
  {
    var a := b.active.value;
    var moved := WithPiece(b.fields, k, a.piece);
    assert StandardLayout(moved);
    FindIndexOnLayout(moved, a.coord);
  }

  /** Clicking the selected field again deletes its piece. */
  lemma ReclickDeletes(b: Board)
    requires Consistent(b) && b.active.Some?
    ensures var src := IndexOf(b.active.value.coord);
      && LeftClick(b, Some(src)).Some?
      && LeftClick(b, Some(src)).value.fields[src].piece == None
      && b.fields[src].piece.Some?
  {
    ClickMoves(b, IndexOf(b.active.value.coord));
  }

  /** The standard layout alone does not rule out the panic: a selection
      whose coordinate is not on the board makes every click on a field
      panic. */
  lemma StaleSelectionPanics(b: Board, k: nat)
    requires StandardLayout(b.fields) && k < 96
    requires b.active.Some? && !OnBoard(b.active.value.coord)
    ensures LeftClick(b, Some(k)).None?
  {
    FindIndexOnLayout(b.fields, b.active.value.coord);
  }

  /** Every click keeps a consistent board consistent; in particular it
      never panics. */
  lemma ClickPreservesConsistency(b: Board, pressed: Option<nat>)
    requires Consistent(b)
    requires pressed.Some? ==> pressed.value < 96
    ensures LeftClick(b, pressed).Some? && Consistent(LeftClick(b, pressed).value)
  {
    match b.active
    case None =>
      if pressed.Some? {
        ClickSelects(b, pressed.value);
        var f := b.fields[pressed.value];
        if f.piece.Some? && f.piece.value.player == b.current {
          LayoutMember(b.fields, f);
        }
      }
    case Some(a) =>
      if pressed.Some? {
        ClickMoves(b, pressed.value);
      }
  }

  /** The number of fields holding a piece. */
  function CountPieces(fs: seq<Field>): (n: nat)
    ensures n <= |fs|
  {
    if fs == [] then 0
    else (if fs[0].piece.Some? then 1 else 0) + CountPieces(fs[1..])
  }

  /** 1 for an occupied field, 0 for an empty one. */
  function Occupied(p: Option<Piece>): nat {
    if p.Some? then 1 else 0
  }

  /** Replacing the piece of one field changes the count by the difference
      of the two occupancies. */
  lemma {:induction false} CountWithPiece(fs: seq<Field>, k: nat, p: Option<Piece>)
    requires k < |fs|
    ensures CountPieces(WithPiece(fs, k, p)) + Occupied(fs[k].piece) == CountPieces(fs) + Occupied(p)
  {
    var gs := WithPiece(fs, k, p);
    if k == 0 {
      assert gs[1..] == fs[1..];
    } else {
      assert gs[1..] == WithPiece(fs[1..], k - 1, p);
      CountWithPiece(fs[1..], k - 1, p);
    }
  }

  /** A move never adds a piece: re-clicking the selected field removes
      one, a click on an occupied field removes the piece that stood there,
      and a click on an empty field keeps the count. */
  lemma ClickCount(b: Board, k: nat)
    requires Consistent(b) && b.active.Some? && k < 96
    ensures var r := LeftClick(b, Some(k)).value;
      var src := IndexOf(b.active.value.coord);
      CountPieces(r.fields) + (if k == src || b.fields[k].piece.Some? then 1 else 0)
        == CountPieces(b.fields)
  {
    var a := b.active.value;
    var src := IndexOf(a.coord);
    var moved := WithPiece(b.fields, k, a.piece);
    ClickMoves(b, k);
    assert StandardLayout(moved);
    FindIndexOnLayout(moved, a.coord);
    CountWithPiece(b.fields, k, a.piece);
    CountWithPiece(moved, src, None);
    assert LeftClick(b, Some(k)).value.fields == WithPiece(moved, src, None);
  }

  /** The handler applied to a sequence of clicks, None if one of them
      panics. */
  function Clicks(b: Board, presses: seq<Option<nat>>): Option<Board>
    requires |b.fields| == 96
    requires forall i | 0 <= i < |presses| :: presses[i].Some? ==> presses[i].value < 96
    decreases |presses|
  {
    if presses == [] then Some(b)
    else
      match LeftClick(b, presses[0])
      case None => None
      case Some(b1) => Clicks(b1, presses[1..])
  }

  /** Any sequence of clicks from a consistent board runs without panicking,
      stays consistent and never changes the player to move. */
  lemma {:induction false} ClicksPreserveConsistency(b: Board, presses: seq<Option<nat>>)
    requires Consistent(b)
    requires forall i | 0 <= i < |presses| :: presses[i].Some? ==> presses[i].value < 96
    ensures Clicks(b, presses).Some?
    ensures Consistent(Clicks(b, presses).value)
    ensures Clicks(b, presses).value.current == b.current
    decreases |presses|
  {
    if presses != [] {
      ClickPreservesConsistency(b, presses[0]);
      ClicksPreserveConsistency(LeftClick(b, presses[0]).value, presses[1..]);
    }
  }

  /** Placing the rooks on an empty standard-layout board with nothing
      selected gives a consistent board with the same player to move. */
  lemma PlacedBoardConsistent(b: Board)
    requires StandardLayout(b.fields) && b.active == None
    requires forall k | 0 <= k < 96 :: b.fields[k].piece == None
    ensures PlacePieces(b).Some? && Consistent(PlacePieces(b).value)
    ensures PlacePieces(b).value.current == b.current
  {
    PlacePiecesOnEmpty(b);
  }

  /** The board the game starts with is consistent, so no click sequence on
      it panics and Red stays the player to move. */
  lemma InitialBoardConsistent(b: Board)
    requires b == BoardNew()
    ensures PlacePieces(b).Some? && Consistent(PlacePieces(b).value)
    ensures PlacePieces(b).value.current == Red
  {
    assert |b.fields| == 96 && b.current == Red && b.active == None;
    PlacedBoardConsistent(b);
  }
}
