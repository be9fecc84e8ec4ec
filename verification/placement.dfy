/** Initial placement. In this version `place_pieces_half` returns right
    after placing its first piece, so each call places exactly one rook. */
module Placement {
  import opened Types
  import opened Topology

  /** `b` and `r` differ at most in the piece of field `k`, which `r` holds
      as `p`; everything else, coordinates and colours included, is equal. */
  predicate PieceChangedAt(b: Board, r: Board, k: nat, p: Option<Piece>) {
    && k < |b.fields| == |r.fields|
    && r.current == b.current && r.active == b.active
    && r.fields[k] == b.fields[k].(piece := p)
    && forall j | 0 <= j < |b.fields| && j != k :: r.fields[j] == b.fields[j]
  }

  /** `get_field(file, rank).unwrap().piece = p`: the first field with the
      coordinate receives `p`; None stands for the panic of `unwrap` when no
      field has it. */
  function SetPiece(b: Board, c: Coord, p: Option<Piece>): (r: Option<Board>)
    requires |b.fields| == 96
    ensures r.Some? <==> exists k | 0 <= k < 96 :: b.fields[k].coord == c
    ensures r.Some? ==> |r.value.fields| == 96
  {
    match FindIndex(b.fields, c)
    case None => None
    case Some(k) => Some(b.(fields := b.fields[k := b.fields[k].(piece := p)]))
  }

  /** A successful `SetPiece` writes `p` into the first field with the
      coordinate and changes nothing else. */
  lemma SetPieceChangesOneField(b: Board, c: Coord, p: Option<Piece>)
    requires |b.fields| == 96
    requires SetPiece(b, c, p).Some?
    ensures FindIndex(b.fields, c).Some? && b.fields[FindIndex(b.fields, c).value].coord == c
    ensures PieceChangedAt(b, SetPiece(b, c, p).value, FindIndex(b.fields, c).value, p)
  {
  }

  /** The arguments of one `place_pieces_half` call. */
  datatype Half = Half(rank: nat, startFile: int, invf: bool, invr: bool, right: bool, player: Player)

  /** What the call itself needs: `rank - 1` must not underflow and the
      letters `cadd` produces must stay within `u8`. */
  predicate HalfArgsOk(h: Half) {
    && (h.invr ==> h.rank >= 1)
    && 0 <= CodeA + h.startFile && CodeA + h.startFile + 3 < 256
  }

  /** The field the surviving statement of `place_pieces_half` fills: the
      corner file of the half (`invf`, flipped for the right half) on the
      rank next to `rank`, below it when `invr`. */
  function PlaceTarget(h: Half): Coord
    requires HalfArgsOk(h)
  {
    var invf := if h.right then !h.invf else h.invf;
    Coord(Cadd(h.startFile, if invf then 3 else 0), if h.invr then h.rank - 1 else h.rank + 1)
  }

  /** `place_pieces_half`: puts one rook of the half's player on
      `PlaceTarget`; the statements after its `return` never run. */
  function PlacePiecesHalf(b: Board, h: Half): (r: Option<Board>)
    requires |b.fields| == 96
    requires HalfArgsOk(h)
    ensures r.Some? <==> exists k | 0 <= k < 96 :: b.fields[k].coord == PlaceTarget(h)
    ensures r.Some? ==>
      && FindIndex(b.fields, PlaceTarget(h)).Some?
      && PieceChangedAt(b, r.value, FindIndex(b.fields, PlaceTarget(h)).value, Some(Piece(Rook, h.player)))
  {
    SetPiece(b, PlaceTarget(h), Some(Piece(Rook, h.player)))
  }

  /** The six calls of `place_pieces`, in order. */
  const PlacementOrder: seq<Half> := [
    Half(1, FileA, false, false, false, Red),
    Half(1, FileE, false, false, true, Red),
    Half(8, FileI, true, true, false, Green),
    Half(8, FileA, true, true, true, Green),
    Half(12, FileE, true, true, false, Yellow),
    Half(12, FileI, false, true, true, Yellow)
  ]

  /** The calls one after another; None as soon as one of them panics. */
  function PlaceAll(b: Board, hs: seq<Half>): Option<Board>
    requires |b.fields| == 96
    requires forall i | 0 <= i < |hs| :: HalfArgsOk(hs[i])
    decreases |hs|
  {
    if hs == [] then Some(b)
    else
      match PlacePiecesHalf(b, hs[0])
      case None => None
      case Some(b1) => PlaceAll(b1, hs[1..])
  }

  /** `place_pieces`. On a standard-layout board it never panics and adds
      exactly the six initial rooks. */
  function PlacePieces(b: Board): (r: Option<Board>)
    requires |b.fields| == 96
    ensures StandardLayout(b.fields) ==> r.Some? && RooksPlaced(b, r.value)
  {
    var r := PlaceAll(b, PlacementOrder);
    if StandardLayout(b.fields) then
      PlacePiecesOnLayout(b);
      r
    else
      r
  }

  /** `r` is `b` with the six initial rooks added: the layout, the player
      to move and the selection are kept, and each field gains the rook
      `InitialRook` gives its coordinate, if any. */
  predicate RooksPlaced(b: Board, r: Board)
    requires |b.fields| == 96
  {
    && StandardLayout(r.fields)
    && r.current == b.current && r.active == b.active
    && forall k | 0 <= k < 96 ::
         r.fields[k] == match InitialRook(b.fields[k].coord)
                        case None => b.fields[k]
                        case Some(p) => b.fields[k].(piece := Some(Piece(Rook, p)))
  }

  /** The rook the initial placement puts on a coordinate, by owner: a2 and
      h2 for Red, l7 and a7 for Green, h11 and l11 for Yellow. */
  function InitialRook(c: Coord): Option<Player> {
    if c == Coord(FileA, 2) || c == Coord(FileH, 2) then Some(Red)
    else if c == Coord(FileL, 7) || c == Coord(FileA, 7) then Some(Green)
    else if c == Coord(FileH, 11) || c == Coord(FileL, 11) then Some(Yellow)
    else None
  }

  /** The fields with the piece of field `k` replaced by `p`. */
  function WithPiece(fs: seq<Field>, k: nat, p: Option<Piece>): (r: seq<Field>)
    ensures |r| == |fs|
  {
    if k < |fs| then fs[k := fs[k].(piece := p)] else fs
  }

  /** Placing a piece on the coordinate of layout index `k` of a
      standard-layout board succeeds, changes field `k` only and keeps the
      layout. */
  lemma SetPieceOnLayout(b: Board, k: nat, p: Option<Piece>)
    requires StandardLayout(b.fields) && k < 96
    ensures SetPiece(b, LayoutCoord(k), p) == Some(b.(fields := WithPiece(b.fields, k, p)))
    ensures StandardLayout(WithPiece(b.fields, k, p))
  {
    LayoutCoordOnBoard(k);
    FindIndexOnLayout(b.fields, LayoutCoord(k));
  }

  /** Where the six initial rooks sit in the standard layout. */
  function InitialRookAt(k: nat): Option<Player> {
    if k == 1 || k == 29 then Some(Red)
    else if k == 78 || k == 82 then Some(Green)
    else if k == 46 || k == 62 then Some(Yellow)
    else None
  }

  /** `InitialRook` read through the layout. */
  lemma InitialRookIndex(k: nat)
    requires k < 96
    ensures InitialRook(LayoutCoord(k)) == InitialRookAt(k)
  {
    JoinIndex(k);
    var s, i, j := k / 16, (k % 16) / 4, k % 4;
    assert LayoutCoord(k) == Coord(AnchorFile(s) + i, AnchorRank(s) + j);
    assert s == 0 || s == 1 || s == 2 || s == 3 || s == 4 || s == 5;
  }

  /** The fields after rooks of the halves' players are written at the
      layout indices `ks`, one per half. */
  function WriteRooks(fs: seq<Field>, hs: seq<Half>, ks: seq<nat>): (r: seq<Field>)
    requires |hs| == |ks|
    ensures |r| == |fs|
    decreases |hs|
  {
    if hs == [] then fs
    else WriteRooks(WithPiece(fs, ks[0], Some(Piece(Rook, hs[0].player))), hs[1..], ks[1..])
  }

  /** Halves whose targets are the layout coordinates `ks` all succeed on a
      standard-layout board, and each writes its rook at its index. */
  lemma {:induction false} PlaceAllOnLayout(b: Board, hs: seq<Half>, ks: seq<nat>)
    requires StandardLayout(b.fields)
    requires |hs| == |ks|
    requires forall i | 0 <= i < |hs| :: HalfArgsOk(hs[i]) && ks[i] < 96
    requires forall i | 0 <= i < |hs| :: PlaceTarget(hs[i]) == LayoutCoord(ks[i])
    ensures PlaceAll(b, hs) == Some(b.(fields := WriteRooks(b.fields, hs, ks)))
    ensures StandardLayout(WriteRooks(b.fields, hs, ks))
    decreases |hs|
  {
    if hs != [] {
      var p := Some(Piece(Rook, hs[0].player));
      SetPieceOnLayout(b, ks[0], p);
      var b1 := b.(fields := WithPiece(b.fields, ks[0], p));
      assert PlacePiecesHalf(b, hs[0]) == Some(b1);
      PlaceAllOnLayout(b1, hs[1..], ks[1..]);
    }
  }

  /** The layout indices of the six targets of `place_pieces`. */
  const RookIndices: seq<nat> := [1, 29, 78, 82, 46, 62]

  lemma PlaceTarget0()
    ensures HalfArgsOk(PlacementOrder[0])
    ensures PlaceTarget(PlacementOrder[0]) == LayoutCoord(RookIndices[0]) == Coord(FileA, 2)
  {
    assert PlacementOrder[0] == Half(1, FileA, false, false, false, Red);
    assert RookIndices[0] == 1;
    LayoutCoordAt(0, 0, 1);
  }

  lemma PlaceTarget1()
    ensures HalfArgsOk(PlacementOrder[1])
    ensures PlaceTarget(PlacementOrder[1]) == LayoutCoord(RookIndices[1]) == Coord(FileH, 2)
  {
    assert PlacementOrder[1] == Half(1, FileE, false, false, true, Red);
    assert RookIndices[1] == 29;
    LayoutCoordAt(1, 3, 1);
  }

  lemma PlaceTarget2()
    ensures HalfArgsOk(PlacementOrder[2])
    ensures PlaceTarget(PlacementOrder[2]) == LayoutCoord(RookIndices[2]) == Coord(FileL, 7)
  {
    assert PlacementOrder[2] == Half(8, FileI, true, true, false, Green);
    assert RookIndices[2] == 78;
    LayoutCoordAt(4, 3, 2);
  }

  lemma PlaceTarget3()
    ensures HalfArgsOk(PlacementOrder[3])
    ensures PlaceTarget(PlacementOrder[3]) == LayoutCoord(RookIndices[3]) == Coord(FileA, 7)
  {
    assert PlacementOrder[3] == Half(8, FileA, true, true, true, Green);
    assert RookIndices[3] == 82;
    LayoutCoordAt(5, 0, 2);
  }

  lemma PlaceTarget4()
    ensures HalfArgsOk(PlacementOrder[4])
    ensures PlaceTarget(PlacementOrder[4]) == LayoutCoord(RookIndices[4]) == Coord(FileH, 11)
  {
    assert PlacementOrder[4] == Half(12, FileE, true, true, false, Yellow);
    assert RookIndices[4] == 46;
    LayoutCoordAt(2, 3, 2);
  }

  lemma PlaceTarget5()
    ensures HalfArgsOk(PlacementOrder[5])
    ensures PlaceTarget(PlacementOrder[5]) == LayoutCoord(RookIndices[5]) == Coord(FileL, 11)
  {
    assert PlacementOrder[5] == Half(12, FileI, false, true, true, Yellow);
    assert RookIndices[5] == 62;
    LayoutCoordAt(3, 3, 2);
  }

  /** Every call of `place_pieces` is well formed and aims at the layout
      index listed for it. */
  lemma PlacementTargets()
    ensures |PlacementOrder| == |RookIndices|
    ensures forall i | 0 <= i < |PlacementOrder| :: HalfArgsOk(PlacementOrder[i]) && RookIndices[i] < 96
    ensures forall i | 0 <= i < |PlacementOrder| :: PlaceTarget(PlacementOrder[i]) == LayoutCoord(RookIndices[i])
  {
    forall i | 0 <= i < |PlacementOrder|
      ensures HalfArgsOk(PlacementOrder[i]) && RookIndices[i] < 96
      ensures PlaceTarget(PlacementOrder[i]) == LayoutCoord(RookIndices[i])
    {
      if i == 0 { PlaceTarget0(); }
      else if i == 1 { PlaceTarget1(); }
      else if i == 2 { PlaceTarget2(); }
      else if i == 3 { PlaceTarget3(); }
      else if i == 4 { PlaceTarget4(); }
      else { PlaceTarget5(); }
    }
  }

  /** The six writes of `place_pieces` spelled out. */
  function SixRooks(fs: seq<Field>): seq<Field>
    requires |fs| == 96
  {
    var red, green, yellow := Some(Piece(Rook, Red)), Some(Piece(Rook, Green)), Some(Piece(Rook, Yellow));
    WithPiece(WithPiece(WithPiece(WithPiece(WithPiece(WithPiece(fs,
      1, red), 29, red), 78, green), 82, green), 46, yellow), 62, yellow)
  }

  /** One step of `WriteRooks`, taken at position `i` of the halves. */
  lemma WriteRooksFrom(fs: seq<Field>, hs: seq<Half>, ks: seq<nat>, i: nat)
    requires |hs| == |ks| && i < |hs|
    ensures WriteRooks(fs, hs[i..], ks[i..]) ==
      WriteRooks(WithPiece(fs, ks[i], Some(Piece(Rook, hs[i].player))), hs[i + 1..], ks[i + 1..])
  {
    assert hs[i..][1..] == hs[i + 1..] && ks[i..][1..] == ks[i + 1..];
  }

  lemma WriteSixRooks(fs: seq<Field>)
    requires |fs| == 96
    ensures WriteRooks(fs, PlacementOrder, RookIndices) == SixRooks(fs)
  {
    var hs, ks := PlacementOrder, RookIndices;
    assert |hs| == |ks| == 6;
    var f1 := WithPiece(fs, 1, Some(Piece(Rook, Red)));
    var f2 := WithPiece(f1, 29, Some(Piece(Rook, Red)));
    var f3 := WithPiece(f2, 78, Some(Piece(Rook, Green)));
    var f4 := WithPiece(f3, 82, Some(Piece(Rook, Green)));
    var f5 := WithPiece(f4, 46, Some(Piece(Rook, Yellow)));
    var f6 := WithPiece(f5, 62, Some(Piece(Rook, Yellow)));
    assert hs[0..] == hs && ks[0..] == ks;
    WriteRooksFrom(fs, hs, ks, 0);
    WriteRooksFrom(f1, hs, ks, 1);
    WriteRooksFrom(f2, hs, ks, 2);
    WriteRooksFrom(f3, hs, ks, 3);
    WriteRooksFrom(f4, hs, ks, 4);
    WriteRooksFrom(f5, hs, ks, 5);
    assert hs[6..] == [];
  }

  /** Each field after the six writes of `place_pieces` is the original
      field, with the initial rook where `InitialRookAt` puts one. */
  lemma RooksAt(fs: seq<Field>, k: nat)
    requires |fs| == 96 && k < 96
    ensures WriteRooks(fs, PlacementOrder, RookIndices)[k] ==
              match InitialRookAt(k)
              case None => fs[k]
              case Some(p) => fs[k].(piece := Some(Piece(Rook, p)))
  {
    WriteSixRooks(fs);
  }

  /** On any board with the standard layout every `unwrap` of the placement
      succeeds, and the result differs from the board exactly in a rook on
      each of the six `InitialRook` coordinates. */
  lemma PlacePiecesOnLayout(b: Board)
    requires StandardLayout(b.fields)
    ensures PlaceAll(b, PlacementOrder).Some?
    ensures RooksPlaced(b, PlaceAll(b, PlacementOrder).value)
  {
    PlacementTargets();
    PlaceAllOnLayout(b, PlacementOrder, RookIndices);
    forall k | 0 <= k < 96
      ensures WriteRooks(b.fields, PlacementOrder, RookIndices)[k] == match InitialRook(b.fields[k].coord)
                                    case None => b.fields[k]
                                    case Some(p) => b.fields[k].(piece := Some(Piece(Rook, p)))
    {
      InitialRookIndex(k);
      RooksAt(b.fields, k);
    }
  }

  /** Placing the pieces on an empty standard-layout board leaves exactly
      the six initial rooks on it. */
  lemma PlacePiecesOnEmpty(b: Board)
    requires StandardLayout(b.fields)
    requires forall k | 0 <= k < 96 :: b.fields[k].piece == None
    ensures PlacePieces(b).Some?
    ensures var r := PlacePieces(b).value;
      && StandardLayout(r.fields)
      && r.current == b.current && r.active == b.active
      && forall k | 0 <= k < 96 ::
           r.fields[k].piece == match InitialRook(r.fields[k].coord)
                                case None => None
                                case Some(p) => Some(Piece(Rook, p))
  {
    PlacePiecesOnLayout(b);
  }

  /** `Board::new` followed by `place_pieces` holds exactly six pieces, all
      rooks: Red on a2 and h2, Green on l7 and a7, Yellow on h11 and l11. */
  lemma InitialPosition(b: Board)
    requires b == BoardNew()
    ensures PlacePieces(b).Some?
    ensures var r := PlacePieces(b).value;
      && StandardLayout(r.fields)
      && r.current == Red && r.active == None
      && forall k | 0 <= k < 96 ::
           r.fields[k].piece == match InitialRook(r.fields[k].coord)
                                case None => None
                                case Some(p) => Some(Piece(Rook, p))
  {
    PlacePiecesOnEmpty(b);
  }
}
