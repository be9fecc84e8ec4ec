/** Pseudo-move generation of `Field::get_possible_moves` in this version of
    the engine: the rook slides along the two forward directions, the queen
    takes every field on its file or rank. The other piece types are not
    implemented there and are excluded by precondition. */
module Moves {
  import opened Types
  import opened Topology
  import opened Directions

  /** A measure that every step landing on a valid field makes smaller:
      ForwardRed only climbs towards rank 12, and ForwardYellow descends to
      rank 9, then either keeps descending or climbs from 5 towards 8. */
  function Measure(d: Direction, c: Coord): nat {
    match d
    case ForwardRed => if c.rank <= 12 then 12 - c.rank else 0
    case ForwardYellow =>
      if c.rank >= 9 then c.rank + 4
      else if c.rank >= 5 then 9 - c.rank
      else c.rank
  }

  /** Each ray of the rook loop terminates: a step that lands on a valid
      field decreases the measure. */
  lemma StepDecreases(d: Direction, c: Coord, t: Coord)
    requires Steppable(d, c) && Target(d, c) == Some(t) && OnBoard(t)
    ensures Measure(d, t) < Measure(d, c)
  {
  }

  /** The board holds a piece of `owner` at `c`. */
  predicate OwnPieceAt(b: Board, c: Coord, owner: Player)
    requires |b.fields| == 96
  {
    match GetField(b, c.file, c.rank)
    case None => false
    case Some(f) => f.piece.Some? && f.piece.value.player == owner
  }

  /** One direction of the rook loop: keep stepping while `next` finds a
      field; an empty field is a move and the walk goes on, an occupied field
      stops it and is a move only when its piece belongs to another player. */
  function Ray(d: Direction, b: Board, from: Field, owner: Player): (r: seq<Coord>)
    requires StandardLayout(b.fields) && Steppable(d, from.coord)
    ensures forall k | 0 <= k < |r| :: OnBoard(r[k]) && !OwnPieceAt(b, r[k], owner)
    decreases Measure(d, from.coord)
  {
    match Next(d, from, b)
    case None => []
    case Some(f) =>
      RayStep(d, b, from, f, owner);
      match f.piece
      case Some(p) => if p.player != owner then [f.coord] else []
      case None =>
        var rest := Ray(d, b, f, owner);
        AllowedCons(b, f.coord, rest, owner);
        [f.coord] + rest
  }

  /** A valid coordinate without an own piece, put in front of a list of
      such coordinates, gives a list of such coordinates. */
  lemma AllowedCons(b: Board, c: Coord, rest: seq<Coord>, owner: Player)
    requires |b.fields| == 96
    requires OnBoard(c) && !OwnPieceAt(b, c, owner)
    requires forall k | 0 <= k < |rest| :: OnBoard(rest[k]) && !OwnPieceAt(b, rest[k], owner)
    ensures forall k | 0 <= k < |[c] + rest| :: OnBoard(([c] + rest)[k]) && !OwnPieceAt(b, ([c] + rest)[k], owner)
  {
  }

  /** The field `next` finds is a valid field, the measure drops on the way
      there, and it holds a piece of `owner` exactly when `get_field` says
      so. */
  lemma RayStep(d: Direction, b: Board, from: Field, f: Field, owner: Player)
    requires StandardLayout(b.fields) && Steppable(d, from.coord)
    requires Next(d, from, b) == Some(f)
    ensures OnBoard(f.coord) && Steppable(d, f.coord)
    ensures Measure(d, f.coord) < Measure(d, from.coord)
    ensures OwnPieceAt(b, f.coord, owner) <==> f.piece.Some? && f.piece.value.player == owner
  {
    LayoutMember(b.fields, f);
    StepDecreases(d, from.coord, f.coord);
    GetFieldOnLayout(b, f.coord);
  }

  /** Every field a direction reaches from `from`, pieces ignored. */
  function Walk(d: Direction, b: Board, from: Field): (r: seq<Field>)
    requires StandardLayout(b.fields) && Steppable(d, from.coord)
    ensures forall k | 0 <= k < |r| :: r[k] in b.fields
    decreases Measure(d, from.coord)
  {
    match Next(d, from, b)
    case None => []
    case Some(f) =>
      LayoutMember(b.fields, f);
      StepDecreases(d, from.coord, f.coord);
      [f] + Walk(d, b, f)
  }

  /** The index of the first occupied field, or the length if none is. */
  function FirstOccupied(ws: seq<Field>): (k: nat)
    ensures k <= |ws|
    ensures forall j | 0 <= j < k :: ws[j].piece.None?
    ensures k < |ws| ==> ws[k].piece.Some?
  {
    if ws == [] then 0
    else if ws[0].piece.Some? then 0
    else 1 + FirstOccupied(ws[1..])
  }

  function Coords(ws: seq<Field>): (r: seq<Coord>)
    ensures |r| == |ws| && forall k | 0 <= k < |ws| :: r[k] == ws[k].coord
  {
    seq(|ws|, k requires 0 <= k < |ws| => ws[k].coord)
  }

  /** The moves a slide along `ws` yields: the maximal run of empty fields,
      then the first occupied field if it holds another player's piece. */
  function Truncate(ws: seq<Field>, owner: Player): seq<Coord> {
    var k := FirstOccupied(ws);
    Coords(ws[..k]) + (if k < |ws| && ws[k].piece.value.player != owner then [ws[k].coord] else [])
  }

  /** An empty first field is a move and the slide goes on behind it. */
  lemma TruncateEmptyHead(f: Field, rest: seq<Field>, owner: Player)
    requires f.piece.None?
    ensures Truncate([f] + rest, owner) == [f.coord] + Truncate(rest, owner)
  {
    var ws := [f] + rest;
    assert ws[1..] == rest;
    var k := FirstOccupied(rest);
    assert FirstOccupied(ws) == 1 + k;
    assert ws[..1 + k] == [f] + rest[..k];
    assert Coords(ws[..1 + k]) == [f.coord] + Coords(rest[..k]);
    assert 1 + k < |ws| ==> ws[1 + k] == rest[k];
  }

  /** An occupied first field ends the slide; it is a move only for an
      enemy piece. */
  lemma TruncateOccupiedHead(f: Field, rest: seq<Field>, owner: Player)
    requires f.piece.Some?
    ensures Truncate([f] + rest, owner) == if f.piece.value.player != owner then [f.coord] else []
  {
    var ws := [f] + rest;
    assert FirstOccupied(ws) == 0;
    assert Coords(ws[..0]) == [];
  }

  /** A ray is the walk of its direction, cut at the first occupied field,
      which is kept only when an enemy piece stands on it. */
  lemma {:induction false} RayIsTruncatedWalk(d: Direction, b: Board, from: Field, owner: Player)
    requires StandardLayout(b.fields) && Steppable(d, from.coord)
    ensures Ray(d, b, from, owner) == Truncate(Walk(d, b, from), owner)
    decreases Measure(d, from.coord)
  {
    match Next(d, from, b)
    case None =>
      assert Walk(d, b, from) == [];
    case Some(f) =>
      LayoutMember(b.fields, f);
      StepDecreases(d, from.coord, f.coord);
      var rest := Walk(d, b, f);
      assert Walk(d, b, from) == [f] + rest;
      if f.piece.None? {
        RayIsTruncatedWalk(d, b, f, owner);
        TruncateEmptyHead(f, rest, owner);
      } else {
        TruncateOccupiedHead(f, rest, owner);
      }
  }

  /** On a board without pieces a ray is the whole walk. */
  lemma EmptyBoardRay(d: Direction, b: Board, from: Field, owner: Player)
    requires StandardLayout(b.fields) && Steppable(d, from.coord)
    requires forall k | 0 <= k < 96 :: b.fields[k].piece.None?
    ensures Ray(d, b, from, owner) == Coords(Walk(d, b, from))
  {
    RayIsTruncatedWalk(d, b, from, owner);
    var ws := Walk(d, b, from);
    forall k | 0 <= k < |ws|
      ensures ws[k].piece.None?
    {
      var m :| 0 <= m < 96 && b.fields[m] == ws[k];
    }
    TruncateAllEmpty(ws, owner);
  }

  /** A slide along empty fields only yields all of them. */
  lemma TruncateAllEmpty(ws: seq<Field>, owner: Player)
    requires forall k | 0 <= k < |ws| :: ws[k].piece.None?
    ensures Truncate(ws, owner) == Coords(ws)
  {
    assert FirstOccupied(ws) == |ws|;
    assert ws[..|ws|] == ws;
  }

  /** The coordinates of file `file` at the ranks after position `i` of `col`. */
  function ColumnAfter(col: seq<nat>, i: nat, file: int): (r: seq<Coord>)
    requires i < |col|
    ensures |r| == |col| - i - 1
  {
    seq(|col| - i - 1, j requires 0 <= j < |col| - i - 1 => Coord(file, col[i + 1 + j]))
  }

  lemma ColumnAfterCons(col: seq<nat>, i: nat, file: int)
    requires i + 1 < |col|
    ensures ColumnAfter(col, i, file) == [Coord(file, col[i + 1])] + ColumnAfter(col, i + 1, file)
  {
  }

  lemma CoordsCons(f: Field, ws: seq<Field>)
    ensures Coords([f] + ws) == [f.coord] + Coords(ws)
  {
  }

  /** From a valid field the walk visits the rest of the direction's column,
      in order, and nothing else. */
  lemma {:induction false} WalkFollowsColumn(d: Direction, b: Board, from: Field, i: nat)
    requires StandardLayout(b.fields) && OnBoard(from.coord)
    requires i < |Column(d, from.coord.file)| && Column(d, from.coord.file)[i] == from.coord.rank
    ensures Steppable(d, from.coord)
    ensures Coords(Walk(d, b, from)) == ColumnAfter(Column(d, from.coord.file), i, from.coord.file)
    decreases |Column(d, from.coord.file)| - i
  {
    var col := Column(d, from.coord.file);
    TargetFollowsColumn(d, from.coord, i);
    NextOnLayout(d, from, b);
    match Next(d, from, b)
    case None =>
      assert Walk(d, b, from) == [];
    case Some(f) =>
      LayoutMember(b.fields, f);
      StepDecreases(d, from.coord, f.coord);
      assert Walk(d, b, from) == [f] + Walk(d, b, f);
      WalkFollowsColumn(d, b, f, i + 1);
      CoordsCons(f, Walk(d, b, f));
      ColumnAfterCons(col, i, from.coord.file);
  }

  /** The rook arm: the ForwardRed ray followed by the ForwardYellow ray. */
  function RookMoves(self: Field, b: Board, owner: Player): (r: seq<Coord>)
    requires StandardLayout(b.fields)
    requires Steppable(ForwardRed, self.coord) && Steppable(ForwardYellow, self.coord)
    ensures forall k | 0 <= k < |r| :: OnBoard(r[k]) && !OwnPieceAt(b, r[k], owner)
    ensures r == Truncate(Walk(ForwardRed, b, self), owner) + Truncate(Walk(ForwardYellow, b, self), owner)
  {
    RayIsTruncatedWalk(ForwardRed, b, self, owner);
    RayIsTruncatedWalk(ForwardYellow, b, self, owner);
    Ray(ForwardRed, b, self, owner) + Ray(ForwardYellow, b, self, owner)
  }

  /** The queen and the field `x` share a file or a rank. */
  predicate SameLine(x: Coord, c: Coord) {
    x.file == c.file || x.rank == c.rank
  }

  /** The queen arm: the coordinates of all fields, in board order, that
      share the queen's file or rank, whatever stands on them. */
  function QueenMoves(fs: seq<Field>, c: Coord): (r: seq<Coord>)
    ensures |r| <= |fs|
    ensures forall x :: x in r <==> exists k | 0 <= k < |fs| :: fs[k].coord == x && SameLine(x, c)
  {
    if fs == [] then []
    else
      var tail := QueenMoves(fs[1..], c);
      assert forall x :: (exists k | 0 <= k < |fs| - 1 :: fs[1..][k].coord == x && SameLine(x, c))
                     ==> (exists k | 0 <= k < |fs| :: fs[k].coord == x && SameLine(x, c))
      by {
        forall x | exists k | 0 <= k < |fs| - 1 :: fs[1..][k].coord == x && SameLine(x, c)
          ensures exists k | 0 <= k < |fs| :: fs[k].coord == x && SameLine(x, c)
        {
          var k :| 0 <= k < |fs| - 1 && fs[1..][k].coord == x && SameLine(x, c);
          assert fs[k + 1].coord == x;
        }
      }
      assert forall x :: (exists k | 0 <= k < |fs| :: fs[k].coord == x && SameLine(x, c))
                     ==> fs[0].coord == x || (exists k | 0 <= k < |fs| - 1 :: fs[1..][k].coord == x && SameLine(x, c))
      by {
        forall x | exists k | 0 <= k < |fs| :: fs[k].coord == x && SameLine(x, c)
          ensures fs[0].coord == x || (exists k | 0 <= k < |fs| - 1 :: fs[1..][k].coord == x && SameLine(x, c))
        {
          var k :| 0 <= k < |fs| && fs[k].coord == x && SameLine(x, c);
          if k > 0 {
            assert fs[1..][k - 1].coord == x;
          }
        }
      }
      (if SameLine(fs[0].coord, c) then [fs[0].coord] else []) + tail
  }

  /** The queen's moves depend on the coordinates of the fields only, not
      on what stands on them. */
  lemma {:induction false} QueenIgnoresPieces(fs: seq<Field>, gs: seq<Field>, c: Coord)
    requires |fs| == |gs|
    requires forall k | 0 <= k < |fs| :: fs[k].coord == gs[k].coord
    ensures QueenMoves(fs, c) == QueenMoves(gs, c)
    decreases |fs|
  {
    if fs != [] {
      QueenIgnoresPieces(fs[1..], gs[1..], c);
    }
  }

  /** On the standard layout a queen's moves include its own field. */
  lemma QueenIncludesOwnField(fs: seq<Field>, c: Coord)
    requires StandardLayout(fs) && OnBoard(c)
    ensures c in QueenMoves(fs, c)
  {
    assert fs[IndexOf(c)].coord == c;
  }

  /** The queen filter distributes over concatenation. */
  lemma {:induction false} QueenAppend(xs: seq<Field>, ys: seq<Field>, c: Coord)
    ensures QueenMoves(xs + ys, c) == QueenMoves(xs, c) + QueenMoves(ys, c)
    decreases |xs|
  {
    if xs == [] {
      assert xs + ys == ys;
    } else {
      var zs := xs + ys;
      assert zs[0] == xs[0] && zs[1..] == xs[1..] + ys;
      QueenAppend(xs[1..], ys, c);
      assert QueenMoves(zs, c) == (if SameLine(xs[0].coord, c) then [xs[0].coord] else []) + QueenMoves(zs[1..], c);
    }
  }

  lemma SliceSplit(fs: seq<Field>, a: nat, m: nat, e: nat)
    requires a <= m <= e <= |fs|
    ensures fs[a .. e] == fs[a .. m] + fs[m .. e]
  {
  }

  function Indicator(x: Coord, c: Coord): nat {
    if SameLine(x, c) then 1 else 0
  }

  lemma QueenFour(row: seq<Field>, c: Coord)
    requires |row| == 4
    ensures |QueenMoves(row, c)| ==
      Indicator(row[0].coord, c) + Indicator(row[1].coord, c) + Indicator(row[2].coord, c) + Indicator(row[3].coord, c)
  {
    var r1, r2, r3 := row[1..], row[2..], row[3..];
    assert r1[1..] == r2 && r2[1..] == r3 && r3[1..] == [];
    assert r1[0] == row[1] && r2[0] == row[2] && r3[0] == row[3];
    assert |QueenMoves(r3, c)| == Indicator(row[3].coord, c);
    assert |QueenMoves(r2, c)| == Indicator(row[2].coord, c) + |QueenMoves(r3, c)|;
    assert |QueenMoves(r1, c)| == Indicator(row[1].coord, c) + |QueenMoves(r2, c)|;
    assert |QueenMoves(row, c)| == Indicator(row[0].coord, c) + |QueenMoves(r1, c)|;
  }

  /** How many fields of the block of section `s` share a file or a rank
      with `c`: a whole row of four on the shared file, one per row on the
      shared rank. */
  function BlockCount(s: nat, c: Coord): nat
    requires s < 6
  {
    var onFile := AnchorFile(s) <= c.file < AnchorFile(s) + 4;
    var onRank := AnchorRank(s) <= c.rank < AnchorRank(s) + 4;
    if onFile && onRank then 7 else if onFile || onRank then 4 else 0
  }

  lemma QueenRow(fs: seq<Field>, c: Coord, s: nat, i: nat)
    requires StandardLayout(fs) && s < 6 && i < 4
    ensures var row := fs[16 * s + 4 * i .. 16 * s + 4 * i + 4];
      |QueenMoves(row, c)| ==
        if AnchorFile(s) + i == c.file then 4
        else if AnchorRank(s) <= c.rank < AnchorRank(s) + 4 then 1
        else 0
  {
    var row := fs[16 * s + 4 * i .. 16 * s + 4 * i + 4];
    forall j | 0 <= j < 4
      ensures row[j].coord == Coord(AnchorFile(s) + i, AnchorRank(s) + j)
    {
      SplitIndex(s, i, j);
      assert row[j] == fs[16 * s + 4 * i + j];
    }
    QueenFour(row, c);
  }

  lemma QueenBlock(fs: seq<Field>, c: Coord, s: nat)
    requires StandardLayout(fs) && s < 6
    ensures |QueenMoves(fs[16 * s .. 16 * s + 16], c)| == BlockCount(s, c)
  {
    var b := 16 * s;
    SliceSplit(fs, b, b + 12, b + 16);
    SliceSplit(fs, b, b + 8, b + 12);
    SliceSplit(fs, b, b + 4, b + 8);
    QueenAppend(fs[b .. b + 4] + fs[b + 4 .. b + 8] + fs[b + 8 .. b + 12], fs[b + 12 .. b + 16], c);
    QueenAppend(fs[b .. b + 4] + fs[b + 4 .. b + 8], fs[b + 8 .. b + 12], c);
    QueenAppend(fs[b .. b + 4], fs[b + 4 .. b + 8], c);
    QueenRow(fs, c, s, 0);
    QueenRow(fs, c, s, 1);
    QueenRow(fs, c, s, 2);
    QueenRow(fs, c, s, 3);
  }

  /** The queen's moves on the standard layout, counted block by block. */
  lemma QueenBlocks(fs: seq<Field>, c: Coord)
    requires StandardLayout(fs)
    ensures |QueenMoves(fs, c)| ==
      BlockCount(0, c) + BlockCount(1, c) + BlockCount(2, c) + BlockCount(3, c) + BlockCount(4, c) + BlockCount(5, c)
  {
    var b0, b1, b2, b3, b4, b5 := fs[0 .. 16], fs[16 .. 32], fs[32 .. 48], fs[48 .. 64], fs[64 .. 80], fs[80 .. 96];
    assert fs == fs[0 .. 96];
    SliceSplit(fs, 0, 80, 96);
    SliceSplit(fs, 0, 64, 80);
    SliceSplit(fs, 0, 48, 64);
    SliceSplit(fs, 0, 32, 48);
    SliceSplit(fs, 0, 16, 32);
    QueenAppend(b0 + b1 + b2 + b3 + b4, b5, c);
    QueenAppend(b0 + b1 + b2 + b3, b4, c);
    QueenAppend(b0 + b1 + b2, b3, c);
    QueenAppend(b0 + b1, b2, c);
    QueenAppend(b0, b1, c);
    QueenBlock(fs, c, 0);
    QueenBlock(fs, c, 1);
    QueenBlock(fs, c, 2);
    QueenBlock(fs, c, 3);
    QueenBlock(fs, c, 4);
    QueenBlock(fs, c, 5);
  }

  /** Every file and every rank of the board has eight fields, so a queen
      on a valid field always gets fifteen moves: its own field once, seven
      more on its file and seven more on its rank. */
  lemma QueenMoveCount(fs: seq<Field>, c: Coord)
    requires StandardLayout(fs) && OnBoard(c)
    ensures |QueenMoves(fs, c)| == 15
  {
    QueenBlocks(fs, c);
  }

  /** `get_possible_moves` for the two implemented arms. */
  function GetPossibleMoves(self: Field, b: Board): (r: seq<Coord>)
    requires self.piece.Some?
    requires self.piece.value.typ == Rook || self.piece.value.typ == Queen
    requires self.piece.value.typ == Rook ==>
      && StandardLayout(b.fields)
      && Steppable(ForwardRed, self.coord) && Steppable(ForwardYellow, self.coord)
    ensures self.piece.value.typ == Rook ==>
      forall k | 0 <= k < |r| :: OnBoard(r[k]) && !OwnPieceAt(b, r[k], self.piece.value.player)
    ensures self.piece.value.typ == Rook ==>
      var owner := self.piece.value.player;
      r == Truncate(Walk(ForwardRed, b, self), owner) + Truncate(Walk(ForwardYellow, b, self), owner)
    ensures self.piece.value.typ == Queen ==>
      forall x :: x in r <==> exists k | 0 <= k < |b.fields| :: b.fields[k].coord == x && SameLine(x, self.coord)
  {
    var player := self.piece.value.player;
    match self.piece.value.typ
    case Rook => RookMoves(self, b, player)
    case Queen => QueenMoves(b.fields, self.coord)
  }
}
