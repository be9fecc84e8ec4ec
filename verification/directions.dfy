/** The direction catalogue of this version of the engine: the two forward
    directions of Red and Yellow, each a partial neighbour function whose
    rank formula jumps across the seams between the regions. */
module Directions {
  import opened Types
  import opened Topology

  datatype Direction = ForwardRed | ForwardYellow

  /** The ranks are unsigned: ForwardYellow subtracts one from ranks below 5
      on the files after 'd', which would underflow at rank 0. */
  predicate Steppable(d: Direction, c: Coord) {
    d.ForwardRed? || c.file <= FileD || c.rank != 0
  }

  /** The coordinate `Direction::next` looks up, or None where the direction
      does not apply. The file never changes. */
  function Target(d: Direction, c: Coord): (r: Option<Coord>)
    requires Steppable(d, c)
    ensures r.Some? ==> r.value.file == c.file
  {
    match d
    case ForwardRed =>
      if c.file >= FileI then None
      else if c.rank == 8 || c.rank == 12 then None
      else Some(Coord(c.file, if c.rank == 4 && c.file >= FileE then 9 else c.rank + 1))
    case ForwardYellow =>
      if c.file <= FileD then None
      else if c.rank == 8 || c.rank == 1 then None
      else
        var r :=
          if c.rank == 9 then (if c.file >= FileI then 5 else 4)
          else if c.rank >= 9 then c.rank - 1
          else if c.rank >= 5 then c.rank + 1
          else c.rank - 1;
        Some(Coord(c.file, r))
  }

  /** `Direction::next`: the field the direction leads to, looked up on the
      board (read-only), or None. */
  function Next(d: Direction, start: Field, b: Board): (r: Option<Field>)
    requires Steppable(d, start.coord)
    requires |b.fields| == 96
    ensures r.Some? ==> Target(d, start.coord) == Some(r.value.coord) && r.value in b.fields
    ensures Target(d, start.coord).Some? && r.None? ==>
      forall k | 0 <= k < 96 :: b.fields[k].coord != Target(d, start.coord).value
  {
    match Target(d, start.coord)
    case None => None
    case Some(t) => GetField(b, t.file, t.rank)
  }

  /** The ranks of a file in the order the direction walks them, as the
      player moving that way sees the file: Red climbs files a-d through
      ranks 1-8 and files e-h through 1-4 and then 9-12; Yellow descends
      files e-h through 12-9 and then 4-1, and files i-l through 12-9 and
      then climbs 5-8. Other files have no such walk. */
  function Column(d: Direction, file: int): seq<nat> {
    match d
    case ForwardRed =>
      if FileA <= file <= FileD then [1, 2, 3, 4, 5, 6, 7, 8]
      else if FileE <= file <= FileH then [1, 2, 3, 4, 9, 10, 11, 12]
      else []
    case ForwardYellow =>
      if FileE <= file <= FileH then [12, 11, 10, 9, 4, 3, 2, 1]
      else if FileI <= file <= FileL then [12, 11, 10, 9, 5, 6, 7, 8]
      else []
  }

  /** Every valid field of a file a direction walks lies on that walk. */
  lemma ColumnCoversFile(d: Direction, c: Coord)
    requires OnBoard(c)
    requires Column(d, c.file) != []
    ensures exists i | 0 <= i < |Column(d, c.file)| :: Column(d, c.file)[i] == c.rank
  {
    var col := Column(d, c.file);
    if d.ForwardRed? && c.file <= FileD {
      assert col[c.rank - 1] == c.rank;
    } else if d.ForwardRed? && c.rank <= 4 {
      assert col[c.rank - 1] == c.rank;
    } else if d.ForwardRed? {
      assert col[c.rank - 5] == c.rank;
    } else if c.rank >= 9 {
      assert col[12 - c.rank] == c.rank;
    } else if c.file <= FileH {
      assert col[8 - c.rank] == c.rank;
    } else {
      assert col[c.rank - 1] == c.rank;
    }
  }

  /** A direction steps from a valid field to the next rank of its walk, and
      has no step from the last one. */
  lemma TargetFollowsColumn(d: Direction, c: Coord, i: nat)
    requires OnBoard(c)
    requires i < |Column(d, c.file)| && Column(d, c.file)[i] == c.rank
    ensures Steppable(d, c)
    ensures var col := Column(d, c.file);
      Target(d, c) == if i + 1 < |col| then Some(Coord(c.file, col[i + 1])) else None
  {
    assert i == 0 || i == 1 || i == 2 || i == 3 || i == 4 || i == 5 || i == 6 || i == 7;
  }

  /** On a valid field of a file the direction does not walk, it has no step. */
  lemma TargetOffColumn(d: Direction, c: Coord)
    requires OnBoard(c)
    requires Column(d, c.file) == []
    ensures Steppable(d, c) && Target(d, c) == None
  {
  }

  /** ForwardRed: from a valid field it gives up exactly on files i-l and at
      ranks 8 and 12; otherwise it moves one rank up, except that rank 4 of
      files e-h jumps to rank 9, and the field it reaches is valid. */
  lemma ForwardRedOnBoard(c: Coord)
    requires OnBoard(c)
    ensures Target(ForwardRed, c).None? <==> c.file >= FileI || c.rank == 8 || c.rank == 12
    ensures Target(ForwardRed, c).Some? ==>
      && OnBoard(Target(ForwardRed, c).value)
      && Target(ForwardRed, c).value.rank == (if c.rank == 4 && c.file >= FileE then 9 else c.rank + 1)
  {
    if Column(ForwardRed, c.file) == [] {
      TargetOffColumn(ForwardRed, c);
    } else {
      ColumnCoversFile(ForwardRed, c);
      var i :| 0 <= i < 8 && Column(ForwardRed, c.file)[i] == c.rank;
      TargetFollowsColumn(ForwardRed, c, i);
    }
  }

  /** ForwardYellow: from a valid field it gives up exactly on files a-d and
      at ranks 1 and 8; rank 9 goes to 5 on files i-l and to 4 on files e-h,
      ranks above 9 and ranks 2-4 go down one, ranks 5-7 go up one, and the
      field it reaches is valid. */
  lemma ForwardYellowOnBoard(c: Coord)
    requires OnBoard(c)
    ensures Steppable(ForwardYellow, c)
    ensures Target(ForwardYellow, c).None? <==> c.file <= FileD || c.rank == 1 || c.rank == 8
    ensures Target(ForwardYellow, c).Some? ==>
      && OnBoard(Target(ForwardYellow, c).value)
      && Target(ForwardYellow, c).value.rank ==
           (if c.rank == 9 then (if c.file >= FileI then 5 else 4)
            else if c.rank > 9 || c.rank < 5 then c.rank - 1
            else c.rank + 1)
  {
    if Column(ForwardYellow, c.file) == [] {
      TargetOffColumn(ForwardYellow, c);
    } else {
      ColumnCoversFile(ForwardYellow, c);
      var i :| 0 <= i < 8 && Column(ForwardYellow, c.file)[i] == c.rank;
      TargetFollowsColumn(ForwardYellow, c, i);
    }
  }

  /** On files e-h, where both directions walk, ForwardYellow undoes
      ForwardRed and ForwardRed undoes ForwardYellow. */
  lemma ForwardYellowUndoesForwardRed(c: Coord)
    requires OnBoard(c) && FileE <= c.file <= FileH
    ensures Target(ForwardRed, c).Some? ==>
      var t := Target(ForwardRed, c).value;
      Steppable(ForwardYellow, t) && Target(ForwardYellow, t) == Some(c)
    ensures Target(ForwardYellow, c).Some? ==>
      var t := Target(ForwardYellow, c).value;
      Target(ForwardRed, t) == Some(c)
  {
    var red, yellow := Column(ForwardRed, c.file), Column(ForwardYellow, c.file);
    ColumnCoversFile(ForwardRed, c);
    var i :| 0 <= i < 8 && red[i] == c.rank;
    assert yellow[7 - i] == c.rank;
    TargetFollowsColumn(ForwardRed, c, i);
    TargetFollowsColumn(ForwardYellow, c, 7 - i);
    if i < 7 {
      var t := Coord(c.file, red[i + 1]);
      assert yellow[6 - i] == t.rank;
      TargetFollowsColumn(ForwardYellow, t, 6 - i);
    }
    if i > 0 {
      var t := Coord(c.file, yellow[8 - i]);
      assert red[i - 1] == t.rank;
      TargetFollowsColumn(ForwardRed, t, i - 1);
    }
  }

  /** With the standard layout, `next` from a valid field finds a field
      exactly when the direction applies, and it is the field the layout puts
      at the target. */
  lemma NextOnLayout(d: Direction, start: Field, b: Board)
    requires StandardLayout(b.fields) && OnBoard(start.coord)
    ensures Steppable(d, start.coord)
    ensures Next(d, start, b).Some? <==> Target(d, start.coord).Some?
    ensures Next(d, start, b).Some? ==>
      var t := Target(d, start.coord).value;
      OnBoard(t) && Next(d, start, b) == Some(b.fields[IndexOf(t)])
  {
    if d.ForwardRed? {
      ForwardRedOnBoard(start.coord);
    } else {
      ForwardYellowOnBoard(start.coord);
    }
    match Target(d, start.coord)
    case None =>
    case Some(t) =>
      GetFieldOnLayout(b, t);
  }
}
