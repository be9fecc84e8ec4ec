/** The board topology: six 4x4 sections laid out at fixed anchors, the flat
    field order `get_fields` produces, and lookup of a field by coordinate. */
module Topology {
  import opened Types

  /** `cadd`: the letter `i` places after file `c`, computed in `u8`
      arithmetic. The requires keeps the character code and the sum inside
      one byte, where the conversions neither truncate nor overflow. */
  function Cadd(c: int, i: nat): int
    requires 0 <= CodeA + c && CodeA + c + i < 256
  {
    c + i
  }

  /** One 4x4 block of fields: `fields[i][j]` is file `startFile + i`, rank
      `startRank + j`. The rendering callback of the source is not modelled. */
  datatype Section = Section(fields: seq<seq<Field>>, startFile: int, startRank: nat)

  predicate WellShaped(s: Section) {
    |s.fields| == 4 && forall i | 0 <= i < 4 :: |s.fields[i]| == 4
  }

  /** The colour of the fields whose offsets sum to an even number ("tp2"). */
  function DarkType(inverse: bool): FieldType {
    if !inverse then Black else White
  }

  /** The colour of the other fields ("tp1"). */
  function LightType(inverse: bool): FieldType {
    if inverse then Black else White
  }

  /** `Section::new`: the block anchored at (f, r), coloured like a
      chessboard, with no pieces. */
  function SectionNew(f: int, r: nat, inverse: bool): (s: Section)
    requires 0 <= CodeA + f && CodeA + f + 3 < 256
    ensures WellShaped(s)
    ensures s.startFile == f && s.startRank == r
    ensures forall i, j | 0 <= i < 4 && 0 <= j < 4 ::
      s.fields[i][j].coord == Coord(f + i, r + j) && s.fields[i][j].piece == None
    ensures forall i, j | 0 <= i < 4 && 0 <= j < 4 ::
      s.fields[i][j].typ == (if (i + j) % 2 == 0 then DarkType(inverse) else LightType(inverse))
  {
    var tp1 := LightType(inverse);
    var tp2 := DarkType(inverse);
    var f1, f2, f3 := Cadd(f, 1), Cadd(f, 2), Cadd(f, 3);
    var rows := [
      [Field(Coord(f, r), tp2, None), Field(Coord(f, r + 1), tp1, None),
       Field(Coord(f, r + 2), tp2, None), Field(Coord(f, r + 3), tp1, None)],
      [Field(Coord(f1, r), tp1, None), Field(Coord(f1, r + 1), tp2, None),
       Field(Coord(f1, r + 2), tp1, None), Field(Coord(f1, r + 3), tp2, None)],
      [Field(Coord(f2, r), tp2, None), Field(Coord(f2, r + 1), tp1, None),
       Field(Coord(f2, r + 2), tp2, None), Field(Coord(f2, r + 3), tp1, None)],
      [Field(Coord(f3, r), tp1, None), Field(Coord(f3, r + 1), tp2, None),
       Field(Coord(f3, r + 2), tp1, None), Field(Coord(f3, r + 3), tp2, None)]
    ];
    assert forall i, j | 0 <= i < 4 && 0 <= j < 4 ::
      rows[i][j] == Field(Coord(f + i, r + j), if (i + j) % 2 == 0 then tp2 else tp1, None)
    by {
      forall i, j | 0 <= i < 4 && 0 <= j < 4
        ensures rows[i][j] == Field(Coord(f + i, r + j), if (i + j) % 2 == 0 then tp2 else tp1, None)
      {
        assert i == 0 || i == 1 || i == 2 || i == 3;
        assert j == 0 || j == 1 || j == 2 || j == 3;
      }
    }
    Section(rows, f, r)
  }

  /** The fields of four rows of four, row after row. */
  function FlattenRows(rows: seq<seq<Field>>): (r: seq<Field>)
    requires forall i | 0 <= i < |rows| :: |rows[i]| == 4
    ensures |r| == 4 * |rows|
    ensures forall k | 0 <= k < |r| :: r[k] == rows[k / 4][k % 4]
  {
    if rows == [] then []
    else
      var tail := FlattenRows(rows[1..]);
      assert forall k | 4 <= k < 4 * |rows| :: (rows[0] + tail)[k] == rows[k / 4][k % 4]
      by {
        forall k | 4 <= k < 4 * |rows|
          ensures (rows[0] + tail)[k] == rows[k / 4][k % 4]
        {
          var m := k - 4;
          assert (rows[0] + tail)[k] == tail[m];
          assert m / 4 + 1 == k / 4 && m % 4 == k % 4;
        }
      }
      rows[0] + tail
  }

  /** `get_fields`: all fields of the sections, section after section, each
      section row after row. Field `k` is row `(k % 16) / 4`, column `k % 4`
      of section `k / 16`. */
  function GetFields(secs: seq<Section>): (r: seq<Field>)
    requires forall s | 0 <= s < |secs| :: WellShaped(secs[s])
    ensures |r| == 16 * |secs|
  {
    if secs == [] then []
    else
      assert WellShaped(secs[0]);
      assert forall s | 0 <= s < |secs[1..]| :: secs[1..][s] == secs[s + 1];
      FlattenRows(secs[0].fields) + GetFields(secs[1..])
  }

  /** `f` is row `(k % 16) / 4`, column `k % 4` of section `k / 16`. */
  predicate FieldOfSections(secs: seq<Section>, k: nat, f: Field) {
    var s, i, j := k / 16, (k % 16) / 4, k % 4;
    && s < |secs| && WellShaped(secs[s]) && i < 4 && j < 4
    && f == secs[s].fields[i][j]
  }

  /** The order of `get_fields`: field `k` of the flattened board is row
      `(k % 16) / 4`, column `k % 4` of section `k / 16`. */
  lemma {:induction false} GetFieldsIndex(secs: seq<Section>, k: nat)
    requires forall s | 0 <= s < |secs| :: WellShaped(secs[s])
    requires k < 16 * |secs|
    ensures FieldOfSections(secs, k, GetFields(secs)[k])
    decreases |secs|
  {
    var rest := secs[1..];
    assert forall s | 0 <= s < |rest| :: rest[s] == secs[s + 1];
    var head, tail := FlattenRows(secs[0].fields), GetFields(rest);
    assert GetFields(secs) == head + tail;
    if k < 16 {
      assert GetFields(secs)[k] == head[k];
    } else {
      var m := k - 16;
      assert GetFields(secs)[k] == tail[m];
      GetFieldsIndex(rest, m);
      NextSectionIndex(m);
    }
  }

  /** Moving one section on keeps the row and the column. */
  lemma NextSectionIndex(m: nat)
    ensures (m + 16) / 16 == m / 16 + 1
    ensures (m + 16) % 16 == m % 16 && (m + 16) % 4 == m % 4
  {
  }

  /** The six sections of `Board::new`, in the order the board stores them. */
  function BoardSections(): (secs: seq<Section>)
    ensures |secs| == 6
    ensures forall s | 0 <= s < 6 :: WellShaped(secs[s])
  {
    [ SectionNew(FileA, 1, false),
      SectionNew(FileE, 1, false),
      SectionNew(FileE, 9, false),
      SectionNew(FileI, 9, true),
      SectionNew(FileI, 5, false),
      SectionNew(FileA, 5, false) ]
  }

  /** Section `s` of `Board::new` is the block at anchor `s`; only the
      fourth (i9) has its colours inverted. */
  lemma BoardSectionsAt(s: nat)
    requires s < 6
    ensures BoardSections()[s] == SectionNew(AnchorFile(s), AnchorRank(s), s == 3)
  {
    assert s == 0 || s == 1 || s == 2 || s == 3 || s == 4 || s == 5;
  }

  /** Two fields of a section that are neighbours along a file or a rank
      have different colours. */
  lemma SectionColoursAlternate(f: int, r: nat, inverse: bool, i: nat, j: nat)
    requires 0 <= CodeA + f && CodeA + f + 3 < 256
    requires i < 4 && j < 4
    ensures var s := SectionNew(f, r, inverse);
      && (i < 3 ==> s.fields[i][j].typ != s.fields[i + 1][j].typ)
      && (j < 3 ==> s.fields[i][j].typ != s.fields[i][j + 1].typ)
  {
  }

  /** `Board::new`: the 96 empty fields, Red to move, nothing selected. */
  function BoardNew(): (b: Board)
    ensures StandardLayout(b.fields)
    ensures b.current == Red && b.active == None
    ensures forall k | 0 <= k < |b.fields| :: b.fields[k].piece == None
    ensures forall k | 0 <= k < |b.fields| ::
      b.fields[k].typ == (if ((k % 16) / 4 + k % 4) % 2 == 0 then DarkType(k / 16 == 3) else LightType(k / 16 == 3))
  {
    var secs := BoardSections();
    var fs := GetFields(secs);
    assert forall k | 0 <= k < 96 ::
      fs[k] == Field(LayoutCoord(k),
                     if ((k % 16) / 4 + k % 4) % 2 == 0 then DarkType(k / 16 == 3) else LightType(k / 16 == 3),
                     None)
    by {
      forall k | 0 <= k < 96
        ensures fs[k] == Field(LayoutCoord(k),
                     if ((k % 16) / 4 + k % 4) % 2 == 0 then DarkType(k / 16 == 3) else LightType(k / 16 == 3),
                     None)
      {
        GetFieldsIndex(secs, k);
        BoardSectionsAt(k / 16);
      }
    }
    Board(fs, Red, None)
  }

  /** Anchor file of section `s` of the standard layout. */
  function AnchorFile(s: nat): int
    requires s < 6
  {
    if s == 0 || s == 5 then FileA else if s <= 2 then FileE else FileI
  }

  /** Anchor rank of section `s` of the standard layout. */
  function AnchorRank(s: nat): nat
    requires s < 6
  {
    if s <= 1 then 1 else if s <= 3 then 9 else 5
  }

  /** The coordinate of the `k`-th field of the standard layout. */
  function LayoutCoord(k: nat): Coord
    requires k < 96
  {
    Coord(AnchorFile(k / 16) + (k % 16) / 4, AnchorRank(k / 16) + k % 4)
  }

  /** The fields sit where `Board::new` puts them; only pieces may differ. */
  predicate StandardLayout(fs: seq<Field>) {
    |fs| == 96 && forall k | 0 <= k < 96 :: fs[k].coord == LayoutCoord(k)
  }

  /** The valid coordinates as ranges: files a-d carry ranks 1-8, files e-h
      ranks 1-4 and 9-12, files i-l ranks 5-12. */
  predicate OnBoard(c: Coord) {
    || (FileA <= c.file <= FileD && 1 <= c.rank <= 8)
    || (FileE <= c.file <= FileH && (1 <= c.rank <= 4 || 9 <= c.rank <= 12))
    || (FileI <= c.file <= FileL && 5 <= c.rank <= 12)
  }

  /** The section whose block holds a valid coordinate. */
  function SectionOf(c: Coord): (s: nat)
    requires OnBoard(c)
    ensures s < 6
    ensures AnchorFile(s) <= c.file < AnchorFile(s) + 4
    ensures AnchorRank(s) <= c.rank < AnchorRank(s) + 4
  {
    if c.file <= FileD then (if c.rank <= 4 then 0 else 5)
    else if c.file <= FileH then (if c.rank <= 4 then 1 else 2)
    else (if c.rank >= 9 then 3 else 4)
  }

  /** Where a valid coordinate sits in the standard layout. */
  function IndexOf(c: Coord): (k: nat)
    requires OnBoard(c)
    ensures k < 96 && LayoutCoord(k) == c
    ensures k / 16 == SectionOf(c)
  {
    var s := SectionOf(c);
    SplitIndex(s, c.file - AnchorFile(s), c.rank - AnchorRank(s));
    16 * s + 4 * (c.file - AnchorFile(s)) + (c.rank - AnchorRank(s))
  }

  /** Section, row and column of a flat index. */
  lemma SplitIndex(s: nat, i: nat, j: nat)
    requires i < 4 && j < 4
    ensures var m := 16 * s + 4 * i + j; m / 16 == s && (m % 16) / 4 == i && m % 4 == j
  {
  }

  /** The coordinate at section `s`, row `i`, column `j` of the layout. */
  lemma LayoutCoordAt(s: nat, i: nat, j: nat)
    requires s < 6 && i < 4 && j < 4
    ensures 16 * s + 4 * i + j < 96
    ensures LayoutCoord(16 * s + 4 * i + j) == Coord(AnchorFile(s) + i, AnchorRank(s) + j)
  {
    SplitIndex(s, i, j);
  }

  /** Every layout coordinate is valid and `IndexOf` finds it back. */
  lemma LayoutCoordOnBoard(k: nat)
    requires k < 96
    ensures OnBoard(LayoutCoord(k))
    ensures IndexOf(LayoutCoord(k)) == k
  {
    JoinIndex(k);
    var s, i, j := k / 16, (k % 16) / 4, k % 4;
    var c := LayoutCoord(k);
    assert c == Coord(AnchorFile(s) + i, AnchorRank(s) + j);
    assert SectionOf(c) == s by {
      assert s == 0 || s == 1 || s == 2 || s == 3 || s == 4 || s == 5;
    }
  }

  /** A flat index is its section, row and column put back together. */
  lemma JoinIndex(k: nat)
    ensures (k % 16) / 4 < 4 && k % 4 < 4
    ensures k == 16 * (k / 16) + 4 * ((k % 16) / 4) + k % 4
  {
    var r := k % 16;
    assert k == 16 * (k / 16) + r;
    assert r == 4 * (r / 4) + r % 4;
    assert k % 4 == r % 4 by {
      assert k == 4 * (4 * (k / 16) + r / 4) + r % 4;
    }
  }

  /** A field of a standard-layout board sits on a valid coordinate, at the
      index the layout gives that coordinate. */
  lemma LayoutMember(fs: seq<Field>, f: Field)
    requires StandardLayout(fs) && f in fs
    ensures OnBoard(f.coord) && fs[IndexOf(f.coord)] == f
  {
    var k :| 0 <= k < |fs| && fs[k] == f;
    LayoutCoordOnBoard(k);
  }

  /** The layout lists each valid coordinate exactly once and nothing else. */
  lemma LayoutIsExactlyTheValidCoordinates()
    ensures forall k1, k2 | 0 <= k1 < 96 && 0 <= k2 < 96 && k1 != k2 :: LayoutCoord(k1) != LayoutCoord(k2)
    ensures forall c :: OnBoard(c) <==> exists k | 0 <= k < 96 :: LayoutCoord(k) == c
  {
    forall k | 0 <= k < 96
      ensures OnBoard(LayoutCoord(k)) && IndexOf(LayoutCoord(k)) == k
    {
      LayoutCoordOnBoard(k);
    }
    forall c | OnBoard(c)
      ensures exists k | 0 <= k < 96 :: LayoutCoord(k) == c
    {
      assert LayoutCoord(IndexOf(c)) == c;
    }
  }

  /** `Board::new` yields 96 fields with pairwise distinct coordinates that
      are exactly the valid ones. */
  lemma BoardNewCoordinates()
    ensures |BoardNew().fields| == 96
    ensures forall k1, k2 | 0 <= k1 < 96 && 0 <= k2 < 96 && k1 != k2 ::
      BoardNew().fields[k1].coord != BoardNew().fields[k2].coord
    ensures forall c :: OnBoard(c) <==> exists k | 0 <= k < 96 :: BoardNew().fields[k].coord == c
  {
    var fs := BoardNew().fields;
    LayoutIsExactlyTheValidCoordinates();
    forall c | OnBoard(c)
      ensures exists k | 0 <= k < 96 :: fs[k].coord == c
    {
      assert fs[IndexOf(c)].coord == c;
    }
  }

  /** The first index at or after `i` whose field has coordinate `c`. */
  function FindFrom(fs: seq<Field>, c: Coord, i: nat): (r: Option<nat>)
    requires i <= |fs|
    ensures r.Some? ==> i <= r.value < |fs| && fs[r.value].coord == c
    ensures r.Some? ==> forall j | i <= j < r.value :: fs[j].coord != c
    ensures r.None? ==> forall j | i <= j < |fs| :: fs[j].coord != c
    decreases |fs| - i
  {
    if i == |fs| then None
    else if fs[i].coord == c then Some(i)
    else FindFrom(fs, c, i + 1)
  }

  /** The linear scan of `get_section_and_field`: the first field in board
      order with coordinate `c`. */
  function FindIndex(fs: seq<Field>, c: Coord): (r: Option<nat>)
    ensures r.Some? ==> r.value < |fs| && fs[r.value].coord == c
    ensures r.Some? ==> forall j | 0 <= j < r.value :: fs[j].coord != c
    ensures r.None? <==> forall j | 0 <= j < |fs| :: fs[j].coord != c
  {
    FindFrom(fs, c, 0)
  }

  /** The scan looks at coordinates only, so changing pieces does not move it. */
  lemma FindIndexIgnoresPieces(fs: seq<Field>, gs: seq<Field>, c: Coord)
    requires |fs| == |gs|
    requires forall k | 0 <= k < |fs| :: fs[k].coord == gs[k].coord
    ensures FindIndex(fs, c) == FindIndex(gs, c)
  {
    match FindIndex(fs, c)
    case None =>
    case Some(k) =>
      assert gs[k].coord == c;
  }

  /** On the standard layout the scan finds exactly the valid coordinates,
      at the index the layout gives them. */
  lemma FindIndexOnLayout(fs: seq<Field>, c: Coord)
    requires StandardLayout(fs)
    ensures FindIndex(fs, c).Some? <==> OnBoard(c)
    ensures OnBoard(c) ==> FindIndex(fs, c) == Some(IndexOf(c))
  {
    if OnBoard(c) {
      assert fs[IndexOf(c)].coord == c;
      LayoutCoordOnBoard(FindIndex(fs, c).value);
    } else if FindIndex(fs, c).Some? {
      LayoutCoordOnBoard(FindIndex(fs, c).value);
    }
  }

  /** The section copy `get_section_and_field` returns with a field: the
      current contents of section `s` together with its anchor. */
  function SectionAt(fs: seq<Field>, s: nat): (sect: Section)
    requires |fs| == 96 && s < 6
    ensures WellShaped(sect)
    ensures forall i, j | 0 <= i < 4 && 0 <= j < 4 :: sect.fields[i][j] == fs[16 * s + 4 * i + j]
  {
    Section(seq(4, i requires 0 <= i < 4 => fs[16 * s + 4 * i .. 16 * s + 4 * i + 4]),
            AnchorFile(s), AnchorRank(s))
  }

  /** `get_section_and_field`: the first field with the coordinate, together
      with the section it belongs to; None when no field has it. */
  function GetSectionAndField(b: Board, file: int, rank: nat): (r: Option<(Section, Field)>)
    requires |b.fields| == 96
    ensures r.Some? <==> exists k | 0 <= k < 96 :: b.fields[k].coord == Coord(file, rank)
    ensures r.Some? ==> r.value.1.coord == Coord(file, rank) && r.value.1 in b.fields
    ensures r.Some? && StandardLayout(b.fields) ==>
      var (sect, f) := r.value;
      && WellShaped(sect)
      && 0 <= file - sect.startFile < 4 && 0 <= rank - sect.startRank < 4
      && sect.fields[file - sect.startFile][rank - sect.startRank] == f
  {
    match FindIndex(b.fields, Coord(file, rank))
    case None => None
    case Some(k) =>
      var sect := SectionAt(b.fields, k / 16);
      SectionAtHoldsField(b.fields, k);
      Some((sect, b.fields[k]))
  }

  /** On the standard layout field `k` sits in the copy of its section at
      its offset from the section's anchor. */
  lemma SectionAtHoldsField(fs: seq<Field>, k: nat)
    requires |fs| == 96 && k < 96
    ensures StandardLayout(fs) ==>
      var sect, c := SectionAt(fs, k / 16), fs[k].coord;
      && 0 <= c.file - sect.startFile < 4 && 0 <= c.rank - sect.startRank < 4
      && sect.fields[c.file - sect.startFile][c.rank - sect.startRank] == fs[k]
  {
    JoinIndex(k);
    var sect := SectionAt(fs, k / 16);
    assert sect.fields[(k % 16) / 4][k % 4] == fs[k];
  }

  /** `get_field`: the field of `get_section_and_field`, as a read-only copy. */
  function GetField(b: Board, file: int, rank: nat): (r: Option<Field>)
    requires |b.fields| == 96
    ensures r.Some? <==> exists k | 0 <= k < 96 :: b.fields[k].coord == Coord(file, rank)
    ensures r.Some? ==> r.value.coord == Coord(file, rank) && r.value in b.fields
  {
    match GetSectionAndField(b, file, rank)
    case None => None
    case Some((_, f)) => Some(f)
  }

  /** On the standard layout `get_field` succeeds exactly on the valid
      coordinates, returning the field the layout puts there. */
  lemma GetFieldOnLayout(b: Board, c: Coord)
    requires StandardLayout(b.fields)
    ensures GetField(b, c.file, c.rank).Some? <==> OnBoard(c)
    ensures OnBoard(c) ==> GetField(b, c.file, c.rank) == Some(b.fields[IndexOf(c)])
  {
    FindIndexOnLayout(b.fields, c);
  }

  /** Rebuilding a section from the flattened fields gives back its rows. */
  lemma SectionAtOfFlattening(secs: seq<Section>, s: nat)
    requires |secs| == 6 && s < 6
    requires forall t | 0 <= t < 6 :: WellShaped(secs[t])
    ensures SectionAt(GetFields(secs), s).fields == secs[s].fields
  {
    var sect := SectionAt(GetFields(secs), s);
    forall i | 0 <= i < 4
      ensures sect.fields[i] == secs[s].fields[i]
    {
      forall j | 0 <= j < 4
        ensures sect.fields[i][j] == secs[s].fields[i][j]
      {
        SplitIndex(s, i, j);
        GetFieldsIndex(secs, 16 * s + 4 * i + j);
      }
    }
  }

  /** When the board's fields are the flattening of six sections anchored
      as in `Board::new`, `get_section_and_field` hands back the section that
      holds the coordinate, as those sections currently are. */
  lemma GetSectionAndFieldFindsSection(secs: seq<Section>, b: Board, c: Coord)
    requires |secs| == 6
    requires forall s | 0 <= s < 6 :: WellShaped(secs[s])
    requires forall s | 0 <= s < 6 :: secs[s].startFile == AnchorFile(s) && secs[s].startRank == AnchorRank(s)
    requires b.fields == GetFields(secs) && StandardLayout(b.fields)
    requires OnBoard(c)
    ensures var r := GetSectionAndField(b, c.file, c.rank);
      r.Some? && r.value.0 == secs[SectionOf(c)] && r.value.1 == b.fields[IndexOf(c)]
  {
    FindIndexOnLayout(b.fields, c);
    SectionAtOfFlattening(secs, SectionOf(c));
  }
}
