/** Day 4: a room of paper rolls on a grid. A roll can be reached by a forklift when fewer
    than four of the eight cells around it hold rolls; part one counts those rolls, part two
    keeps removing every reachable roll at once until none is reachable. */
module Day4 {
  import opened Common

  /** The room: one cell per '.' or '@' of the grid, row after row, true for a roll ('@').
      `height` is one more than the number of line breaks. */
  datatype Room = Room(cells: seq<bool>, width: nat, height: nat)

  // ---------------------------------------------------------------------------------------
  // Reading the grid
  // ---------------------------------------------------------------------------------------

  predicate Allowed(c: char) {
    c == '.' || c == '@' || c == '\n' || c == '\r'
  }

  predicate AllAllowed(grid: string) {
    forall i :: 0 <= i < |grid| ==> Allowed(grid[i])
  }

  const JAGGED: string := "Jagged grid detected!"
  const BAD_CHARACTER: string := "The only character allowed in the grid are \\r, \\n, '@', and '.'"
  const NO_WIDTH: string := "Width of grid not found!  No newlines detected!"

  /** Room::from's state after some characters: the first row's width once a line break has
      been read, the width of the row being read, the row count and the cells so far. */
  datatype Scan = Scan(gridWidth: Option<nat>, width: nat, height: nat, cells: seq<bool>)

  /** Room::from's handling of one character. */
  function ScanStep(s: Scan, c: char): Result<Scan> {
    if c == '\r' then Ok(s)
    else if c == '\n' then
      if s.gridWidth.Some? && s.width != s.gridWidth.value then Err(JAGGED)
      else
        var known := if s.gridWidth.Some? then s.gridWidth.value else s.width;
        Ok(Scan(Some(known), 0, s.height + 1, s.cells))
    else if c == '.' then Ok(s.(width := s.width + 1, cells := s.cells + [false]))
    else if c == '@' then Ok(s.(width := s.width + 1, cells := s.cells + [true]))
    else Err(BAD_CHARACTER)
  }

  /** The state after the characters of `grid` in order; the first panic ends the scan. */
  function ScanPrefix(grid: string): Result<Scan> {
    if grid == [] then Ok(Scan(None, 0, 1, []))
    else
      var prev := ScanPrefix(grid[..|grid| - 1]);
      if prev.Err? then prev else ScanStep(prev.value, grid[|grid| - 1])
  }

  /** Room::from: the scanned cells, the first row's width and the row count; a grid with no
      line break has no width. */
  function RoomOf(grid: string): Result<Room> {
    var s := ScanPrefix(grid);
    if s.Err? then Err(s.msg)
    else if s.value.gridWidth.None? then Err(NO_WIDTH)
    else Ok(Room(s.value.cells, s.value.gridWidth.value, s.value.height))
  }

  /** Room::from's loop over the characters. */
  method FromGrid(grid: string) returns (r: Result<Room>)
    ensures r == RoomOf(grid)
  {
    var gridWidth: Option<nat> := None;
    var width := 0;
    var cells: seq<bool> := [];
    var height := 1;
    for spot := 0 to |grid|
      invariant ScanPrefix(grid[..spot]) == Ok(Scan(gridWidth, width, height, cells))
    {
      var tp := grid[spot];
      ScanPrefixSnoc(grid, spot);
      if tp == '\r' {
        continue;
      }
      if tp == '\n' {
        if gridWidth.Some? {
          if width != gridWidth.value {
            ScanPrefixFails(grid, spot + 1, JAGGED);
            return Err(JAGGED);
          }
        } else {
          gridWidth := Some(width);
        }
        width := 0;
        height := height + 1;
        continue;
      }
      width := width + 1;
      if tp == '.' {
        cells := cells + [false];
      } else if tp == '@' {
        cells := cells + [true];
      } else {
        ScanPrefixFails(grid, spot + 1, BAD_CHARACTER);
        return Err(BAD_CHARACTER);
      }
    }
    assert grid[..|grid|] == grid;
    if gridWidth.None? {
      return Err(NO_WIDTH);
    }
    return Ok(Room(cells, gridWidth.value, height));
  }

  lemma ScanPrefixSnoc(grid: string, i: nat)
    requires i < |grid|
    ensures ScanPrefix(grid[..i + 1])
      == if ScanPrefix(grid[..i]).Err? then ScanPrefix(grid[..i]) else ScanStep(ScanPrefix(grid[..i]).value, grid[i])
  {
    TakeInit(grid, i);
  }

  /** Once a prefix fails, the whole scan fails with the same message. */
  lemma {:induction false} ScanPrefixFails(grid: string, i: nat, msg: string)
    requires 0 < i <= |grid| && ScanPrefix(grid[..i]) == Err(msg)
    ensures ScanPrefix(grid) == Err(msg)
    decreases |grid| - i
  {
    if i < |grid| {
      TakeInit(grid, i);
      ScanPrefixFails(grid, i + 1, msg);
    } else {
      assert grid[..i] == grid;
    }
  }

  // ---------------------------------------------------------------------------------------
  // What the scan reads: the rows and the cells of the text
  // ---------------------------------------------------------------------------------------

  /** The text's rows: the pieces between line breaks, carriage returns dropped. */
  function RowsOf(grid: string): (rows: seq<string>)
    ensures |rows| >= 1
  {
    if grid == [] then [[]]
    else
      var rows := RowsOf(grid[..|grid| - 1]);
      var c := grid[|grid| - 1];
      if c == '\n' then rows + [[]]
      else if c == '\r' then rows
      else rows[..|rows| - 1] + [rows[|rows| - 1] + [c]]
  }

  /** The cells of the text: one per '.' or '@', in order. */
  function CellsOf(grid: string): seq<bool> {
    if grid == [] then []
    else
      var cells := CellsOf(grid[..|grid| - 1]);
      var c := grid[|grid| - 1];
      if c == '.' then cells + [false] else if c == '@' then cells + [true] else cells
  }

  /** Every row ended by a line break is as long as the first; the last row is not checked. */
  ghost predicate Aligned(rows: seq<string>) {
    forall k :: 0 <= k < |rows| - 1 ==> |rows[k]| == |rows[0]|
  }

  /** The scan state that reading `grid` should leave: one row per line break plus one, the
      last row's width, the first row's width once it is complete, the text's cells, and as
      many cells as the complete rows and the last one hold. */
  ghost predicate ScanMatches(s: Scan, grid: string) {
    var rows := RowsOf(grid);
    var n := |rows|;
    && s.height == n
    && s.width == |rows[n - 1]|
    && s.gridWidth == (if n >= 2 then Some(|rows[0]|) else None)
    && s.cells == CellsOf(grid)
    && |s.cells| == TotalLength(rows)
  }

  /** The characters in all the rows. */
  function TotalLength(rows: seq<string>): nat {
    if rows == [] then 0 else TotalLength(rows[..|rows| - 1]) + |rows[|rows| - 1]|
  }

  /** Aligned rows hold the first row's width for every complete row, plus the last. */
  lemma {:induction false} AlignedLength(rows: seq<string>)
    requires |rows| >= 1 && Aligned(rows)
    ensures TotalLength(rows) == (|rows| - 1) * |rows[0]| + |rows[|rows| - 1]|
  {
    var n := |rows|;
    if n >= 2 {
      var init := rows[..n - 1];
      assert init[0] == rows[0] && init[n - 2] == rows[n - 2];
      assert Aligned(init) by {
        forall k | 0 <= k < |init| - 1 ensures |init[k]| == |init[0]| {
          assert init[k] == rows[k];
        }
      }
      AlignedLength(init);
      MulSucc(n - 1, |rows[0]|);
    } else {
      assert rows[..0] == [];
    }
  }

  /** The scan succeeds exactly on texts of allowed characters whose complete rows are all
      as long as the first, and then it has read the text's rows and cells. */
  lemma {:induction false} ScanPrefixSpec(grid: string)
    ensures ScanPrefix(grid).Ok? <==> AllAllowed(grid) && Aligned(RowsOf(grid))
    ensures ScanPrefix(grid).Ok? ==> ScanMatches(ScanPrefix(grid).value, grid)
  {
    if grid == [] {
      assert RowsOf(grid) == [[]];
      assert TotalLength([[]]) == TotalLength([]);
    } else {
      var init, c := grid[..|grid| - 1], grid[|grid| - 1];
      assert grid == init + [c];
      ScanPrefixSpec(init);
      AllAllowedSnoc(init, c);
      var prev := ScanPrefix(init);
      ScanPrefixUnfold(init, c, prev);
      if prev.Err? {
        if Allowed(c) {
          AlignedShrinks(init, c);
        }
      } else if !Allowed(c) {
      } else if c == '\r' {
        ScanCarriageReturn(init, prev.value);
      } else if c == '\n' {
        ScanLineBreak(init, prev.value);
      } else {
        ScanCell(init, c, prev.value);
        CellRows(init, c, RowsOf(init), RowsOf(grid));
      }
    }
  }

  lemma ScanPrefixUnfold(init: string, c: char, prev: Result<Scan>)
    requires prev == ScanPrefix(init)
    ensures ScanPrefix(init + [c]) == if prev.Err? then prev else ScanStep(prev.value, c)
  {
    assert (init + [c])[..|init|] == init;
  }

  lemma RowsOfUnfold(init: string, c: char, rows: seq<string>)
    requires rows == RowsOf(init)
    ensures RowsOf(init + [c]) ==
      if c == '\n' then rows + [[]]
      else if c == '\r' then rows
      else rows[..|rows| - 1] + [rows[|rows| - 1] + [c]]
  {
    assert (init + [c])[..|init|] == init;
  }

  lemma CellsOfUnfold(init: string, c: char, cells: seq<bool>)
    requires cells == CellsOf(init)
    ensures CellsOf(init + [c]) ==
      if c == '.' then cells + [false] else if c == '@' then cells + [true] else cells
  {
    assert (init + [c])[..|init|] == init;
  }

  lemma AllAllowedSnoc(init: string, c: char)
    ensures AllAllowed(init + [c]) <==> AllAllowed(init) && Allowed(c)
  {
    var grid := init + [c];
    if AllAllowed(init) && Allowed(c) {
      forall i | 0 <= i < |grid| ensures Allowed(grid[i]) {
        if i < |init| {
          assert grid[i] == init[i];
        } else {
          assert grid[i] == c;
        }
      }
    }
    if AllAllowed(grid) {
      assert grid[|init|] == c;
      forall i | 0 <= i < |init| ensures Allowed(init[i]) {
        assert init[i] == grid[i];
      }
    }
  }

  /** An allowed character never repairs the rows read before it. */
  lemma AlignedShrinks(init: string, c: char)
    requires Allowed(c)
    ensures Aligned(RowsOf(init + [c])) ==> Aligned(RowsOf(init))
  {
    var rows := RowsOf(init);
    RowsOfUnfold(init, c, rows);
    var rows' := RowsOf(init + [c]);
    if Aligned(rows') && |rows| >= 2 {
      forall k | 0 <= k < |rows| - 1 ensures |rows[k]| == |rows[0]| {
        assert rows[k] == rows'[k] && rows[0] == rows'[0];
      }
    }
  }

  lemma ScanCarriageReturn(init: string, s: Scan)
    requires ScanMatches(s, init)
    ensures ScanStep(s, '\r') == Ok(s) && ScanMatches(s, init + ['\r'])
    ensures Aligned(RowsOf(init + ['\r'])) <==> Aligned(RowsOf(init))
  {
    RowsOfUnfold(init, '\r', RowsOf(init));
    CellsOfUnfold(init, '\r', CellsOf(init));
  }

  lemma ScanLineBreak(init: string, s: Scan)
    requires ScanMatches(s, init)
    ensures Aligned(RowsOf(init)) ==> (ScanStep(s, '\n').Ok? <==> Aligned(RowsOf(init + ['\n'])))
    ensures ScanStep(s, '\n').Ok? && Aligned(RowsOf(init)) ==> ScanMatches(ScanStep(s, '\n').value, init + ['\n'])
    ensures Aligned(RowsOf(init + ['\n'])) ==> Aligned(RowsOf(init))
  {
    AlignedShrinks(init, '\n');
    if ScanStep(s, '\n').Ok? {
      if Aligned(RowsOf(init)) {
        LineBreakCloses(init, s);
      }
    } else {
      LineBreakJagged(init, s);
    }
  }

  /** A complete row as long as the first keeps the rows aligned, and the scan's new state
      matches the text. */
  lemma LineBreakCloses(init: string, s: Scan)
    requires ScanMatches(s, init) && ScanStep(s, '\n').Ok? && Aligned(RowsOf(init))
    ensures Aligned(RowsOf(init + ['\n'])) && ScanMatches(ScanStep(s, '\n').value, init + ['\n'])
  {
    var rows := RowsOf(init);
    var n := |rows|;
    RowsOfUnfold(init, '\n', rows);
    CellsOfUnfold(init, '\n', CellsOf(init));
    var rows' := RowsOf(init + ['\n']);
    assert rows'[0] == rows[0] && rows'[n] == [];
    forall k | 0 <= k < n ensures |rows'[k]| == |rows'[0]| {
      assert rows'[k] == rows[k];
    }
    assert rows'[..n] == rows;
    assert TotalLength(rows') == TotalLength(rows);
  }

  /** A complete row of another width than the first breaks the alignment. */
  lemma LineBreakJagged(init: string, s: Scan)
    requires ScanMatches(s, init) && ScanStep(s, '\n').Err?
    ensures !Aligned(RowsOf(init + ['\n']))
  {
    var rows := RowsOf(init);
    var n := |rows|;
    RowsOfUnfold(init, '\n', rows);
    var rows' := RowsOf(init + ['\n']);
    assert rows'[0] == rows[0] && rows'[n - 1] == rows[n - 1];
  }

  lemma ScanCell(init: string, c: char, s: Scan)
    requires c == '.' || c == '@'
    requires ScanMatches(s, init)
    ensures ScanStep(s, c).Ok? && ScanMatches(ScanStep(s, c).value, init + [c])
  {
    var rows' := RowsOf(init + [c]);
    CellRows(init, c, RowsOf(init), rows');
    CellsOfUnfold(init, c, CellsOf(init));
    var s' := Scan(s.gridWidth, s.width + 1, s.height, CellsOf(init + [c]));
    assert ScanStep(s, c) == Ok(s');
  }

  /** A cell character lengthens the last row and leaves the others alone. */
  lemma CellRows(init: string, c: char, rows: seq<string>, rows': seq<string>)
    requires c == '.' || c == '@'
    requires rows == RowsOf(init) && rows' == RowsOf(init + [c])
    ensures |rows'| == |rows| && |rows'[|rows| - 1]| == |rows[|rows| - 1]| + 1
    ensures forall k :: 0 <= k < |rows| - 1 ==> rows'[k] == rows[k]
    ensures |rows| >= 2 ==> rows'[0] == rows[0]
    ensures Aligned(rows') <==> Aligned(rows)
    ensures TotalLength(rows') == TotalLength(rows) + 1
  {
    RowsOfUnfold(init, c, rows);
    LastRowLonger(rows, c);
  }

  lemma LastRowLonger(rows: seq<string>, c: char)
    requires |rows| >= 1
    ensures TotalLength(rows[..|rows| - 1] + [rows[|rows| - 1] + [c]]) == TotalLength(rows) + 1
  {
    var n := |rows|;
    var rows' := rows[..n - 1] + [rows[n - 1] + [c]];
    assert rows'[..n - 1] == rows[..n - 1];
  }

  /** Room::from succeeds exactly on texts of '.', '@', line breaks and carriage returns with
      at least one line break and every complete row as long as the first; the room then
      has the text's cells, the first row's width and one row per line break plus one. */
  lemma RoomOfSpec(grid: string)
    ensures RoomOf(grid).Ok? <==> AllAllowed(grid) && Aligned(RowsOf(grid)) && |RowsOf(grid)| >= 2
    ensures RoomOf(grid).Ok? ==>
      RoomOf(grid).value == Room(CellsOf(grid), |RowsOf(grid)[0]|, |RowsOf(grid)|)
  {
    ScanPrefixSpec(grid);
  }

  /** Complete rows and the last: the room holds width x height cells exactly when the last
      row is as long as the first, so a text ending in a line break (an empty last row) only
      gives such a room when its rows are empty. */
  lemma RoomCellCount(grid: string)
    requires RoomOf(grid).Ok?
    ensures var room := RoomOf(grid).value;
            var rows := RowsOf(grid);
            |room.cells| == room.width * room.height <==> |rows[|rows| - 1]| == room.width
  {
    ScanPrefixSpec(grid);
    var rows := RowsOf(grid);
    var n := |rows|;
    var room := RoomOf(grid).value;
    assert room.width == |rows[0]| && room.height == n && n >= 2;
    AlignedLength(rows);
    assert |room.cells| == (n - 1) * room.width + |rows[n - 1]|;
    RowsArea(n, room.width, |rows[n - 1]|);
  }

  lemma RowsArea(n: nat, w: nat, last: nat)
    requires n >= 1
    ensures (n - 1) * w + last == w * n <==> last == w
  {
    MulSucc(n, w);
  }

  /** Every line break adds a row. */
  lemma {:induction false} RowsOfCount(grid: string)
    ensures |RowsOf(grid)| == 1 + Count(grid, IsLineBreak)
  {
    if grid != [] {
      var init, c := grid[..|grid| - 1], grid[|grid| - 1];
      assert grid == init + [c];
      RowsOfCount(init);
      RowsOfUnfold(init, c, RowsOf(init));
    }
  }

  predicate IsLineBreak(c: char) {
    c == '\n'
  }

  // ---------------------------------------------------------------------------------------
  // Positions and neighbours
  // ---------------------------------------------------------------------------------------

  /** The room holds exactly width x height cells: its last row is as long as the others
      (RoomCellCount says which texts give such a room). */
  predicate Rectangular(room: Room) {
    |room.cells| == room.width * room.height
  }

  /** Room::get_index: the spot at row y, column x. */
  function GetIndex(width: nat, y: nat, x: nat): nat {
    y * width + x
  }

  /** Room::get_yx: the row and column of a spot. */
  function GetYX(width: nat, spot: nat): (nat, nat)
    requires width > 0
  {
    (spot / width, spot % width)
  }

  /** get_yx undoes get_index on every column of the row ... */
  lemma GetYXOfIndex(width: nat, y: nat, x: nat)
    requires x < width
    ensures GetYX(width, GetIndex(width, y, x)) == (y, x)
  {
    DivModUnique(GetIndex(width, y, x), width, y, x);
  }

  /** ... and get_index undoes get_yx on every spot. */
  lemma GetIndexOfYX(width: nat, spot: nat)
    requires width > 0
    ensures GetIndex(width, GetYX(width, spot).0, GetYX(width, spot).1) == spot
  {
  }

  /** The spots below width x height are those of the first `height` rows. */
  lemma SpotInGrid(width: nat, height: nat, spot: nat)
    requires spot < width * height
    ensures width > 0 && GetYX(width, spot).0 < height
  {
    if spot / width >= height {
      MulLe(height, spot / width, width);
    }
  }

  lemma IndexInGrid(width: nat, height: nat, y: nat, x: nat)
    requires y < height && x < width
    ensures GetIndex(width, y, x) < width * height
  {
    MulLe(y + 1, height, width);
  }

  /** The row and column offsets of get_neighbors' eight slots, in the order it fills them:
      the row above from left to right, then left, then right, then the row below. */
  function SlotOffset(slot: nat): (int, int)
    requires slot < 8
  {
    if slot < 3 then (-1, slot as int - 1)
    else if slot == 3 then (0, -1)
    else if slot == 4 then (0, 1)
    else (1, slot as int - 6)
  }

  /** The slot that holds a given non-zero offset. */
  function SlotFor(dy: int, dx: int): (slot: nat)
    requires -1 <= dy <= 1 && -1 <= dx <= 1 && (dy, dx) != (0, 0)
    ensures slot < 8 && SlotOffset(slot) == (dy, dx)
  {
    if dy == -1 then (dx + 1) as nat
    else if dy == 0 then (if dx == -1 then 3 else 4)
    else (dx + 6) as nat
  }

  /** What get_neighbors leaves in one slot: nothing when the offset leaves the grid through
      the top row, the row the room's height calls the bottom one, or the left or right
      edge, otherwise the spot at that offset. Nothing checks that this spot exists: past
      the last cell it is an index the source's lookup then panics on. */
  function SlotNeighbor(room: Room, spot: nat, slot: nat): Option<nat>
    requires room.width > 0 && slot < 8
  {
    var (dy, dx) := SlotOffset(slot);
    var (y, x) := GetYX(room.width, spot);
    if (y == 0 && dy == -1) || (y == room.height - 1 && dy == 1)
      || (x == 0 && dx == -1) || (x == room.width - 1 && dx == 1)
    then None
    else Some(GetIndex(room.width, (y + dy) as nat, (x + dx) as nat))
  }

  function NeighborSlots(room: Room, spot: nat): (slots: seq<Option<nat>>)
    requires room.width > 0
    ensures |slots| == 8
  {
    seq(8, slot requires 0 <= slot < 8 => SlotNeighbor(room, spot, slot))
  }

  /** Where the slot counter stands when each row of offsets starts. */
  function RowStart(yi: nat): nat {
    if yi == 0 then 0 else if yi == 1 then 3 else if yi == 2 then 5 else 8
  }

  /** Where the slot counter stands before the offset (yi - 1, xi - 1): the centre takes
      no slot. */
  function SlotOf(yi: nat, xi: nat): nat {
    RowStart(yi) + xi - (if yi == 1 && xi >= 2 then 1 else 0)
  }

  /** Room::get_neighbors: the slot counter moves past every offset but the centre, a slot
      off the grid stays empty, and the row below is skipped on the bottom row. */
  method GetNeighbors(room: Room, spot: nat) returns (neighbors: seq<Option<nat>>)
    requires room.width > 0
    ensures neighbors == NeighborSlots(room, spot)
  {
    var (y, x) := GetYX(room.width, spot);
    var atTop := y == 0;
    var atLeft := x == 0;
    var atBottom := y == room.height - 1;
    var atRight := x == room.width - 1;
    neighbors := [None, None, None, None, None, None, None, None];
    var neighborIndex := 0;
    for yi := 0 to 3
      invariant |neighbors| == 8
      invariant yi < 3 ==> neighborIndex == RowStart(yi)
      invariant forall slot :: 0 <= slot < 8 ==>
        neighbors[slot] == if slot < RowStart(yi) then SlotNeighbor(room, spot, slot) else None
    {
      var yDiff := yi - 1;
      if atTop && yDiff == -1 {
        neighborIndex := neighborIndex + 3;
        continue;
      }
      if atBottom && yDiff == 1 {
        continue;
      }
      for xi := 0 to 3
        invariant |neighbors| == 8
        invariant neighborIndex == SlotOf(yi, xi)
        invariant forall slot :: 0 <= slot < 8 ==>
          neighbors[slot] == if slot < SlotOf(yi, xi) then SlotNeighbor(room, spot, slot) else None
      {
        var xDiff := xi - 1;
        if atLeft && xDiff == -1 {
          neighborIndex := neighborIndex + 1;
          continue;
        }
        if atRight && xDiff == 1 {
          neighborIndex := neighborIndex + 1;
          continue;
        }
        if yDiff == 0 && xDiff == 0 {
          continue;
        }
        var yIndex: nat := y + yDiff;
        var xIndex: nat := x + xDiff;
        neighbors := neighbors[neighborIndex := Some(GetIndex(room.width, yIndex, xIndex))];
        neighborIndex := neighborIndex + 1;
      }
    }
  }

  /** Two different spots at most one row and one column apart. */
  predicate Adjacent(width: nat, a: nat, b: nat)
    requires width > 0
  {
    var (ya, xa) := GetYX(width, a);
    var (yb, xb) := GetYX(width, b);
    a != b && -1 <= ya - yb <= 1 && -1 <= xa - xb <= 1
  }

  /** Every spot get_neighbors names is next to the given one. */
  lemma NeighborSound(room: Room, spot: nat, slot: nat)
    requires room.width > 0 && slot < 8
    ensures SlotNeighbor(room, spot, slot).Some? ==> Adjacent(room.width, spot, SlotNeighbor(room, spot, slot).value)
  {
    if SlotNeighbor(room, spot, slot).Some? {
      var (dy, dx) := SlotOffset(slot);
      var (y, x) := GetYX(room.width, spot);
      GetYXOfIndex(room.width, (y + dy) as nat, (x + dx) as nat);
    }
  }

  /** No spot is named in two slots. */
  lemma NeighborsDistinct(room: Room, spot: nat, s1: nat, s2: nat)
    requires room.width > 0 && s1 < 8 && s2 < 8 && s1 != s2
    requires SlotNeighbor(room, spot, s1).Some? && SlotNeighbor(room, spot, s2).Some?
    ensures SlotNeighbor(room, spot, s1).value != SlotNeighbor(room, spot, s2).value
  {
    var (y, x) := GetYX(room.width, spot);
    var (dy1, dx1) := SlotOffset(s1);
    var (dy2, dx2) := SlotOffset(s2);
    GetYXOfIndex(room.width, (y + dy1) as nat, (x + dx1) as nat);
    GetYXOfIndex(room.width, (y + dy2) as nat, (x + dx2) as nat);
  }

  /** Every spot next to the given one within the room's height is named in some slot. */
  lemma NeighborComplete(room: Room, spot: nat, j: nat)
    requires room.width > 0 && j < room.width * room.height
    requires Adjacent(room.width, spot, j)
    ensures exists slot :: 0 <= slot < 8 && SlotNeighbor(room, spot, slot) == Some(j)
  {
    SpotInGrid(room.width, room.height, j);
    var (y, x) := GetYX(room.width, spot);
    var (yj, xj) := GetYX(room.width, j);
    var slot := SlotFor(yj - y, xj - x);
    GetIndexOfYX(room.width, j);
    assert SlotNeighbor(room, spot, slot) == Some(j);
  }

  // ---------------------------------------------------------------------------------------
  // The lookups: `tp_room.tp_or_not_tp[neigbor_index]` panics past the last cell
  // ---------------------------------------------------------------------------------------

  const DIVIDE_BY_ZERO: string := "attempt to divide by zero"
  const INDEX_OUT_OF_BOUNDS: string := "index out of bounds"

  /** A slot whose lookup succeeds: empty, or naming one of the room's cells. */
  predicate Fits(room: Room, o: Option<nat>) {
    o.None? || o.value < |room.cells|
  }

  /** Every slot of the spot can be looked up. */
  predicate InRange(room: Room, spot: nat)
    requires room.width > 0
  {
    forall slot :: 0 <= slot < 8 ==> Fits(room, SlotNeighbor(room, spot, slot))
  }

  /** Judging the spot does not panic: it holds no roll (its neighbours are never looked
      at), or get_yx can divide by the width and every slot can be looked up. */
  predicate LookupsFit(room: Room, spot: nat)
    requires spot < |room.cells|
  {
    room.cells[spot] ==> room.width > 0 && InRange(room, spot)
  }

  predicate SoundUpTo(room: Room, n: nat)
    requires n <= |room.cells|
  {
    forall spot :: 0 <= spot < n ==> LookupsFit(room, spot)
  }

  /** Judging every spot of the room goes through without a panic. */
  predicate Sound(room: Room) {
    SoundUpTo(room, |room.cells|)
  }

  /** A rectangular room names only its own cells, so it never panics. */
  lemma RectangularIsSound(room: Room)
    requires Rectangular(room)
    ensures Sound(room)
  {
    forall spot | 0 <= spot < |room.cells| && room.cells[spot]
      ensures room.width > 0 && InRange(room, spot)
    {
      SpotInGrid(room.width, room.height, spot);
      forall slot | 0 <= slot < 8 ensures Fits(room, SlotNeighbor(room, spot, slot)) {
        if SlotNeighbor(room, spot, slot).Some? {
          var (dy, dx) := SlotOffset(slot);
          var (y, x) := GetYX(room.width, spot);
          IndexInGrid(room.width, room.height, (y + dy) as nat, (x + dx) as nat);
        }
      }
    }
  }

  /** The neighbour count star_one and star_two sum over the slots: one per slot naming a
      roll, or the panic of the first slot past the last cell. */
  function CheckedRollsIn(room: Room, slots: seq<Option<nat>>): Result<nat> {
    if slots == [] then Ok(0)
    else
      var prev := CheckedRollsIn(room, slots[..|slots| - 1]);
      var o := slots[|slots| - 1];
      if prev.Err? then prev
      else if !Fits(room, o) then Err(INDEX_OUT_OF_BOUNDS)
      else Ok(prev.value + if NamesRoll(room, o) then 1 else 0)
  }

  /** The sum fails exactly when some slot names a spot past the last cell, and otherwise
      counts the slots naming a roll. */
  lemma {:induction false} CheckedRollsInSpec(room: Room, slots: seq<Option<nat>>)
    ensures CheckedRollsIn(room, slots).Err? <==> exists i :: 0 <= i < |slots| && !Fits(room, slots[i])
    ensures CheckedRollsIn(room, slots).Ok? ==> CheckedRollsIn(room, slots).value == RollsIn(room, slots)
  {
    if slots != [] {
      var init := slots[..|slots| - 1];
      CheckedRollsInSpec(room, init);
      assert forall i :: 0 <= i < |init| ==> init[i] == slots[i];
    }
  }

  // ---------------------------------------------------------------------------------------
  // Reachable rolls: part one
  // ---------------------------------------------------------------------------------------

  /** A slot naming a spot that holds a roll. */
  predicate NamesRoll(room: Room, o: Option<nat>) {
    o.Some? && o.value < |room.cells| && room.cells[o.value]
  }

  /** The sum over get_neighbors' slots: one for each slot naming a roll. */
  function RollsIn(room: Room, slots: seq<Option<nat>>): nat {
    if slots == [] then 0
    else RollsIn(room, slots[..|slots| - 1]) + (if NamesRoll(room, slots[|slots| - 1]) then 1 else 0)
  }

  /** The rolls that the slots name. */
  ghost function RollSet(room: Room, slots: seq<Option<nat>>): set<nat> {
    set i | 0 <= i < |slots| && NamesRoll(room, slots[i]) :: slots[i].value
  }

  ghost predicate DistinctSome(slots: seq<Option<nat>>) {
    forall i, k :: 0 <= i < k < |slots| && slots[i].Some? && slots[k].Some? ==> slots[i].value != slots[k].value
  }

  /** Slots that never name a spot twice count each named roll once. */
  lemma {:induction false} RollsInSet(room: Room, slots: seq<Option<nat>>)
    requires DistinctSome(slots)
    ensures RollsIn(room, slots) == |RollSet(room, slots)|
  {
    if slots == [] {
      assert RollSet(room, slots) == {};
    } else {
      var init, last := slots[..|slots| - 1], slots[|slots| - 1];
      assert slots == init + [last];
      RollSetSnoc(room, init, last);
      RollsInSet(room, init);
    }
  }

  lemma RollSetSnoc(room: Room, init: seq<Option<nat>>, last: Option<nat>)
    requires DistinctSome(init + [last])
    ensures DistinctSome(init)
    ensures RollSet(room, init + [last]) ==
      RollSet(room, init) + (if NamesRoll(room, last) then {last.value} else {})
    ensures NamesRoll(room, last) ==> last.value !in RollSet(room, init)
  {
    var slots := init + [last];
    forall i, k | 0 <= i < k < |init| && init[i].Some? && init[k].Some?
      ensures init[i].value != init[k].value
    {
      assert init[i] == slots[i] && init[k] == slots[k];
    }
    var before := RollSet(room, init);
    var after := before + (if NamesRoll(room, last) then {last.value} else {});
    forall v | v in RollSet(room, slots) ensures v in after {
      var i :| 0 <= i < |slots| && NamesRoll(room, slots[i]) && slots[i].value == v;
      if i < |init| {
        assert init[i] == slots[i];
      }
    }
    forall v | v in before ensures v in RollSet(room, slots) {
      var i :| 0 <= i < |init| && NamesRoll(room, init[i]) && init[i].value == v;
      assert slots[i] == init[i];
    }
    assert slots[|init|] == last;
    if NamesRoll(room, last) {
      forall i | 0 <= i < |init| && NamesRoll(room, init[i]) ensures init[i].value != last.value {
        assert slots[i] == init[i];
      }
    }
  }

  /** The rolls next to a spot. */
  ghost function AdjacentRolls(room: Room, spot: nat): set<nat>
    requires room.width > 0
  {
    set j | 0 <= j < |room.cells| && Adjacent(room.width, spot, j) && room.cells[j]
  }

  /** star_one's count of a roll's neighbours. */
  function RollNeighbors(room: Room, spot: nat): nat
    requires room.width > 0
  {
    RollsIn(room, NeighborSlots(room, spot))
  }

  /** When the room's cells reach no further than its height (the last row no longer than
      the first), the count over get_neighbors' slots is the number of rolls next to the
      spot. */
  lemma RollNeighborsCount(room: Room, spot: nat)
    requires room.width > 0 && |room.cells| <= room.width * room.height
    ensures RollNeighbors(room, spot) == |AdjacentRolls(room, spot)|
  {
    var slots := NeighborSlots(room, spot);
    forall i, k | 0 <= i < k < |slots| && slots[i].Some? && slots[k].Some?
      ensures slots[i].value != slots[k].value
    {
      NeighborsDistinct(room, spot, i, k);
    }
    RollsInSet(room, slots);
    forall j | j in RollSet(room, slots) ensures j in AdjacentRolls(room, spot) {
      var i :| 0 <= i < |slots| && NamesRoll(room, slots[i]) && slots[i].value == j;
      NeighborSound(room, spot, i);
    }
    forall j | j in AdjacentRolls(room, spot) ensures j in RollSet(room, slots) {
      NeighborComplete(room, spot, j);
      var slot :| 0 <= slot < 8 && SlotNeighbor(room, spot, slot) == Some(j);
      assert slots[slot] == Some(j);
    }
    assert RollSet(room, slots) == AdjacentRolls(room, spot);
  }

  /** A roll a forklift can reach: fewer than four rolls around it. (A room of width 0 has
      no reachable roll: judging a roll there panics, see Sound.) */
  predicate Reachable(room: Room, spot: nat)
    requires spot < |room.cells|
  {
    room.cells[spot] && room.width > 0 && RollNeighbors(room, spot) < 4
  }

  /** The reachable rolls among the first n spots, in order (star_two's filter_map). */
  function ReachableSpots(room: Room, n: nat): seq<nat>
    requires n <= |room.cells|
  {
    if n == 0 then []
    else ReachableSpots(room, n - 1) + (if Reachable(room, n - 1) then [n - 1] else [])
  }

  /** The reachable rolls are listed once each, in increasing order. */
  lemma {:induction false} ReachableSpotsMembers(room: Room, n: nat)
    requires n <= |room.cells|
    ensures forall i: nat :: i in ReachableSpots(room, n) <==> i < n && Reachable(room, i)
    ensures forall a, b :: 0 <= a < b < |ReachableSpots(room, n)| ==>
      ReachableSpots(room, n)[a] < ReachableSpots(room, n)[b]
  {
    if n > 0 {
      ReachableSpotsMembers(room, n - 1);
      var before := ReachableSpots(room, n - 1);
      assert forall a :: 0 <= a < |before| ==> before[a] < n - 1 by {
        forall a | 0 <= a < |before| ensures before[a] < n - 1 {
          assert before[a] in before;
        }
      }
    }
  }

  /** The number of reachable rolls. */
  function ReachableCount(room: Room): nat {
    |ReachableSpots(room, |room.cells|)|
  }

  /** star_one's fold over the spots: a roll adds one when fewer than four of its slots name
      rolls; the first lookup that panics ends it. */
  function ReachableFold(room: Room, n: nat): Result<nat>
    requires n <= |room.cells|
  {
    if n == 0 then Ok(0)
    else
      var acc := ReachableFold(room, n - 1);
      if acc.Err? || !room.cells[n - 1] then acc
      else if room.width == 0 then Err(DIVIDE_BY_ZERO)
      else
        var count := CheckedRollsIn(room, NeighborSlots(room, n - 1));
        if count.Err? then Err(count.msg)
        else Ok(acc.value + if count.value < 4 then 1 else 0)
  }

  /** Judging one roll: the sum over its slots fails exactly when a lookup panics, and
      otherwise decides whether the roll is reachable. */
  lemma JudgeSpot(room: Room, spot: nat)
    requires spot < |room.cells| && room.cells[spot] && room.width > 0
    ensures CheckedRollsIn(room, NeighborSlots(room, spot)).Err? <==> !LookupsFit(room, spot)
    ensures CheckedRollsIn(room, NeighborSlots(room, spot)).Ok? ==>
      (CheckedRollsIn(room, NeighborSlots(room, spot)).value < 4 <==> Reachable(room, spot))
  {
    var slots := NeighborSlots(room, spot);
    CheckedRollsInSpec(room, slots);
    if !InRange(room, spot) {
      var slot :| 0 <= slot < 8 && !Fits(room, SlotNeighbor(room, spot, slot));
      assert !Fits(room, slots[slot]);
    }
  }

  lemma SoundUpToSnoc(room: Room, n: nat)
    requires n < |room.cells|
    ensures SoundUpTo(room, n + 1) <==> SoundUpTo(room, n) && LookupsFit(room, n)
  {
  }

  /** The fold fails exactly when judging one of the spots panics, and otherwise counts the
      reachable rolls. */
  lemma {:induction false} ReachableFoldSpec(room: Room, n: nat)
    requires n <= |room.cells|
    ensures ReachableFold(room, n).Err? <==> !SoundUpTo(room, n)
    ensures ReachableFold(room, n).Ok? ==> ReachableFold(room, n).value == |ReachableSpots(room, n)|
  {
    if n > 0 {
      ReachableFoldSpec(room, n - 1);
      SoundUpToSnoc(room, n - 1);
      if room.cells[n - 1] && room.width > 0 {
        JudgeSpot(room, n - 1);
      }
    }
  }

  ghost function ReachableUpTo(room: Room, n: nat): set<nat>
    requires n <= |room.cells|
  {
    set spot | 0 <= spot < n && Reachable(room, spot)
  }

  lemma {:induction false} ReachableSpotsCard(room: Room, n: nat)
    requires n <= |room.cells|
    ensures |ReachableSpots(room, n)| == |ReachableUpTo(room, n)|
  {
    if n == 0 {
      assert ReachableUpTo(room, n) == {};
    } else {
      ReachableSpotsCard(room, n - 1);
      var before := ReachableUpTo(room, n - 1);
      if Reachable(room, n - 1) {
        assert ReachableUpTo(room, n) == before + {n - 1};
      } else {
        assert ReachableUpTo(room, n) == before;
      }
    }
  }

  /** In a room whose cells reach no further than its height, part one counts the rolls
      that have fewer than four rolls among the spots next to them. */
  lemma ReachableCountSpec(room: Room)
    requires room.width > 0 && |room.cells| <= room.width * room.height
    ensures ReachableCount(room) ==
      |set spot | 0 <= spot < |room.cells| && room.cells[spot] && |AdjacentRolls(room, spot)| < 4|
  {
    ReachableSpotsCard(room, |room.cells|);
    forall spot | 0 <= spot < |room.cells| ensures Reachable(room, spot) <==> room.cells[spot] && |AdjacentRolls(room, spot)| < 4 {
      RollNeighborsCount(room, spot);
    }
    assert ReachableUpTo(room, |room.cells|)
      == set spot | 0 <= spot < |room.cells| && room.cells[spot] && |AdjacentRolls(room, spot)| < 4;
  }

  /** star_one: the room from the text, then the fold over its spots. It fails when the text
      is no room and when judging a roll looks past the last cell, and otherwise answers the
      number of reachable rolls. */
  method StarOne(input: string) returns (r: Result<nat>)
    ensures r.Err? <==> RoomOf(input).Err? || !Sound(RoomOf(input).value)
    ensures r.Ok? ==> r.value == ReachableCount(RoomOf(input).value)
  {
    var room := FromGrid(input);
    if room.Err? {
      return Err(room.msg);
    }
    ReachableFoldSpec(room.value, |room.value.cells|);
    var count := ReachableFold(room.value, |room.value.cells|);
    if count.Err? {
      return Err(count.msg);
    }
    return Ok(count.value);
  }

  // ---------------------------------------------------------------------------------------
  // A grid that ends in a line break
  // ---------------------------------------------------------------------------------------

  /** A text ending in a line break: the room's height counts the empty row after it, so its
      cells fill one row fewer than the height says, and the lookups fail exactly when the
      last row of cells holds a roll (a roll there looks for the row below it, past the last
      cell). */
  lemma TrailingBreakSound(grid: string)
    requires RoomOf(grid).Ok? && |grid| > 0 && grid[|grid| - 1] == '\n'
    ensures var room := RoomOf(grid).value;
            && |room.cells| + room.width == room.width * room.height
            && (Sound(room) <==> forall k :: 0 <= k < |room.cells| && k + room.width >= |room.cells| ==> !room.cells[k])
  {
    var room := RoomOf(grid).value;
    LastRowEmpty(grid);
    RoomCells(grid);
    MulSucc(room.height - 1, room.width);
    if room.width > 0 {
      if forall k :: 0 <= k < |room.cells| && k + room.width >= |room.cells| ==> !room.cells[k] {
        LastRowClearSound(room);
      } else {
        var k :| 0 <= k < |room.cells| && k + room.width >= |room.cells| && room.cells[k];
        LastRowRollUnsound(room, k);
      }
    }
  }

  /** Cells one row short of the height, with no roll in their last row: nothing panics. */
  lemma LastRowClearSound(room: Room)
    requires room.width > 0 && room.height >= 2 && |room.cells| == (room.height - 1) * room.width
    requires forall k :: 0 <= k < |room.cells| && k + room.width >= |room.cells| ==> !room.cells[k]
    ensures Sound(room)
  {
    forall spot | 0 <= spot < |room.cells| && room.cells[spot]
      ensures InRange(room, spot)
    {
      forall slot | 0 <= slot < 8 ensures Fits(room, SlotNeighbor(room, spot, slot)) {
        AboveLastRowFits(room, spot, slot);
      }
    }
  }

  /** Cells one row short of the height: every slot of a spot above their last row names a
      cell. */
  lemma AboveLastRowFits(room: Room, spot: nat, slot: nat)
    requires room.width > 0 && room.height >= 2 && |room.cells| == (room.height - 1) * room.width
    requires spot + room.width < |room.cells| && slot < 8
    ensures Fits(room, SlotNeighbor(room, spot, slot))
  {
    var w, h := room.width, room.height;
    MulSucc(h - 1, w);
    SpotInGrid(w, h - 2, spot);
    if SlotNeighbor(room, spot, slot).Some? {
      var (y, x) := GetYX(w, spot);
      var (dy, dx) := SlotOffset(slot);
      IndexInGrid(w, h - 1, (y + dy) as nat, (x + dx) as nat);
    }
  }

  /** Cells one row short of the height: a roll in their last row looks below itself, past
      the last cell. */
  lemma LastRowRollUnsound(room: Room, k: nat)
    requires room.width > 0 && room.height >= 2 && |room.cells| == (room.height - 1) * room.width
    requires k < |room.cells| && k + room.width >= |room.cells| && room.cells[k]
    ensures !Sound(room)
  {
    var w, h := room.width, room.height;
    MulSucc(h - 2, w);
    var x := k - (h - 2) * w;
    DivModUnique(k, w, h - 2, x);
    assert SlotNeighbor(room, k, 6) == Some(GetIndex(w, h - 1, x));
    assert !LookupsFit(room, k);
  }

  /** A line break at the end leaves an empty last row. */
  lemma LastRowEmpty(grid: string)
    requires |grid| > 0 && grid[|grid| - 1] == '\n'
    ensures |RowsOf(grid)| >= 2 && RowsOf(grid)[|RowsOf(grid)| - 1] == []
  {
    var init := grid[..|grid| - 1];
    assert grid == init + ['\n'];
    RowsOfUnfold(init, '\n', RowsOf(init));
  }

  /** A room read from text: the complete rows hold width cells each, and the last row the
      rest. */
  lemma RoomCells(grid: string)
    requires RoomOf(grid).Ok?
    ensures var room := RoomOf(grid).value;
            var rows := RowsOf(grid);
            room.height == |rows| >= 2 && |room.cells| == (room.height - 1) * room.width + |rows[|rows| - 1]|
  {
    ScanPrefixSpec(grid);
    RoomOfSpec(grid);
    AlignedLength(RowsOf(grid));
  }

  /** What the text "..\n@@\n" is read as: two cells of floor over two rolls, and a third
      row that is empty. The rolls lie in the last row of cells, so star_one panics. */
  lemma TrailingBreakExample()
    ensures RoomOf("..\n@@\n") == Ok(Room([false, false, true, true], 2, 3))
    ensures !Sound(Room([false, false, true, true], 2, 3))
  {
    var grid := "..\n@@\n";
    TrailingBreakFirstRow();
    TrailingBreakSecondRow();
    assert grid[..6] == grid;
    TrailingBreakPanics();
  }

  /** The first row of "..\n@@\n": two cells of floor, and the width is known. */
  lemma TrailingBreakFirstRow()
    ensures ScanPrefix("..\n@@\n"[..3]) == Ok(Scan(Some(2), 0, 2, [false, false]))
  {
    var grid := "..\n@@\n";
    var s0 := Scan(None, 0, 1, []);
    var s1 := Scan(None, 1, 1, [false]);
    var s2 := Scan(None, 2, 1, [false, false]);
    assert ScanStep(s0, '.') == Ok(s1) by { assert s0.cells + [false] == s1.cells; }
    assert ScanStep(s1, '.') == Ok(s2) by { assert s1.cells + [false] == s2.cells; }
    ScanPrefixStep(grid, 0, s0);
    ScanPrefixStep(grid, 1, s1);
    ScanPrefixStep(grid, 2, s2);
  }

  /** The second row of "..\n@@\n": two rolls, and the line break opens a third row. */
  lemma TrailingBreakSecondRow()
    requires ScanPrefix("..\n@@\n"[..3]) == Ok(Scan(Some(2), 0, 2, [false, false]))
    ensures ScanPrefix("..\n@@\n"[..6]) == Ok(Scan(Some(2), 0, 3, [false, false, true, true]))
  {
    var grid := "..\n@@\n";
    var s3 := Scan(Some(2), 0, 2, [false, false]);
    var s4 := Scan(Some(2), 1, 2, [false, false, true]);
    var s5 := Scan(Some(2), 2, 2, [false, false, true, true]);
    assert ScanStep(s3, '@') == Ok(s4) by { assert s3.cells + [true] == s4.cells; }
    assert ScanStep(s4, '@') == Ok(s5) by { assert s4.cells + [true] == s5.cells; }
    ScanPrefixStep(grid, 3, s3);
    ScanPrefixStep(grid, 4, s4);
    ScanPrefixStep(grid, 5, s5);
  }

  /** In the 2 x 3 room of "..\n@@\n", the roll at spot 2 looks below itself at spot 4,
      past the last cell. */
  lemma TrailingBreakPanics()
    ensures !Sound(Room([false, false, true, true], 2, 3))
  {
    var room := Room([false, false, true, true], 2, 3);
    assert SlotNeighbor(room, 2, 6) == Some(4);
    assert !LookupsFit(room, 2);
  }

  /** Read as intended, the same text is a 2 x 2 room whose two rolls each have one roll
      next to them, so part one answers 2. */
  lemma IntendedExample()
    ensures IntendedRoomOf("..\n@@\n") == Ok(Room([false, false, true, true], 2, 2))
    ensures ReachableCount(Room([false, false, true, true], 2, 2)) == 2
  {
    TrailingBreakExample();
    var room := Room([false, false, true, true], 2, 2);
    RollNeighborsCount(room, 2);
    RollNeighborsCount(room, 3);
    assert AdjacentRolls(room, 2) == {3} by {
      assert Adjacent(2, 2, 3);
    }
    assert AdjacentRolls(room, 3) == {2} by {
      assert Adjacent(2, 3, 2);
    }
    assert ReachableSpots(room, 4) == [2, 3];
  }

  lemma ScanPrefixStep(grid: string, i: nat, s: Scan)
    requires i < |grid| && ScanPrefix(grid[..i]) == Ok(s)
    ensures ScanPrefix(grid[..i + 1]) == ScanStep(s, grid[i])
  {
    ScanPrefixSnoc(grid, i);
  }

  /** The room the text evidently means: a line break that ends the text closes the last
      row rather than opening an empty one. */
  function IntendedRoomOf(grid: string): Result<Room> {
    var r := RoomOf(grid);
    if r.Ok? && |grid| > 0 && grid[|grid| - 1] == '\n' then Ok(r.value.(height := r.value.height - 1))
    else r
  }

  /** Read that way, a line-break-terminated text of equal rows is a rectangular room, so no
      lookup panics and part one counts the rolls by the cells next to them. */
  lemma IntendedRoomSound(grid: string)
    requires RoomOf(grid).Ok? && |grid| > 0 && grid[|grid| - 1] == '\n'
    ensures IntendedRoomOf(grid).Ok?
    ensures var room := IntendedRoomOf(grid).value;
            && Rectangular(room) && Sound(room)
            && room.cells == RoomOf(grid).value.cells && room.width == RoomOf(grid).value.width
    ensures var room := IntendedRoomOf(grid).value;
            var reachable := set spot | 0 <= spot < |room.cells| && room.cells[spot] && |AdjacentRolls(room, spot)| < 4;
            room.width > 0 ==> ReachableCount(room) == |reachable|
  {
    var before := RoomOf(grid).value;
    LastRowEmpty(grid);
    RoomCells(grid);
    var room := IntendedRoomOf(grid).value;
    assert |room.cells| == (before.height - 1) * before.width;
    RectangularIsSound(room);
    if room.width > 0 {
      ReachableCountSpec(room);
    }
  }

  // ---------------------------------------------------------------------------------------
  // Removing rolls: part two
  // ---------------------------------------------------------------------------------------

  predicate IsRoll(b: bool) {
    b
  }

  function RollCount(room: Room): nat {
    Count(room.cells, IsRoll)
  }

  /** One round of star_two: every roll reachable in `room` is removed at once. */
  function Round(room: Room): (next: Room)
    ensures next.width == room.width && next.height == room.height && |next.cells| == |room.cells|
  {
    room.(cells := seq(|room.cells|, i requires 0 <= i < |room.cells| => room.cells[i] && !Reachable(room, i)))
  }

  /** Removing rolls keeps every lookup that went through: the slots depend only on the
      room's shape, and fewer spots are judged. */
  lemma RoundSound(room: Room)
    requires Sound(room)
    ensures Sound(Round(room))
  {
    var next := Round(room);
    forall spot | 0 <= spot < |next.cells| ensures LookupsFit(next, spot) {
      assert LookupsFit(room, spot);
      if next.cells[spot] {
        forall slot | 0 <= slot < 8 ensures Fits(next, SlotNeighbor(next, spot, slot)) {
          assert SlotNeighbor(next, spot, slot) == SlotNeighbor(room, spot, slot);
        }
      }
    }
  }

  lemma {:induction false} RoundCountUpTo(room: Room, n: nat)
    requires n <= |room.cells|
    ensures Count(Round(room).cells[..n], IsRoll) + |ReachableSpots(room, n)| == Count(room.cells[..n], IsRoll)
  {
    if n > 0 {
      RoundCountUpTo(room, n - 1);
      TakeInit(Round(room).cells, n - 1);
      TakeInit(room.cells, n - 1);
    }
  }

  /** A round removes exactly as many rolls as part one counts. */
  lemma RoundCount(room: Room)
    ensures RollCount(Round(room)) + ReachableCount(room) == RollCount(room)
  {
    RoundCountUpTo(room, |room.cells|);
    assert Round(room).cells[..|room.cells|] == Round(room).cells;
    assert room.cells[..|room.cells|] == room.cells;
  }

  /** The room once no roll is reachable any more. */
  ghost function Settle(room: Room): Room
    decreases RollCount(room)
  {
    if ReachableCount(room) == 0 then room
    else
      RoundCount(room);
      Settle(Round(room))
  }

  /** In the settled room no roll is reachable, and every roll in it was in the room. */
  lemma {:induction false} SettleSpec(room: Room)
    ensures Settle(room).width == room.width && Settle(room).height == room.height
    ensures |Settle(room).cells| == |room.cells|
    ensures forall spot :: 0 <= spot < |room.cells| ==> !Reachable(Settle(room), spot)
    ensures forall spot :: 0 <= spot < |room.cells| && Settle(room).cells[spot] ==> room.cells[spot]
    decreases RollCount(room)
  {
    if ReachableCount(room) == 0 {
      ReachableSpotsMembers(room, |room.cells|);
    } else {
      RoundCount(room);
      SettleSpec(Round(room));
    }
  }

  /** star_two's search for the reachable rolls, which panics as star_one's fold does. */
  method RemovableSpots(room: Room) returns (r: Result<seq<nat>>)
    ensures r.Err? <==> !Sound(room)
    ensures r.Ok? ==> r.value == ReachableSpots(room, |room.cells|)
  {
    var removed := [];
    for spot := 0 to |room.cells|
      invariant removed == ReachableSpots(room, spot) && SoundUpTo(room, spot)
    {
      SoundUpToSnoc(room, spot);
      if room.cells[spot] {
        if room.width == 0 {
          assert !LookupsFit(room, spot);
          return Err(DIVIDE_BY_ZERO);
        }
        var neighbors := GetNeighbors(room, spot);
        var tpNeighbors := CheckedRollsIn(room, neighbors);
        JudgeSpot(room, spot);
        if tpNeighbors.Err? {
          return Err(tpNeighbors.msg);
        }
        if tpNeighbors.value < 4 {
          removed := removed + [spot];
        }
      }
    }
    return Ok(removed);
  }

  /** star_two's loop: rounds of removal until none is reachable; the count removed is
      the rolls the room loses on the way to its settled state. Only the first round can
      panic, because later rounds judge fewer rolls of the same shape. */
  method RemoveAll(room: Room) returns (r: Result<nat>)
    ensures r.Err? <==> !Sound(room)
    ensures r.Ok? ==> r.value + RollCount(Settle(room)) == RollCount(room)
  {
    var current := room;
    var removedCount := 0;
    while true
      invariant Sound(current) <==> Sound(room)
      invariant Settle(current) == Settle(room)
      invariant removedCount + RollCount(current) == RollCount(room)
      decreases RollCount(current)
    {
      var removed := RemovableSpots(current);
      if removed.Err? {
        return Err(removed.msg);
      }
      if |removed.value| == 0 {
        break;
      }
      ghost var before := current;
      ReachableSpotsBound(before, removed.value);
      current := ClearSpots(current, removed.value);
      ClearedIsRound(before, removed.value, current);
      RoundCount(before);
      RoundSound(before);
      removedCount := removedCount + |removed.value|;
    }
    return Ok(removedCount);
  }

  lemma ReachableSpotsBound(room: Room, removed: seq<nat>)
    requires removed == ReachableSpots(room, |room.cells|)
    ensures forall k :: 0 <= k < |removed| ==> removed[k] < |room.cells|
  {
    ReachableSpotsMembers(room, |room.cells|);
    forall k | 0 <= k < |removed| ensures removed[k] < |room.cells| {
      assert removed[k] in removed;
    }
  }

  /** star_two's `for rem in &removed`: each listed spot loses its roll. */
  method ClearSpots(room: Room, removed: seq<nat>) returns (next: Room)
    requires forall k :: 0 <= k < |removed| ==> removed[k] < |room.cells|
    ensures next.width == room.width && next.height == room.height && |next.cells| == |room.cells|
    ensures forall i :: 0 <= i < |next.cells| ==> next.cells[i] == (room.cells[i] && i !in removed)
  {
    next := room;
    for k := 0 to |removed|
      invariant next.width == room.width && next.height == room.height && |next.cells| == |room.cells|
      invariant forall i :: 0 <= i < |next.cells| ==> next.cells[i] == (room.cells[i] && i !in removed[..k])
    {
      assert removed[..k + 1] == removed[..k] + [removed[k]];
      next := next.(cells := next.cells[removed[k] := false]);
    }
    assert removed[..|removed|] == removed;
  }

  /** Clearing the reachable rolls is one round. */
  lemma ClearedIsRound(room: Room, removed: seq<nat>, next: Room)
    requires removed == ReachableSpots(room, |room.cells|)
    requires next.width == room.width && next.height == room.height && |next.cells| == |room.cells|
    requires forall i :: 0 <= i < |next.cells| ==> next.cells[i] == (room.cells[i] && i !in removed)
    ensures next == Round(room)
  {
    ReachableSpotsMembers(room, |room.cells|);
    assert next.cells == Round(room).cells;
  }

  /** star_two: the room from the text, then the rolls removed until it settles. It fails
      when the text is no room and when the first round's lookups look past the last cell. */
  method StarTwo(input: string) returns (r: Result<nat>)
    ensures r.Err? <==> RoomOf(input).Err? || !Sound(RoomOf(input).value)
    ensures r.Ok? ==> r.value + RollCount(Settle(RoomOf(input).value)) == RollCount(RoomOf(input).value)
  {
    var room := FromGrid(input);
    if room.Err? {
      return Err(room.msg);
    }
    r := RemoveAll(room.value);
  }
}
