/** Day 7: a tachyon beam enters a manifold at 'S' and falls one row per step. A splitter
    ('^') directly below a beam stops it and sends new beams down to its left and right.
    Part one follows the beams as a set and counts the splits; part two follows every
    timeline on its own and counts the universes the splits create. */
module Day7 {
  import opened Common

  /** A cell of the manifold: row, then column. */
  datatype RowCol = RowCol(row: nat, col: nat)

  /** RowCol::from: character n of a grid of rows `width` long, counted row by row. */
  function RowColOf(n: nat, width: nat): (p: RowCol)
    requires width > 0
    ensures p.col < width && p.row * width + p.col == n
  {
    RowCol(n / width, n % width)
  }

  /** RowCol::from_optional_width: before the width of a row is known every character is in
      row 0. A width of 0 divides by zero in the source; that case is caught by the caller,
      and here it gives row 0 too. */
  function Place(n: nat, width: Option<nat>): RowCol {
    if width.None? || width.value == 0 || n < width.value then RowCol(0, n)
    else RowColOf(n, width.value)
  }

  /** Characters in the first row are where the width, once known, puts them. */
  lemma PlaceFirstRow(n: nat, width: nat)
    requires n < width
    ensures Place(n, None) == Place(n, Some(width)) == RowColOf(n, width)
  {
  }

  /** Once the width is known, a character is placed as RowCol::from places it. */
  lemma PlaceKnown(n: nat, width: nat)
    requires width > 0
    ensures Place(n, Some(width)) == RowColOf(n, width)
  {
  }

  // ---------------------------------------------------------------------------------------
  // The text of a manifold
  // ---------------------------------------------------------------------------------------

  predicate IsBreak(c: char) {
    c == '\n' || c == '\r'
  }

  /** The characters that are not line breaks, in order: the cells of the grid. */
  function Cells(s: string): (cells: seq<char>)
    ensures |cells| <= |s|
    ensures forall k :: 0 <= k < |cells| ==> !IsBreak(cells[k])
  {
    if s == [] then []
    else
      var c := s[|s| - 1];
      Cells(s[..|s| - 1]) + if IsBreak(c) then [] else [c]
  }

  /** The index of the first line break, or the length of the text when there is none. */
  function FirstBreak(s: string): (f: nat)
    ensures f <= |s|
    ensures forall k :: 0 <= k < f ==> !IsBreak(s[k])
    ensures f < |s| ==> IsBreak(s[f])
  {
    if s == [] then 0
    else
      var init := s[..|s| - 1];
      var f := FirstBreak(init);
      if f < |init| then f else if IsBreak(s[|s| - 1]) then |init| else |s|
  }

  predicate HasBreak(s: string) {
    FirstBreak(s) < |s|
  }

  /** The cells that hold character c. */
  function CellsWith(cells: seq<char>, c: char): set<nat> {
    set n | 0 <= n < |cells| && cells[n] == c
  }

  /** What the grid would be if every row were `width` long: splitters where the cells
      hold '^'. */
  function SplittersAt(cells: seq<char>, width: Option<nat>): set<RowCol> {
    set n | 0 <= n < |cells| && cells[n] == '^' :: Place(n, width)
  }

  // ---------------------------------------------------------------------------------------
  // TachyonManifold::from
  // ---------------------------------------------------------------------------------------

  /** A manifold: its splitters, the cells its beams are in, and its size. */
  datatype Manifold = Manifold(splitters: set<RowCol>, tachyons: set<RowCol>, width: nat, height: nat)

  const MULTIPLE_STARTS: string := "Multiple starting spots found!"
  const NO_START: string := "Could not find the starting position of the first Tachyon!  No 'S' characters were found!"
  const NO_WIDTH: string := "Could not calculate the width of the TachyonManifold!"
  const DIVIDE_BY_ZERO: string := "attempt to divide by zero"

  /** The fold's accumulator and the two variables it updates: the cells read so far, the
      width once a line break has been read, the start and the splitters. */
  datatype Parse = Parse(charNum: nat, width: Option<nat>, start: Option<RowCol>, splitters: set<RowCol>)

  /** The fold's handling of one character. An 'S' or '^' after an empty first row divides
      by zero. */
  function ParseStep(p: Parse, c: char): Result<Parse> {
    if IsBreak(c) then Ok(if p.width.None? then p.(width := Some(p.charNum)) else p)
    else if c == 'S' then
      if p.width == Some(0) then Err(DIVIDE_BY_ZERO)
      else if p.start.Some? then Err(MULTIPLE_STARTS)
      else Ok(p.(charNum := p.charNum + 1, start := Some(Place(p.charNum, p.width))))
    else if c == '^' then
      if p.width == Some(0) then Err(DIVIDE_BY_ZERO)
      else Ok(p.(charNum := p.charNum + 1, splitters := p.splitters + {Place(p.charNum, p.width)}))
    else Ok(p.(charNum := p.charNum + 1))
  }

  /** The fold over the characters of `s`; the first panic ends it. */
  function ParsePrefix(s: string): Result<Parse> {
    if s == [] then Ok(Parse(0, None, None, {}))
    else
      var prev := ParsePrefix(s[..|s| - 1]);
      if prev.Err? then prev else ParseStep(prev.value, s[|s| - 1])
  }

  /** TachyonManifold::from: one beam at the start, the splitters, the width of the first
      row and as many rows as the cells fill. */
  function ManifoldOf(input: string): Result<Manifold> {
    var p := ParsePrefix(input);
    if p.Err? then Err(p.msg)
    else if p.value.start.None? then Err(NO_START)
    else if p.value.width.None? then Err(NO_WIDTH)
    else if p.value.width.value == 0 then Err(DIVIDE_BY_ZERO)
    else
      var w := p.value.width.value;
      Ok(Manifold(p.value.splitters, {p.value.start.value}, w, p.value.charNum / w))
  }

  lemma ParsePrefixSnoc(input: string, i: nat)
    requires i < |input|
    ensures ParsePrefix(input[..i + 1])
      == if ParsePrefix(input[..i]).Err? then ParsePrefix(input[..i]) else ParseStep(ParsePrefix(input[..i]).value, input[i])
  {
    TakeInit(input, i);
  }

  lemma {:induction false} ParsePrefixFails(input: string, i: nat, msg: string)
    requires 0 < i <= |input| && ParsePrefix(input[..i]) == Err(msg)
    ensures ParsePrefix(input) == Err(msg)
    decreases |input| - i
  {
    if i < |input| {
      ParsePrefixSnoc(input, i);
      ParsePrefixFails(input, i + 1, msg);
    } else {
      assert input[..i] == input;
    }
  }

  /** TachyonManifold::from's fold over the characters. */
  method FromInput(input: string) returns (r: Result<Manifold>)
    ensures r == ManifoldOf(input)
  {
    var width: Option<nat> := None;
    var start: Option<RowCol> := None;
    var charNum := 0;
    var splitters: set<RowCol> := {};
    for i := 0 to |input|
      invariant ParsePrefix(input[..i]) == Ok(Parse(charNum, width, start, splitters))
    {
      var chr := input[i];
      ParsePrefixSnoc(input, i);
      if chr == '\n' || chr == '\r' {
        if width.None? {
          width := Some(charNum);
        }
        continue;
      }
      if chr == 'S' {
        if width == Some(0) {
          ParsePrefixFails(input, i + 1, DIVIDE_BY_ZERO);
          return Err(DIVIDE_BY_ZERO);
        }
        var pos := Place(charNum, width);
        if start.Some? {
          ParsePrefixFails(input, i + 1, MULTIPLE_STARTS);
          return Err(MULTIPLE_STARTS);
        }
        start := Some(pos);
      }
      if chr == '^' {
        if width == Some(0) {
          ParsePrefixFails(input, i + 1, DIVIDE_BY_ZERO);
          return Err(DIVIDE_BY_ZERO);
        }
        splitters := splitters + {Place(charNum, width)};
      }
      charNum := charNum + 1;
    }
    assert input[..|input|] == input;
    if start.None? {
      return Err(NO_START);
    }
    if width.None? {
      return Err(NO_WIDTH);
    }
    if width.value == 0 {
      return Err(DIVIDE_BY_ZERO);
    }
    var w := width.value;
    return Ok(Manifold(splitters, {start.value}, w, charNum / w));
  }

  // ---------------------------------------------------------------------------------------
  // What TachyonManifold::from reads
  // ---------------------------------------------------------------------------------------

  /** Cell n is the only 'S'. */
  predicate OnlyStartAt(cells: seq<char>, n: nat) {
    n < |cells| && cells[n] == 'S' && forall k :: 0 <= k < |cells| && cells[k] == 'S' ==> k == n
  }

  /** The fold's state after the characters of s: every cell counted, the width once a line
      break is read, the splitters, and the start once the only 'S' so far is read. */
  ghost predicate Matches(p: Parse, s: string) {
    Reads(p, Cells(s), if HasBreak(s) then Some(FirstBreak(s)) else None)
  }

  /** The fold's state after reading `cells` with first-row width `w`. */
  ghost predicate Reads(p: Parse, cells: seq<char>, w: Option<nat>) {
    && p.charNum == |cells|
    && p.width == w
    && p.splitters == SplittersAt(cells, w)
    && (p.start.None? <==> CellsWith(cells, 'S') == {})
    && (p.start.Some? ==> exists n: nat :: OnlyStartAt(cells, n) && p.start.value == Place(n, w))
  }

  /** What makes the fold panic: a second 'S', or an 'S' or '^' after an empty first row. */
  ghost predicate Trouble(s: string) {
    |CellsWith(Cells(s), 'S')| >= 2 || (HasBreak(s) && FirstBreak(s) == 0)
  }

  /** Text without a line break is all cells. */
  lemma {:induction false} NoBreakAllCells(s: string)
    requires !HasBreak(s)
    ensures Cells(s) == s
  {
    if s != [] {
      var init := s[..|s| - 1];
      assert !HasBreak(init);
      NoBreakAllCells(init);
      assert s == init + [s[|s| - 1]];
    }
  }

  lemma CellsWithGrows(cells: seq<char>, c: char, d: char)
    ensures CellsWith(cells + [d], c) == CellsWith(cells, c) + (if d == c then {|cells|} else {})
  {
    var ext := cells + [d];
    forall n | n in CellsWith(ext, c) ensures n in CellsWith(cells, c) + (if d == c then {|cells|} else {}) {
      if n < |cells| { assert ext[n] == cells[n]; }
    }
    forall n | n in CellsWith(cells, c) ensures n in CellsWith(ext, c) {
      assert ext[n] == cells[n];
    }
  }

  lemma SplittersGrow(cells: seq<char>, d: char, width: Option<nat>)
    ensures SplittersAt(cells + [d], width)
         == SplittersAt(cells, width) + (if d == '^' then {Place(|cells|, width)} else {})
  {
    var ext := cells + [d];
    forall q | q in SplittersAt(ext, width)
      ensures q in SplittersAt(cells, width) + (if d == '^' then {Place(|cells|, width)} else {})
    {
      var n :| 0 <= n < |ext| && ext[n] == '^' && q == Place(n, width);
      if n < |cells| { assert cells[n] == ext[n]; }
    }
    forall q | q in SplittersAt(cells, width) ensures q in SplittersAt(ext, width) {
      var n :| 0 <= n < |cells| && cells[n] == '^' && q == Place(n, width);
      assert ext[n] == cells[n];
    }
  }

  /** The first line break ends the first row: the splitters read so far stay where they
      are. */
  lemma SplittersFirstRow(cells: seq<char>)
    ensures SplittersAt(cells, None) == SplittersAt(cells, Some(|cells|))
  {
    forall n | 0 <= n < |cells| ensures Place(n, None) == Place(n, Some(|cells|)) {
      PlaceFirstRow(n, |cells|);
    }
  }

  lemma OnlyStartGrows(cells: seq<char>, d: char, n: nat)
    requires OnlyStartAt(cells, n) && d != 'S'
    ensures OnlyStartAt(cells + [d], n)
  {
    var ext := cells + [d];
    forall k | 0 <= k < |ext| && ext[k] == 'S' ensures k == n {
      assert k < |cells| && cells[k] == ext[k];
    }
  }

  /** A line break: the first one fixes the width. */
  lemma ParseBreak(s: string, p: Parse)
    requires s != [] && IsBreak(s[|s| - 1]) && Matches(p, s[..|s| - 1])
    ensures ParseStep(p, s[|s| - 1]).Ok? && Matches(ParseStep(p, s[|s| - 1]).value, s)
  {
    var init := s[..|s| - 1];
    var cells := Cells(init);
    assert Cells(s) == cells;
    if !HasBreak(init) {
      NoBreakAllCells(init);
      assert FirstBreak(s) == |init| == |cells|;
      SplittersFirstRow(cells);
      var p' := ParseStep(p, s[|s| - 1]).value;
      if p.start.Some? {
        var n: nat :| OnlyStartAt(cells, n) && p.start.value == Place(n, p.width);
        PlaceFirstRow(n, |cells|);
        assert OnlyStartAt(Cells(s), n) && p'.start.value == Place(n, p'.width);
      }
    }
  }

  /** The text facts behind ParseCell: a cell at the end extends the cells and leaves the
      first row alone. */
  lemma CellAtEnd(s: string)
    requires s != [] && !IsBreak(s[|s| - 1])
    ensures Cells(s) == Cells(s[..|s| - 1]) + [s[|s| - 1]]
    ensures HasBreak(s) <==> HasBreak(s[..|s| - 1])
    ensures HasBreak(s[..|s| - 1]) ==> FirstBreak(s) == FirstBreak(s[..|s| - 1])
  {
  }

  /** A cell: counted, and recorded when it is the start or a splitter. */
  lemma ParseCell(s: string, p: Parse)
    requires s != [] && !IsBreak(s[|s| - 1]) && Matches(p, s[..|s| - 1])
    ensures ParseStep(p, s[|s| - 1]).Ok? ==> Matches(ParseStep(p, s[|s| - 1]).value, s)
    ensures ParseStep(p, s[|s| - 1]).Err? ==> Trouble(s)
  {
    CellAtEnd(s);
    var init := s[..|s| - 1];
    ReadCell(p, Cells(init), if HasBreak(init) then Some(FirstBreak(init)) else None, s[|s| - 1]);
  }

  /** One cell read by the fold. */
  lemma ReadCell(p: Parse, cells: seq<char>, w: Option<nat>, c: char)
    requires !IsBreak(c) && Reads(p, cells, w)
    ensures ParseStep(p, c).Ok? ==> Reads(ParseStep(p, c).value, cells + [c], w)
    ensures ParseStep(p, c).Err? ==> |CellsWith(cells + [c], 'S')| >= 2 || w == Some(0)
  {
    CellsWithGrows(cells, 'S', c);
    SplittersGrow(cells, c, w);
    if c == 'S' {
      if p.start.None? && w != Some(0) {
        ParseFirstStart(cells, c);
      } else if w != Some(0) {
        var n: nat :| OnlyStartAt(cells, n) && p.start.value == Place(n, w);
        ParseSecondStart(cells, n);
      }
    } else if p.start.Some? {
      var n: nat :| OnlyStartAt(cells, n) && p.start.value == Place(n, w);
      OnlyStartGrows(cells, c, n);
    }
  }

  lemma ParseFirstStart(cells: seq<char>, c: char)
    requires c == 'S' && CellsWith(cells, 'S') == {}
    ensures OnlyStartAt(cells + [c], |cells|)
  {
    var ext := cells + [c];
    forall k | 0 <= k < |ext| && ext[k] == 'S' ensures k == |cells| {
      assert k !in CellsWith(cells, 'S');
    }
  }

  lemma ParseSecondStart(cells: seq<char>, n: nat)
    requires OnlyStartAt(cells, n)
    ensures |CellsWith(cells + ['S'], 'S')| >= 2
  {
    assert n in CellsWith(cells, 'S');
    CellsWithGrows(cells, 'S', 'S');
    assert {n, |cells|} <= CellsWith(cells + ['S'], 'S');
    SubsetCard({n, |cells|}, CellsWith(cells + ['S'], 'S'));
  }

  /** Once the fold has panicked, the rest of the text keeps a reason for it. */
  lemma TroubleGrows(s: string)
    requires s != [] && Trouble(s[..|s| - 1])
    ensures Trouble(s)
  {
    var init := s[..|s| - 1];
    var c := s[|s| - 1];
    var cells := Cells(init);
    assert Cells(s) == cells + if IsBreak(c) then [] else [c];
    assert HasBreak(init) ==> HasBreak(s) && FirstBreak(s) == FirstBreak(init);
    if !IsBreak(c) {
      CellsWithGrows(cells, 'S', c);
      var before := CellsWith(cells, 'S');
      assert before <= CellsWith(Cells(s), 'S');
      SubsetCard(before, CellsWith(Cells(s), 'S'));
    } else {
      assert Cells(s) == cells;
    }
    if HasBreak(init) && FirstBreak(init) == 0 {
      assert HasBreak(s) && FirstBreak(s) == 0;
    } else {
      assert |CellsWith(cells, 'S')| >= 2;
      assert |CellsWith(Cells(s), 'S')| >= 2;
    }
  }

  /** The fold either reads the text as Matches says, or panics for a reason Trouble names. */
  lemma {:induction false} ParsePrefixSpec(s: string)
    ensures ParsePrefix(s).Ok? ==> Matches(ParsePrefix(s).value, s)
    ensures ParsePrefix(s).Err? ==> Trouble(s)
  {
    if s == [] {
      assert CellsWith([], 'S') == {};
    } else {
      var init := s[..|s| - 1];
      ParsePrefixSpec(init);
      var prev := ParsePrefix(init);
      if prev.Err? {
        TroubleGrows(s);
      } else if IsBreak(s[|s| - 1]) {
        ParseBreak(s, prev.value);
      } else {
        ParseCell(s, prev.value);
      }
    }
  }

  /** A grid with a line break has at least as many cells as its first row. */
  lemma {:induction false} FirstRowCells(s: string)
    requires HasBreak(s)
    ensures FirstBreak(s) <= |Cells(s)|
  {
    var init := s[..|s| - 1];
    if HasBreak(init) {
      FirstRowCells(init);
    } else {
      NoBreakAllCells(init);
    }
  }

  /** TachyonManifold::from succeeds exactly when the text has one 'S', a line break, and a
      non-empty first row. Then the width is the first row's length, the height is the
      number of cells over the width (at least one), the one beam is at the 'S' and the
      splitters are at the '^'s, with cell n in row n / width and column n % width. */
  lemma ManifoldOfSpec(input: string)
    ensures ManifoldOf(input).Ok? <==>
      |CellsWith(Cells(input), 'S')| == 1 && HasBreak(input) && FirstBreak(input) > 0
    ensures ManifoldOf(input).Ok? ==>
      var m := ManifoldOf(input).value;
      var cells := Cells(input);
      && m.width == FirstBreak(input)
      && m.height == |cells| / m.width && m.height >= 1
      && m.splitters == (set n | 0 <= n < |cells| && cells[n] == '^' :: RowColOf(n, m.width))
      && (exists n: nat :: OnlyStartAt(cells, n) && m.tachyons == {RowColOf(n, m.width)})
  {
    ParsePrefixSpec(input);
    var cells := Cells(input);
    var p := ParsePrefix(input);
    if p.Ok? {
      var w := FirstBreak(input);
      if p.value.start.Some? {
        var n: nat :| OnlyStartAt(cells, n) && p.value.start.value == Place(n, p.value.width);
        assert CellsWith(cells, 'S') == {n};
      }
      if ManifoldOf(input).Ok? {
        FirstRowCells(input);
        var n: nat :| OnlyStartAt(cells, n) && p.value.start.value == Place(n, p.value.width);
        PlaceKnown(n, w);
        forall k | 0 <= k < |cells| ensures Place(k, Some(w)) == RowColOf(k, w) {
          PlaceKnown(k, w);
        }
        DivAtLeastOne(|cells|, w);
      }
    }
  }

  lemma DivAtLeastOne(a: nat, b: nat)
    requires 0 < b <= a
    ensures a / b >= 1
  {
  }

  /** What a parsed manifold always satisfies: a non-empty grid and one beam inside the
      width of a row. */
  ghost predicate WellFormed(m: Manifold) {
    && m.width >= 1 && m.height >= 1 && |m.tachyons| == 1
    && forall t :: t in m.tachyons ==> t.col < m.width
  }

  lemma ManifoldOfWellFormed(input: string)
    requires ManifoldOf(input).Ok?
    ensures WellFormed(ManifoldOf(input).value)
  {
    ManifoldOfSpec(input);
    var m := ManifoldOf(input).value;
    var n: nat :| OnlyStartAt(Cells(input), n) && m.tachyons == {RowColOf(n, m.width)};
  }

  /** The start is above the last row. When the 'S' sits in a short last row, the source's
      beams fall for ever: neither part stops. */
  ghost predicate StartInGrid(m: Manifold) {
    forall t :: t in m.tachyons ==> t.row < m.height
  }

  // ---------------------------------------------------------------------------------------
  // TachyonManifold::step: part one
  // ---------------------------------------------------------------------------------------

  predicate AtBottom(m: Manifold, t: RowCol) {
    t.row == m.height - 1
  }

  function Below(t: RowCol): RowCol {
    RowCol(t.row + 1, t.col)
  }

  /** A beam above a splitter splits. */
  predicate Splits(m: Manifold, t: RowCol) {
    !AtBottom(m, t) && Below(t) in m.splitters
  }

  /** Where a beam is after one step: nowhere from the bottom row, to the cells left and
      right of a splitter below it (those inside the grid), or one row down. */
  function Successors(m: Manifold, t: RowCol): set<RowCol> {
    if AtBottom(m, t) then {}
    else if Below(t) in m.splitters then
      (if t.col != 0 then {RowCol(t.row + 1, t.col - 1)} else {})
      + (if t.col != m.width - 1 then {RowCol(t.row + 1, t.col + 1)} else {})
    else {Below(t)}
  }

  function NextBeams(m: Manifold, ts: set<RowCol>): set<RowCol> {
    set t, u | t in ts && u in Successors(m, t) :: u
  }

  function Splitting(m: Manifold, ts: set<RowCol>): set<RowCol> {
    set t | t in ts && Splits(m, t)
  }

  function Bottom(m: Manifold, ts: set<RowCol>): set<RowCol> {
    set t | t in ts && AtBottom(m, t)
  }

  lemma NextBeamsAdd(m: Manifold, done: set<RowCol>, t: RowCol)
    ensures NextBeams(m, done + {t}) == NextBeams(m, done) + Successors(m, t)
  {
  }

  lemma SplittingAdd(m: Manifold, done: set<RowCol>, t: RowCol)
    requires t !in done
    ensures |Splitting(m, done + {t})| == |Splitting(m, done)| + if Splits(m, t) then 1 else 0
    ensures |Bottom(m, done + {t})| == |Bottom(m, done)| + if AtBottom(m, t) then 1 else 0
  {
    if Splits(m, t) {
      assert Splitting(m, done + {t}) == Splitting(m, done) + {t};
    } else {
      assert Splitting(m, done + {t}) == Splitting(m, done);
    }
    BottomAdd(m, done, t);
  }

  lemma BottomAdd(m: Manifold, done: set<RowCol>, t: RowCol)
    requires t !in done
    ensures |Bottom(m, done + {t})| == |Bottom(m, done)| + if AtBottom(m, t) then 1 else 0
  {
    if AtBottom(m, t) {
      assert Bottom(m, done + {t}) == Bottom(m, done) + {t};
    } else {
      assert Bottom(m, done + {t}) == Bottom(m, done);
    }
  }

  /** The body of TachyonManifold::step for one beam: the beams it leaves in the next row,
      whether it split and whether it was in the bottom row. */
  method Advance(m: Manifold, t: RowCol) returns (beams: set<RowCol>, split: bool, bottom: bool)
    requires m.width >= 1 && m.height >= 1
    ensures beams == Successors(m, t)
    ensures split == Splits(m, t)
    ensures bottom == AtBottom(m, t)
  {
    beams, split, bottom := {}, false, false;
    if t.row == m.height - 1 {
      bottom := true;
      return;
    }
    var below := RowCol(t.row + 1, t.col);
    if below in m.splitters {
      if t.col != 0 {
        beams := beams + {RowCol(t.row + 1, t.col - 1)};
      }
      if t.col != m.width - 1 {
        beams := beams + {RowCol(t.row + 1, t.col + 1)};
      }
      split := true;
    } else {
      beams := {below};
    }
  }

  /** TachyonManifold::step: every beam moves at once; the split count and whether any beam
      was above the bottom row. */
  method Step(m: Manifold) returns (next: Manifold, splits: nat, canContinue: bool)
    requires m.width >= 1 && m.height >= 1
    ensures next == m.(tachyons := NextBeams(m, m.tachyons))
    ensures splits == |Splitting(m, m.tachyons)|
    ensures canContinue == (|m.tachyons| != |Bottom(m, m.tachyons)|)
  {
    splits := 0;
    var nextTachyons: set<RowCol> := {};
    var initialCount := |m.tachyons|;
    var reachedBottom := 0;
    var remaining := m.tachyons;
    while remaining != {}
      invariant remaining <= m.tachyons
      invariant nextTachyons == NextBeams(m, m.tachyons - remaining)
      invariant splits == |Splitting(m, m.tachyons - remaining)|
      invariant reachedBottom == |Bottom(m, m.tachyons - remaining)|
      decreases |remaining|
    {
      var t :| t in remaining;
      ghost var done := m.tachyons - remaining;
      assert m.tachyons - (remaining - {t}) == done + {t};
      NextBeamsAdd(m, done, t);
      SplittingAdd(m, done, t);
      remaining := remaining - {t};
      var beams, split, bottom := Advance(m, t);
      nextTachyons := nextTachyons + beams;
      if split {
        splits := splits + 1;
      }
      if bottom {
        reachedBottom := reachedBottom + 1;
      }
    }
    assert m.tachyons - remaining == m.tachyons;
    canContinue := initialCount != reachedBottom;
    next := m.(tachyons := nextTachyons);
  }

  /** All the beams are in one row, inside the width. */
  ghost predicate InRow(ts: set<RowCol>, row: nat, width: nat) {
    forall t :: t in ts ==> t.row == row && t.col < width
  }

  /** Beams in one row of a non-empty grid, the shape part one steps from. */
  ghost predicate Ready(m: Manifold, row: nat) {
    m.width >= 1 && row < m.height && InRow(m.tachyons, row, m.width)
  }

  lemma SubsetCard<T>(a: set<T>, b: set<T>)
    requires a <= b
    ensures |a| <= |b|
    ensures |a| == |b| ==> a == b
  {
    assert b == a + (b - a);
  }

  /** One step moves every beam of a row one row down and keeps it inside the width; the
      grid does not change. There are no more splits than beams, and the beams can go on
      exactly when one of them is above the bottom row. */
  lemma StepSpec(m: Manifold, row: nat)
    requires Ready(m, row)
    ensures InRow(NextBeams(m, m.tachyons), row + 1, m.width)
    ensures |Splitting(m, m.tachyons)| <= |m.tachyons|
    ensures |m.tachyons| == |Bottom(m, m.tachyons)| <==> forall t :: t in m.tachyons ==> AtBottom(m, t)
    ensures |m.tachyons| != |Bottom(m, m.tachyons)| ==> row + 1 < m.height
  {
    SubsetCard(Splitting(m, m.tachyons), m.tachyons);
    SubsetCard(Bottom(m, m.tachyons), m.tachyons);
    if forall t :: t in m.tachyons ==> AtBottom(m, t) {
      assert Bottom(m, m.tachyons) == m.tachyons;
    } else {
      var t :| t in m.tachyons && !AtBottom(m, t);
      assert t !in Bottom(m, m.tachyons);
    }
  }

  /** The splitters directly below a splitting beam. */
  function Hit(m: Manifold, ts: set<RowCol>): set<RowCol> {
    set t | t in ts && Splits(m, t) :: Below(t)
  }

  lemma HitAdd(m: Manifold, rest: set<RowCol>, t: RowCol)
    requires t !in rest
    ensures Hit(m, rest + {t}) == Hit(m, rest) + if Splits(m, t) then {Below(t)} else {}
    ensures Below(t) !in Hit(m, rest)
  {
  }

  /** The splits of a step are the splitters directly below a beam, each counted once. */
  lemma {:induction false} SplitsAreSplitters(m: Manifold, ts: set<RowCol>)
    ensures |Splitting(m, ts)| == |Hit(m, ts)|
    ensures Hit(m, ts) <= m.splitters
    decreases |ts|
  {
    if ts != {} {
      var t :| t in ts;
      var rest := ts - {t};
      assert ts == rest + {t};
      SplitsAreSplitters(m, rest);
      SplittingAdd(m, rest, t);
      HitAdd(m, rest, t);
    }
  }

  /** Part one's answer for beams in `row`: the splits of every step until no beam is above
      the bottom row. */
  function TotalSplits(m: Manifold, row: nat): nat
    requires Ready(m, row)
    decreases m.height - row
  {
    var splits := |Splitting(m, m.tachyons)|;
    if |m.tachyons| == |Bottom(m, m.tachyons)| then splits
    else
      StepSpec(m, row);
      splits + TotalSplits(m.(tachyons := NextBeams(m, m.tachyons)), row + 1)
  }

  /** The splitters in the rows below `row`. */
  function SplittersBelow(m: Manifold, row: nat): set<RowCol> {
    set s | s in m.splitters && s.row > row
  }

  /** The splits of one step are splitters of the next row. */
  lemma SplitsInRow(m: Manifold, row: nat)
    requires InRow(m.tachyons, row, m.width)
    ensures |Splitting(m, m.tachyons)| <= |set s | s in m.splitters && s.row == row + 1|
  {
    SplitsAreSplitters(m, m.tachyons);
    var hit := Hit(m, m.tachyons);
    var inRow := set s | s in m.splitters && s.row == row + 1;
    assert hit <= inRow;
    SubsetCard(hit, inRow);
  }

  lemma SplittersBelowNext(m: Manifold, row: nat)
    ensures |SplittersBelow(m, row)|
      == |set s | s in m.splitters && s.row == row + 1| + |SplittersBelow(m, row + 1)|
  {
    var inRow := set s | s in m.splitters && s.row == row + 1;
    assert SplittersBelow(m, row) == inRow + SplittersBelow(m, row + 1);
    assert inRow !! SplittersBelow(m, row + 1);
  }

  /** Each splitter splits beams in at most one step, so part one never counts more splits
      than there are splitters below the start. */
  lemma {:induction false} TotalSplitsBound(m: Manifold, row: nat)
    requires Ready(m, row)
    ensures TotalSplits(m, row) <= |SplittersBelow(m, row)|
    decreases m.height - row
  {
    SplitsInRow(m, row);
    SplittersBelowNext(m, row);
    if |m.tachyons| != |Bottom(m, m.tachyons)| {
      StepSpec(m, row);
      var next := m.(tachyons := NextBeams(m, m.tachyons));
      TotalSplitsBound(next, row + 1);
      assert SplittersBelow(next, row + 1) == SplittersBelow(m, row + 1);
    }
  }

  /** The splits part one still counts from beams in `row`. */
  ghost predicate StillToCount(m: Manifold, row: nat, rest: nat) {
    Ready(m, row) && rest == TotalSplits(m, row)
  }

  /** The loop of star_one: step until no beam is above the bottom row, adding up the
      splits. */
  method CountSplits(m: Manifold, ghost row: nat) returns (splitCount: nat)
    requires Ready(m, row)
    ensures splitCount == TotalSplits(m, row)
  {
    var tm := m;
    ghost var r: nat := row;
    ghost var total: nat := TotalSplits(m, row);
    ghost var rest: nat := total;
    splitCount := 0;
    var canContinue := true;
    while canContinue
      invariant canContinue ==> StillToCount(tm, r, rest)
      invariant splitCount + rest == total
      invariant !canContinue ==> rest == 0
      invariant tm.height == m.height && r <= tm.height
      decreases tm.height - r
    {
      var ntm, splits;
      ghost var nextRest;
      ntm, splits, canContinue, nextRest := CountingStep(tm, r, rest);
      splitCount := splitCount + splits;
      rest := nextRest;
      tm := ntm;
      r := r + 1;
    }
  }

  /** One Step of the loop of star_one, with what is left to count afterwards. */
  method CountingStep(m: Manifold, ghost row: nat, ghost rest: nat)
    returns (next: Manifold, splits: nat, canContinue: bool, ghost nextRest: nat)
    requires StillToCount(m, row, rest)
    ensures rest == splits + nextRest && next.height == m.height && row + 1 <= m.height
    ensures canContinue ==> StillToCount(next, row + 1, nextRest)
    ensures !canContinue ==> nextRest == 0
  {
    next, splits, canContinue := Step(m);
    TotalSplitsUnfold(m, row, next, splits, canContinue);
    nextRest := if canContinue then TotalSplits(next, row + 1) else 0;
  }

  /** star_one: parse the manifold and count the splits of its beam. */
  method StarOne(input: string) returns (r: Result<nat>)
    requires ManifoldOf(input).Ok? ==> StartInGrid(ManifoldOf(input).value)
    ensures r.Err? <==> ManifoldOf(input).Err?
    ensures r.Ok? ==> var m := ManifoldOf(input).value;
      forall t :: t in m.tachyons ==> Ready(m, t.row) && r.value == TotalSplits(m, t.row)
  {
    var parsed := FromInput(input);
    if parsed.Err? {
      return Err(parsed.msg);
    }
    var m := parsed.value;
    ManifoldOfWellFormed(input);
    ghost var start :| start in m.tachyons;
    OneStart(m, start);
    var splitCount := CountSplits(m, start.row);
    return Ok(splitCount);
  }

  lemma TotalSplitsUnfold(m: Manifold, row: nat, next: Manifold, splits: nat, canContinue: bool)
    requires Ready(m, row)
    requires next == m.(tachyons := NextBeams(m, m.tachyons))
    requires splits == |Splitting(m, m.tachyons)| && canContinue == (|m.tachyons| != |Bottom(m, m.tachyons)|)
    ensures !canContinue ==> TotalSplits(m, row) == splits
    ensures canContinue ==> Ready(next, row + 1)
    ensures canContinue ==> TotalSplits(m, row) == splits + TotalSplits(next, row + 1)
  {
    StepSpec(m, row);
  }

  /** The one beam of a well-formed manifold starts in its row, inside the grid. */
  lemma OneStart(m: Manifold, start: RowCol)
    requires WellFormed(m) && StartInGrid(m) && start in m.tachyons
    ensures m.tachyons == {start}
    ensures Ready(m, start.row)
  {
    forall t | t in m.tachyons ensures t == start {
      SingletonElements(m.tachyons, t, start);
    }
  }

  lemma SingletonElements<T>(s: set<T>, a: T, b: T)
    requires |s| == 1 && a in s && b in s
    ensures a == b
  {
    if a != b {
      assert {a, b} <= s;
      SubsetCard({a, b}, s);
    }
  }

  // ---------------------------------------------------------------------------------------
  // QuantumTachyonManifold: part two
  // ---------------------------------------------------------------------------------------

  const NO_TACHYON: string := "There must be at least one tachyon in the original tachyon manifold to create a quantum tachyon mnaifold from it"

  /** One timeline: the shared splitters and a single beam. */
  datatype Universe = Universe(splitters: set<RowCol>, tachyon: RowCol, width: nat, height: nat)

  /** What one step of a timeline gives: nothing more from the bottom row, the beam one row
      down, or the timelines left and right of a splitter (None outside the grid). */
  datatype CatInABox = JobsDone | Down(next: Universe) | Split(left: Option<Universe>, right: Option<Universe>)

  /** The same grid with this timeline's beam as its only beam. */
  function Classic(u: Universe): Manifold {
    Manifold(u.splitters, {u.tachyon}, u.width, u.height)
  }

  /** QuantumTachyonManifold::from: some beam of the manifold, which must have one. */
  method QuantumFrom(m: Manifold) returns (r: Result<Universe>)
    ensures r.Err? <==> m.tachyons == {}
    ensures r.Ok? ==> r.value.tachyon in m.tachyons && r.value == Universe(m.splitters, r.value.tachyon, m.width, m.height)
  {
    if m.tachyons == {} {
      return Err(NO_TACHYON);
    }
    var t :| t in m.tachyons;
    return Ok(Universe(m.splitters, t, m.width, m.height));
  }

  /** The timelines a step leaves, in the order star_two pushes them. */
  function Children(c: CatInABox): seq<Universe> {
    match c
    case JobsDone => []
    case Down(next) => [next]
    case Split(left, right) =>
      (if left.Some? then [left.value] else []) + (if right.Some? then [right.value] else [])
  }

  /** QuantumTachyonManifold::step_quantumly. */
  function StepQuantumly(u: Universe): CatInABox
    requires u.width >= 1 && u.height >= 1
  {
    var t := u.tachyon;
    if t.row == u.height - 1 then JobsDone
    else
      var next := RowCol(t.row + 1, t.col);
      if next in u.splitters then
        var left := if t.col != 0 then Some(u.(tachyon := RowCol(t.row + 1, t.col - 1))) else None;
        var right := if t.col != u.width - 1 then Some(u.(tachyon := RowCol(t.row + 1, t.col + 1))) else None;
        Split(left, right)
      else Down(u.(tachyon := next))
  }

  /** A quantum step agrees with part one's step from the same beam: it ends in the bottom
      row, it splits when a splitter is below, and its timelines are exactly part one's next
      beams, one timeline each, over the same grid. */
  lemma StepQuantumlySpec(u: Universe)
    requires u.width >= 1 && u.height >= 1
    ensures StepQuantumly(u).JobsDone? <==> AtBottom(Classic(u), u.tachyon)
    ensures StepQuantumly(u).Split? <==> Splits(Classic(u), u.tachyon)
    ensures (set v | v in Children(StepQuantumly(u)) :: v.tachyon) == Successors(Classic(u), u.tachyon)
    ensures |Children(StepQuantumly(u))| == |Successors(Classic(u), u.tachyon)|
    ensures forall v :: v in Children(StepQuantumly(u)) ==> Classic(v) == Classic(u).(tachyons := {v.tachyon})
  {
  }

  /** A timeline whose beam is inside the grid. */
  predicate Live(u: Universe) {
    u.width >= 1 && u.tachyon.row < u.height
  }

  /** The splits over every timeline that grows from `u`, a split with no timeline inside the
      grid included. */
  function QuantumSplits(u: Universe): nat
    requires Live(u)
    decreases u.height - u.tachyon.row
  {
    var t := u.tachyon;
    if t.row == u.height - 1 then 0
    else if Below(t) in u.splitters then
      1 + (if t.col != 0 then QuantumSplits(u.(tachyon := RowCol(t.row + 1, t.col - 1))) else 0)
        + (if t.col != u.width - 1 then QuantumSplits(u.(tachyon := RowCol(t.row + 1, t.col + 1))) else 0)
    else QuantumSplits(u.(tachyon := Below(t)))
  }

  /** No splitter below the beam: one timeline only. */
  lemma {:induction false} QuantumSplitsNone(u: Universe)
    requires Live(u) && forall s :: s in u.splitters ==> s.row <= u.tachyon.row
    ensures QuantumSplits(u) == 0
    decreases u.height - u.tachyon.row
  {
    var t := u.tachyon;
    if t.row != u.height - 1 {
      assert Below(t) !in u.splitters;
      QuantumSplitsNone(u.(tachyon := Below(t)));
    }
  }

  function SumSplits(us: seq<Universe>): nat
    requires forall u :: u in us ==> Live(u)
  {
    if us == [] then 0 else QuantumSplits(us[0]) + SumSplits(us[1..])
  }

  lemma {:induction false} SumSplitsAppend(a: seq<Universe>, b: seq<Universe>)
    requires forall u :: u in a ==> Live(u)
    requires forall u :: u in b ==> Live(u)
    ensures SumSplits(a + b) == SumSplits(a) + SumSplits(b)
  {
    if a == [] {
      assert a + b == b;
    } else {
      assert (a + b)[0] == a[0] && (a + b)[1..] == a[1..] + b;
      SumSplitsAppend(a[1..], b);
    }
  }

  /** The timeline in grid `m` with its beam in `row`. */
  predicate InGrid(u: Universe, m: Manifold, row: nat) {
    u.splitters == m.splitters && u.width == m.width && u.height == m.height && u.tachyon.row == row
  }

  /** A step of a live timeline: its split, if any, plus the splits of its children. */
  lemma QuantumStep(u: Universe, m: Manifold, row: nat)
    requires InGrid(u, m, row) && Live(u)
    ensures var cs := Children(StepQuantumly(u));
      && (forall v :: v in cs ==> InGrid(v, m, row + 1) && Live(v))
      && QuantumSplits(u) == (if StepQuantumly(u).Split? then 1 else 0) + SumSplits(cs)
  {
    QuantumChildren(u, m, row);
    var c := StepQuantumly(u);
    var cs := Children(c);
    if c.Split? {
      var l := if c.left.Some? then [c.left.value] else [];
      var r := if c.right.Some? then [c.right.value] else [];
      assert cs == l + r;
      SumSplitsAppend(l, r);
      SumSplitsOne(l);
      SumSplitsOne(r);
    } else if c.Down? {
      SumSplitsOne(cs);
    }
  }

  lemma QuantumChildren(u: Universe, m: Manifold, row: nat)
    requires InGrid(u, m, row) && Live(u)
    ensures forall v :: v in Children(StepQuantumly(u)) ==> InGrid(v, m, row + 1) && Live(v)
  {
  }

  lemma SumSplitsOne(us: seq<Universe>)
    requires |us| <= 1 && forall u :: u in us ==> Live(u)
    ensures SumSplits(us) == if us == [] then 0 else QuantumSplits(us[0])
  {
    if us != [] {
      assert us[1..] == [];
    }
  }

  /** The for-loop of star_two: each timeline steps, the survivors are collected and every
      split adds a universe. */
  method StepUniverses(current: seq<Universe>, parallel: nat, ghost m: Manifold, ghost row: nat)
    returns (step: seq<Universe>, parallelAfter: nat)
    requires forall u :: u in current ==> InGrid(u, m, row) && Live(u)
    ensures forall u :: u in step ==> InGrid(u, m, row + 1) && Live(u)
    ensures parallelAfter + SumSplits(step) == parallel + SumSplits(current)
  {
    step := [];
    parallelAfter := parallel;
    for k := 0 to |current|
      invariant forall v :: v in step ==> InGrid(v, m, row + 1) && Live(v)
      invariant parallelAfter + SumSplits(step) + SumSplits(current[k..]) == parallel + SumSplits(current)
    {
      var u := current[k];
      assert u in current;
      SumSplitsFirst(current, k);
      var quantumStep := StepQuantumly(u);
      QuantumStep(u, m, row);
      SumSplitsAppend(step, Children(quantumStep));
      ghost var before := step;
      match quantumStep {
        case JobsDone =>
        case Down(next) =>
          step := step + [next];
        case Split(left, right) =>
          if left.Some? {
            step := step + [left.value];
          }
          if right.Some? {
            step := step + [right.value];
          }
          parallelAfter := parallelAfter + 1;
      }
      assert step == before + Children(quantumStep);
    }
  }

  lemma SumSplitsFirst(us: seq<Universe>, k: nat)
    requires k < |us| && forall u :: u in us ==> Live(u)
    ensures forall u :: u in us[k..] ==> Live(u)
    ensures SumSplits(us[k..]) == QuantumSplits(us[k]) + SumSplits(us[k + 1..])
  {
    assert us[k..][0] == us[k] && us[k..][1..] == us[k + 1..];
  }

  /** The loop of star_two: step every timeline until none is left. */
  method CountUniverses(root: Universe, ghost m: Manifold) returns (parallelUniverses: nat)
    requires InGrid(root, m, root.tachyon.row) && Live(root)
    ensures parallelUniverses == 1 + QuantumSplits(root)
  {
    ghost var row := root.tachyon.row;
    parallelUniverses := 1;
    var current := [root];
    assert SumSplits(current) == QuantumSplits(root) + SumSplits([]);
    while |current| > 0
      invariant forall u :: u in current ==> InGrid(u, m, row) && Live(u)
      invariant parallelUniverses + SumSplits(current) == 1 + QuantumSplits(root)
      invariant |current| > 0 ==> row < m.height
      decreases m.height - row
    {
      assert current[0] in current;
      current, parallelUniverses := StepUniverses(current, parallelUniverses, m, row);
      row := row + 1;
      if |current| > 0 {
        assert current[0] in current;
      }
    }
  }

  /** star_two: one universe to start with, one more at every split of every timeline. */
  method StarTwo(input: string) returns (r: Result<nat>)
    requires ManifoldOf(input).Ok? ==> StartInGrid(ManifoldOf(input).value)
    ensures r.Err? <==> ManifoldOf(input).Err?
    ensures r.Ok? ==> var m := ManifoldOf(input).value;
      forall t :: t in m.tachyons ==>
        var u := Universe(m.splitters, t, m.width, m.height);
        Live(u) && r.value == 1 + QuantumSplits(u)
  {
    var parsed := FromInput(input);
    if parsed.Err? {
      return Err(parsed.msg);
    }
    var manifold := parsed.value;
    ManifoldOfWellFormed(input);
    var rootQuantum := QuantumFrom(manifold);
    if rootQuantum.Err? {
      assert false;
    }
    var root := rootQuantum.value;
    OneStart(manifold, root.tachyon);
    var parallelUniverses := CountUniverses(root, manifold);
    return Ok(parallelUniverses);
  }
}
