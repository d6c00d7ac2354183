/** Day 9: red tiles given as "x,y" lines. Part one picks the largest rectangle two red
    tiles span; the floor also joins consecutive red tiles by green segments, closing the
    loop, and classifies each red tile as a corner of that loop. */
module Day9 {
  import opened Common
  import IndexPairs

  datatype Point = Point(x: nat, y: nat)

  const UNWRAP_NONE: string := "called `Option::unwrap()` on a `None` value"

  // ---------------------------------------------------------------------------------------
  // Point::from and Floor::from
  // ---------------------------------------------------------------------------------------

  /** Point::from: the first two comma-separated pieces as usize numbers; further pieces are
      never looked at. */
  function PointOf(line: string): Result<Point> {
    var xy := Split(line, ',');
    var x := ParseUnsigned(xy[0], USIZE_MAX);
    if x.Err? then Err(x.msg)
    else if |xy| < 2 then Err(UNWRAP_NONE)
    else
      var y := ParseUnsigned(xy[1], USIZE_MAX);
      if y.Err? then Err(y.msg) else Ok(Point(x.value, y.value))
  }

  function PointText(p: Point): string {
    DecimalString(p.x) + "," + DecimalString(p.y)
  }

  lemma NoComma(n: nat)
    ensures forall j :: 0 <= j < |DecimalString(n)| ==> DecimalString(n)[j] != ','
  {
    DecimalStringRoundTrip(n);
  }

  /** Point::from reads back a written point exactly when both coordinates fit a usize. */
  lemma PointOfText(p: Point)
    ensures PointOf(PointText(p)).Ok? <==> p.x <= USIZE_MAX && p.y <= USIZE_MAX
    ensures PointOf(PointText(p)).Ok? ==> PointOf(PointText(p)).value == p
  {
    var a, b := DecimalString(p.x), DecimalString(p.y);
    NoComma(p.x);
    NoComma(p.y);
    SplitFirst(a, b, ',');
    SplitAbsent(b, ',');
    assert PointText(p) == a + [','] + b;
    ParseDecimalString(p.x, USIZE_MAX);
    ParseDecimalString(p.y, USIZE_MAX);
  }

  /** A line without a comma has no y: the second unwrap panics, if the x parses at all. */
  lemma PointOfNoComma(line: string)
    requires forall j :: 0 <= j < |line| ==> line[j] != ','
    ensures PointOf(line).Err?
  {
    SplitAbsent(line, ',');
  }

  /** Floor::from: one point per line. */
  function FloorOf(input: string): Result<seq<Point>> {
    ParseEach(Lines(input), PointOf)
  }

  predicate SharesALineWith(a: Point, b: Point) {
    a.x == b.x || a.y == b.y
  }

  // ---------------------------------------------------------------------------------------
  // get_pairs and star_one
  // ---------------------------------------------------------------------------------------

  /** The points at the index pairs `idx`. */
  function At(points: seq<Point>, idx: seq<(nat, nat)>): (r: seq<(Point, Point)>)
    requires forall k :: 0 <= k < |idx| ==> idx[k].0 < |points| && idx[k].1 < |points|
    ensures |r| == |idx|
    ensures forall k :: 0 <= k < |r| ==> r[k] == (points[idx[k].0], points[idx[k].1])
  {
    seq(|idx|, k requires 0 <= k < |idx| => (points[idx[k].0], points[idx[k].1]))
  }

  lemma AtAppend(points: seq<Point>, a: seq<(nat, nat)>, b: seq<(nat, nat)>)
    requires forall k :: 0 <= k < |a| ==> a[k].0 < |points| && a[k].1 < |points|
    requires forall k :: 0 <= k < |b| ==> b[k].0 < |points| && b[k].1 < |points|
    ensures At(points, a + b) == At(points, a) + At(points, b)
  {
  }

  lemma RowsUpToNext(i: nat, n: nat)
    ensures IndexPairs.RowsUpTo(i + 1, n) == IndexPairs.RowsUpTo(i, n) + IndexPairs.Row(i, n)
  {
  }

  /** The first m pairs of row i: (points[i], points[i+1]), ..., (points[i], points[i+m]). */
  function RowPairs(points: seq<Point>, i: nat, m: nat): (r: seq<(Point, Point)>)
    requires i + m < |points|
    ensures |r| == m
  {
    seq(m, k requires 0 <= k < m => (points[i], points[i + 1 + k]))
  }

  lemma RowPairsSnoc(points: seq<Point>, i: nat, m: nat)
    requires i + m + 1 < |points|
    ensures RowPairs(points, i, m + 1) == RowPairs(points, i, m) + [(points[i], points[i + 1 + m])]
  {
  }

  lemma RowPairsRow(points: seq<Point>, i: nat)
    requires i < |points|
    ensures At(points, IndexPairs.Row(i, |points|)) == RowPairs(points, i, |points| - i - 1)
  {
  }

  /** get_pairs: the nested loops push (points[i], points[j]) for every i < j. */
  method GetPairs(points: seq<Point>) returns (pairs: seq<(Point, Point)>)
    ensures pairs == At(points, IndexPairs.Pairs(|points|))
  {
    var n := |points|;
    pairs := [];
    for outer := 0 to n
      invariant pairs == At(points, IndexPairs.RowsUpTo(outer, n))
    {
      ghost var before := pairs;
      for inner := outer + 1 to n
        invariant pairs == before + RowPairs(points, outer, inner - outer - 1)
      {
        var pairs' := pairs + [(points[outer], points[inner])];
        PairsStep(points, outer, inner - outer - 1, before, pairs, pairs');
        pairs := pairs';
      }
      RowsUpToStep(points, outer);
    }
  }

  /** A round of the inner loop of get_pairs adds the next pair of the row. */
  lemma PairsStep(points: seq<Point>, i: nat, m: nat, before: seq<(Point, Point)>,
                  pairs: seq<(Point, Point)>, pairs': seq<(Point, Point)>)
    requires i + m + 1 < |points|
    requires pairs == before + RowPairs(points, i, m)
    requires pairs' == pairs + [(points[i], points[i + 1 + m])]
    ensures pairs' == before + RowPairs(points, i, m + 1)
  {
    RowPairsSnoc(points, i, m);
    AppendAssoc(before, RowPairs(points, i, m), [(points[i], points[i + 1 + m])]);
  }

  lemma RowsUpToStep(points: seq<Point>, i: nat)
    requires i < |points|
    ensures At(points, IndexPairs.RowsUpTo(i + 1, |points|))
         == At(points, IndexPairs.RowsUpTo(i, |points|)) + RowPairs(points, i, |points| - i - 1)
  {
    RowPairsRow(points, i);
    RowsUpToNext(i, |points|);
    AtAppend(points, IndexPairs.RowsUpTo(i, |points|), IndexPairs.Row(i, |points|));
  }

  function Min(a: nat, b: nat): nat {
    if a <= b then a else b
  }

  function Max(a: nat, b: nat): nat {
    if a >= b then a else b
  }

  /** Tiles in the rectangle with corners a and b, borders included. */
  function Area(a: Point, b: Point): nat {
    (Max(a.x, b.x) - Min(a.x, b.x) + 1) * (Max(a.y, b.y) - Min(a.y, b.y) + 1)
  }

  lemma AreaPositive(a: Point, b: Point)
    ensures Area(a, b) >= 1
  {
    MulLe(1, Max(a.y, b.y) - Min(a.y, b.y) + 1, Max(a.x, b.x) - Min(a.x, b.x) + 1);
  }

  /** The area of every pair. */
  function Areas(pairs: seq<(Point, Point)>): (r: seq<nat>)
    ensures |r| == |pairs|
    ensures forall k :: 0 <= k < |r| ==> r[k] == Area(pairs[k].0, pairs[k].1)
  {
    seq(|pairs|, k requires 0 <= k < |pairs| => Area(pairs[k].0, pairs[k].1))
  }

  /** The running maximum star_one keeps: the largest value, 0 for none. */
  function MaxOf(s: seq<nat>): nat {
    if s == [] then 0
    else
      var before := MaxOf(s[..|s| - 1]);
      if s[|s| - 1] > before then s[|s| - 1] else before
  }

  /** MaxOf bounds every value and, for a non-empty sequence, is one of them. */
  lemma {:induction false} MaxOfSpec(s: seq<nat>)
    ensures forall k :: 0 <= k < |s| ==> s[k] <= MaxOf(s)
    ensures s != [] ==> exists k :: 0 <= k < |s| && MaxOf(s) == s[k]
  {
    if s != [] {
      var init := s[..|s| - 1];
      MaxOfSpec(init);
      forall k | 0 <= k < |s| ensures s[k] <= MaxOf(s) {
        if k < |init| {
          assert s[k] == init[k];
        }
      }
      if s[|s| - 1] <= MaxOf(init) && init != [] {
        var k :| 0 <= k < |init| && MaxOf(init) == init[k];
        assert s[k] == init[k];
      }
    }
  }

  lemma MaxOfSnoc(s: seq<nat>, k: nat)
    requires k < |s|
    ensures MaxOf(s[..k + 1]) == if s[k] > MaxOf(s[..k]) then s[k] else MaxOf(s[..k])
  {
    assert s[..k + 1][..k] == s[..k];
  }

  /** The largest rectangle the pairs span. */
  function MaxArea(pairs: seq<(Point, Point)>): nat {
    MaxOf(Areas(pairs))
  }

  /** Part one's answer over the points: no rectangle is larger, and with two points or more
      some pair spans it; with fewer there is no pair and the answer is 0. */
  lemma StarOneSpec(points: seq<Point>)
    ensures forall i, j :: 0 <= i < j < |points| ==> Area(points[i], points[j]) <= MaxArea(At(points, IndexPairs.Pairs(|points|)))
    ensures |points| < 2 <==> MaxArea(At(points, IndexPairs.Pairs(|points|))) == 0
    ensures |points| >= 2 ==> exists i, j :: 0 <= i < j < |points| && MaxArea(At(points, IndexPairs.Pairs(|points|))) == Area(points[i], points[j])
  {
    var n := |points|;
    var idx := IndexPairs.Pairs(n);
    var pairs := At(points, idx);
    var areas := Areas(pairs);
    IndexPairs.PairsEnumeration(n);
    MaxOfSpec(areas);
    forall i, j | 0 <= i < j < n ensures Area(points[i], points[j]) <= MaxArea(pairs) {
      assert (i, j) in idx;
      var k :| 0 <= k < |idx| && idx[k] == (i, j);
      assert areas[k] == Area(points[i], points[j]);
    }
    if n >= 2 {
      assert (0, 1) in idx;
      var k :| 0 <= k < |areas| && MaxOf(areas) == areas[k];
      assert idx[k] in idx;
      AreaPositive(pairs[k].0, pairs[k].1);
    } else {
      assert |idx| == 0;
      assert areas == [];
    }
  }

  /** star_one: the largest area over get_pairs. */
  method StarOne(input: string) returns (r: Result<nat>)
    ensures r.Err? <==> FloorOf(input).Err?
    ensures r.Ok? ==> r.value == MaxArea(At(FloorOf(input).value, IndexPairs.Pairs(|FloorOf(input).value|)))
  {
    var floor := FloorOf(input);
    if floor.Err? {
      return Err(floor.msg);
    }
    var pairs := GetPairs(floor.value);
    var maxArea := LargestArea(pairs);
    return Ok(maxArea);
  }

  /** The loop of star_one over the pairs. */
  method LargestArea(pairs: seq<(Point, Point)>) returns (maxArea: nat)
    ensures maxArea == MaxArea(pairs)
  {
    ghost var areas := Areas(pairs);
    maxArea := 0;
    for k := 0 to |pairs|
      invariant maxArea == MaxOf(areas[..k])
    {
      var (p1, p2) := pairs[k];
      MaxOfSnoc(areas, k);
      var rectX := (Max(p1.x, p2.x) - Min(p1.x, p2.x)) + 1;
      var rectY := (Max(p1.y, p2.y) - Min(p1.y, p2.y)) + 1;
      var area := rectX * rectY;
      assert area == areas[k];
      if area > maxArea {
        maxArea := area;
      }
    }
    assert areas[..|pairs|] == areas;
  }

  // ---------------------------------------------------------------------------------------
  // Bounds::from
  // ---------------------------------------------------------------------------------------

  const EMPTY_BOUNDS: string := "Bounds for a point set must recieve a non-empty point set"

  datatype Bounds = Bounds(minX: nat, maxX: nat, minY: nat, maxY: nat)

  predicate Within(b: Bounds, p: Point) {
    b.minX <= p.x <= b.maxX && b.minY <= p.y <= b.maxY
  }

  /** A finite non-empty set has a point whose key is least, and one whose key is largest. */
  lemma {:induction false} ExtremesExist(s: set<Point>, key: Point -> nat)
    requires s != {}
    ensures exists p :: p in s && forall q :: q in s ==> key(p) <= key(q)
    ensures exists p :: p in s && forall q :: q in s ==> key(q) <= key(p)
    decreases |s|
  {
    var a :| a in s;
    if s != {a} {
      var rest := s - {a};
      ExtremesExist(rest, key);
      var lo :| lo in rest && forall q :: q in rest ==> key(lo) <= key(q);
      var hi :| hi in rest && forall q :: q in rest ==> key(q) <= key(hi);
      var m := if key(a) <= key(lo) then a else lo;
      var n := if key(hi) <= key(a) then a else hi;
      assert forall q :: q in s ==> q == a || q in rest;
      assert m in s && forall q :: q in s ==> key(m) <= key(q);
      assert n in s && forall q :: q in s ==> key(q) <= key(n);
    } else {
      assert forall q :: q in s ==> q == a;
    }
  }

  function XOf(p: Point): nat { p.x }

  function YOf(p: Point): nat { p.y }

  /** A point of the set whose key is least (min_by). */
  ghost function Lowest(s: set<Point>, key: Point -> nat): (p: Point)
    requires s != {}
    ensures p in s && forall q :: q in s ==> key(p) <= key(q)
  {
    ExtremesExist(s, key);
    var p :| p in s && forall q :: q in s ==> key(p) <= key(q); p
  }

  /** A point of the set whose key is largest (max_by). */
  ghost function Highest(s: set<Point>, key: Point -> nat): (p: Point)
    requires s != {}
    ensures p in s && forall q :: q in s ==> key(q) <= key(p)
  {
    ExtremesExist(s, key);
    var p :| p in s && forall q :: q in s ==> key(q) <= key(p); p
  }

  /** Bounds::from: the least and largest x and y of the set; an empty set is refused. Every
      point lies within the bounds, and each bound is the coordinate of some point. */
  ghost function BoundsOf(pointSet: set<Point>): (r: Result<Bounds>)
    ensures r.Err? <==> pointSet == {}
    ensures r.Ok? ==> forall p :: p in pointSet ==> Within(r.value, p)
    ensures r.Ok? ==> (exists p :: p in pointSet && p.x == r.value.minX) && (exists p :: p in pointSet && p.x == r.value.maxX)
    ensures r.Ok? ==> (exists p :: p in pointSet && p.y == r.value.minY) && (exists p :: p in pointSet && p.y == r.value.maxY)
  {
    if pointSet == {} then Err(EMPTY_BOUNDS)
    else
      var lowX := Lowest(pointSet, XOf);
      var highX := Highest(pointSet, XOf);
      var lowY := Lowest(pointSet, YOf);
      var highY := Highest(pointSet, YOf);
      assert forall p :: p in pointSet ==> XOf(lowX) <= XOf(p) <= XOf(highX) && YOf(lowY) <= YOf(p) <= YOf(highY);
      Ok(Bounds(lowX.x, highX.x, lowY.y, highY.y))
  }

  // ---------------------------------------------------------------------------------------
  // ChristmasFloor::connect_points
  // ---------------------------------------------------------------------------------------

  const NOT_ON_A_LINE: string := "Either the x or the y of the previous point MUST match with the current point"
  const STRAIGHT_LINE: string := "Cannot be going in a straight line for two points in a row"

  /** A green tile: the red tiles of its segment, and where it is. */
  datatype GreenPoint = GreenPoint(r1: Point, r2: Point, position: Point)

  /** The two points share exactly one coordinate. */
  predicate OneAxis(a: Point, b: Point) {
    (a.x == b.x || a.y == b.y) && !(a.x == b.x && a.y == b.y)
  }

  function Column(x: nat, lo: nat, hi: nat): set<Point> {
    set y: nat | lo <= y < hi :: Point(x, y)
  }

  function Row(y: nat, lo: nat, hi: nat): set<Point> {
    set x: nat | lo <= x < hi :: Point(x, y)
  }

  /** The tiles connect_points marks between two red tiles: a column when the x values
      agree, otherwise a row. */
  function Segment(a: Point, b: Point): set<Point> {
    if a.x == b.x then Column(a.x, Min(a.y, b.y) + 1, Max(a.y, b.y))
    else Row(a.y, Min(a.x, b.x) + 1, Max(a.x, b.x))
  }

  /** q lies strictly between a and b on the axis-parallel line through both. */
  predicate StrictlyBetween(a: Point, b: Point, q: Point) {
    || (q.x == a.x == b.x && ((a.y < q.y < b.y) || (b.y < q.y < a.y)))
    || (q.y == a.y == b.y && ((a.x < q.x < b.x) || (b.x < q.x < a.x)))
  }

  /** For two tiles on one axis, the segment is exactly the tiles strictly between them, so
      neither end, and each of its tiles shares a line with both ends. */
  lemma SegmentSpec(a: Point, b: Point)
    requires OneAxis(a, b)
    ensures forall q :: q in Segment(a, b) <==> StrictlyBetween(a, b, q)
    ensures a !in Segment(a, b) && b !in Segment(a, b)
    ensures forall q :: q in Segment(a, b) ==> SharesALineWith(q, a) && SharesALineWith(q, b)
    ensures Segment(a, b) == Segment(b, a)
  {
    forall q | StrictlyBetween(a, b, q) ensures q in Segment(a, b) {
      if a.x == b.x {
        assert q in Column(a.x, Min(a.y, b.y) + 1, Max(a.y, b.y));
      } else {
        assert q in Row(a.y, Min(a.x, b.x) + 1, Max(a.x, b.x));
      }
    }
  }

  /** The tiles greenLinePts gains from a segment, each with both red ends. */
  function Marked(lines: map<Point, GreenPoint>, a: Point, b: Point, tiles: set<Point>): map<Point, GreenPoint> {
    map q | q in lines.Keys + tiles :: if q in tiles then GreenPoint(a, b, q) else lines[q]
  }

  /** Marking one more tile is one more map update. */
  lemma MarkedStep(lines: map<Point, GreenPoint>, a: Point, b: Point, tiles: set<Point>, q: Point)
    ensures Marked(lines, a, b, tiles + {q}) == Marked(lines, a, b, tiles)[q := GreenPoint(a, b, q)]
  {
  }

  /** The vertical loop of connect_points: the tiles (x, y) for lo <= y < hi. */
  method MarkColumn(prevPt: Point, pt: Point, x: nat, lo: nat, hi: nat, greenPts: set<Point>, greenLinePts: map<Point, GreenPoint>)
    returns (green: set<Point>, lines: map<Point, GreenPoint>)
    ensures green == greenPts + Column(x, lo, hi)
    ensures lines == Marked(greenLinePts, prevPt, pt, Column(x, lo, hi))
  {
    green, lines := greenPts, greenLinePts;
    if lo < hi {
      for y := lo to hi
        invariant green == greenPts + Column(x, lo, y)
        invariant lines == Marked(greenLinePts, prevPt, pt, Column(x, lo, y))
      {
        var linePt := Point(x, y);
        assert Column(x, lo, y + 1) == Column(x, lo, y) + {linePt};
        MarkedStep(greenLinePts, prevPt, pt, Column(x, lo, y), linePt);
        green := green + {linePt};
        lines := lines[linePt := GreenPoint(prevPt, pt, linePt)];
      }
    } else {
      assert Column(x, lo, hi) == {};
    }
  }

  /** The horizontal loop of connect_points: the tiles (x, y) for lo <= x < hi. */
  method MarkRow(prevPt: Point, pt: Point, y: nat, lo: nat, hi: nat, greenPts: set<Point>, greenLinePts: map<Point, GreenPoint>)
    returns (green: set<Point>, lines: map<Point, GreenPoint>)
    ensures green == greenPts + Row(y, lo, hi)
    ensures lines == Marked(greenLinePts, prevPt, pt, Row(y, lo, hi))
  {
    green, lines := greenPts, greenLinePts;
    if lo < hi {
      for x := lo to hi
        invariant green == greenPts + Row(y, lo, x)
        invariant lines == Marked(greenLinePts, prevPt, pt, Row(y, lo, x))
      {
        var linePt := Point(x, y);
        assert Row(y, lo, x + 1) == Row(y, lo, x) + {linePt};
        MarkedStep(greenLinePts, prevPt, pt, Row(y, lo, x), linePt);
        green := green + {linePt};
        lines := lines[linePt := GreenPoint(prevPt, pt, linePt)];
      }
    } else {
      assert Row(y, lo, hi) == {};
    }
  }

  /** ChristmasFloor::connect_points: the tiles strictly between two red tiles on one axis
      become green, each recorded with both ends; anything else is refused. */
  method ConnectPoints(prevPt: Point, pt: Point, greenPts: set<Point>, greenLinePts: map<Point, GreenPoint>)
    returns (r: Result<(set<Point>, map<Point, GreenPoint>)>)
    ensures r.Err? <==> !OneAxis(prevPt, pt)
    ensures r.Ok? ==> r.value.0 == greenPts + Segment(prevPt, pt)
    ensures r.Ok? ==> r.value.1 == Marked(greenLinePts, prevPt, pt, Segment(prevPt, pt))
  {
    var matchX := prevPt.x == pt.x;
    var matchY := prevPt.y == pt.y;
    if !((matchX || matchY) && !(matchX && matchY)) {
      return Err(NOT_ON_A_LINE);
    }
    var green, lines;
    if matchX {
      green, lines := MarkColumn(prevPt, pt, prevPt.x, Min(prevPt.y, pt.y) + 1, Max(prevPt.y, pt.y), greenPts, greenLinePts);
    } else {
      green, lines := MarkRow(prevPt, pt, prevPt.y, Min(prevPt.x, pt.x) + 1, Max(prevPt.x, pt.x), greenPts, greenLinePts);
    }
    return Ok((green, lines));
  }

  // ---------------------------------------------------------------------------------------
  // ChristmasFloor::get_red_pt_kind
  // ---------------------------------------------------------------------------------------

  datatype RedPointKind = TopLeft | TopRight | BottomLeft | BottomRight

  /** ChristmasFloor::get_red_pt_kind: which corner of the loop a red tile is, from the tiles
      before and after it. */
  function GetRedPtKind(prevPt: Point, pt: Point, nextPt: Point): Result<RedPointKind> {
    var prevMatchX := prevPt.x == pt.x;
    var prevMatchY := prevPt.y == pt.y;
    var nextMatchX := nextPt.x == pt.x;
    var nextMatchY := nextPt.y == pt.y;
    if !((prevMatchX || prevMatchY) && !(prevMatchX && prevMatchY)) then Err(NOT_ON_A_LINE)
    else if prevMatchX then
      if nextMatchX then Err(STRAIGHT_LINE)
      else if prevPt.y > pt.y then
        if nextPt.x > pt.x then Ok(TopLeft) else Ok(TopRight)
      else
        if nextPt.x > pt.x then Ok(BottomLeft) else Ok(BottomRight)
    else
      if nextMatchY then Err(STRAIGHT_LINE)
      else if prevPt.x > pt.x then
        if nextPt.y > pt.y then Ok(TopLeft) else Ok(BottomLeft)
      else
        if nextPt.y > pt.y then Ok(TopRight) else Ok(BottomRight)
  }

  /** The corner whose two arms go down (larger y) or up, and right (larger x) or left. */
  function CornerOf(down: bool, right: bool): RedPointKind {
    if down then (if right then TopLeft else TopRight)
    else (if right then BottomLeft else BottomRight)
  }

  /** The tile turns at pt: the path does not go on along the axis it arrived on. */
  predicate Turns(prevPt: Point, pt: Point, nextPt: Point) {
    !(prevPt.x == pt.x && nextPt.x == pt.x) && !(prevPt.y == pt.y && nextPt.y == pt.y)
  }

  /** get_red_pt_kind refuses exactly a tile not on one axis with its predecessor and a path
      that goes straight on; at a proper corner (the next tile on the other axis) the kind
      is the corner its two arms make, whichever way the loop runs. */
  lemma GetRedPtKindSpec(prevPt: Point, pt: Point, nextPt: Point)
    ensures GetRedPtKind(prevPt, pt, nextPt).Err? <==> !OneAxis(prevPt, pt) || !Turns(prevPt, pt, nextPt)
    ensures OneAxis(prevPt, pt) && OneAxis(nextPt, pt) && Turns(prevPt, pt, nextPt) ==>
      var vertical := if prevPt.x == pt.x then prevPt else nextPt;
      var horizontal := if prevPt.x == pt.x then nextPt else prevPt;
      && GetRedPtKind(prevPt, pt, nextPt) == Ok(CornerOf(vertical.y > pt.y, horizontal.x > pt.x))
      && GetRedPtKind(nextPt, pt, prevPt) == GetRedPtKind(prevPt, pt, nextPt)
  {
  }

  // ---------------------------------------------------------------------------------------
  // ChristmasFloor::from
  // ---------------------------------------------------------------------------------------

  /** The red tiles of the loop, the tiles between them, and the corner kind of each red tile.
      The void and solution fields stay empty for the first puzzle and are not modelled. */
  datatype ChristmasFloor = ChristmasFloor(
    points: seq<Point>,
    pointsSet: set<Point>,
    greenPointsSet: set<Point>,
    redTileKinds: map<Point, RedPointKind>)

  /** The red tile before tile i on the loop (the last before the first). */
  function Prev(points: seq<Point>, i: nat): Point
    requires i < |points|
  {
    if i == 0 then points[|points| - 1] else points[i - 1]
  }

  /** The red tile after tile i on the loop (the first after the last). */
  function Next(points: seq<Point>, i: nat): Point
    requires i < |points|
  {
    if i == |points| - 1 then points[0] else points[i + 1]
  }

  /** Every red tile shares exactly one axis with the one before it, around the loop. */
  ghost predicate ClosedLoop(points: seq<Point>) {
    forall i {:trigger Prev(points, i)} :: 0 <= i < |points| ==> OneAxis(Prev(points, i), points[i])
  }

  /** a loop that turns at every red tile. */
  ghost predicate AllTurn(points: seq<Point>) {
    forall i {:trigger Prev(points, i)} :: 0 <= i < |points| ==> Turns(Prev(points, i), points[i], Next(points, i))
  }

  /** The union of a sequence of tile sets. */
  function UnionOf(sets: seq<set<Point>>): set<Point> {
    if sets == [] then {} else UnionOf(sets[..|sets| - 1]) + sets[|sets| - 1]
  }

  lemma {:induction false} UnionOfSpec(sets: seq<set<Point>>)
    ensures forall q :: q in UnionOf(sets) <==> exists i :: 0 <= i < |sets| && q in sets[i]
  {
    if sets != [] {
      var n := |sets| - 1;
      UnionOfSpec(sets[..n]);
      assert forall i :: 0 <= i < n ==> sets[..n][i] == sets[i];
    }
  }

  lemma {:induction false} UnionOfCons(sets: seq<set<Point>>)
    requires sets != []
    ensures UnionOf(sets) == UnionOf(sets[1..]) + sets[0]
  {
    UnionOfSpec(sets);
    UnionOfSpec(sets[1..]);
    forall q ensures q in UnionOf(sets) <==> q in UnionOf(sets[1..]) + sets[0] {
      if q in UnionOf(sets) {
        var i :| 0 <= i < |sets| && q in sets[i];
        if i > 0 {
          assert q in sets[1..][i - 1];
        }
      }
      if q in UnionOf(sets[1..]) {
        var i :| 0 <= i < |sets| - 1 && q in sets[1..][i];
        assert q in sets[i + 1];
      }
    }
  }

  /** The segment ending at each red tile. */
  function Links(points: seq<Point>): (links: seq<set<Point>>)
    ensures |links| == |points|
  {
    seq(|points|, i requires 0 <= i < |points| => Segment(Prev(points, i), points[i]))
  }

  /** The tiles of every segment of the loop, the closing one included. */
  function GreenOf(points: seq<Point>): set<Point> {
    UnionOf(Links(points))
  }

  /** A tile is green exactly when it lies on the segment ending at some red tile. */
  lemma GreenOfSpec(points: seq<Point>)
    ensures forall q :: q in GreenOf(points) <==> exists i :: 0 <= i < |points| && q in Segment(Prev(points, i), points[i])
  {
    var links := Links(points);
    UnionOfSpec(links);
    assert forall i :: 0 <= i < |points| ==> links[i] == Segment(Prev(points, i), points[i]);
  }

  /** A map filled by inserting tiles[i] := kinds[i] in order, so that a later insertion of
      the same tile overwrites an earlier one. */
  function Recorded(tiles: seq<Point>, kinds: seq<RedPointKind>): map<Point, RedPointKind>
    requires |tiles| == |kinds|
  {
    if tiles == [] then map[]
    else Recorded(tiles[..|tiles| - 1], kinds[..|kinds| - 1])[tiles[|tiles| - 1] := kinds[|kinds| - 1]]
  }

  lemma RecordedSnoc(tiles: seq<Point>, kinds: seq<RedPointKind>, t: Point, k: RedPointKind)
    requires |tiles| == |kinds|
    ensures Recorded(tiles + [t], kinds + [k]) == Recorded(tiles, kinds)[t := k]
  {
    assert (tiles + [t])[..|tiles|] == tiles;
    assert (kinds + [k])[..|kinds|] == kinds;
  }

  /** The recorded tiles are exactly the tiles inserted, each with the kind of its last
      insertion. */
  lemma {:induction false} RecordedSpec(tiles: seq<Point>, kinds: seq<RedPointKind>)
    requires |tiles| == |kinds|
    ensures forall p :: p in Recorded(tiles, kinds) <==> p in tiles
    ensures forall i :: 0 <= i < |tiles| && (forall j :: i < j < |tiles| ==> tiles[j] != tiles[i]) ==>
      Recorded(tiles, kinds)[tiles[i]] == kinds[i]
  {
    if tiles != [] {
      var n := |tiles| - 1;
      RecordedSpec(tiles[..n], kinds[..n]);
      assert tiles == tiles[..n] + [tiles[n]];
      forall i | 0 <= i < n && (forall j :: i < j < |tiles| ==> tiles[j] != tiles[i])
        ensures Recorded(tiles, kinds)[tiles[i]] == kinds[i]
      {
        assert tiles[..n][i] == tiles[i];
        assert forall j :: i < j < n ==> tiles[..n][j] == tiles[j];
      }
    }
  }

  /** get_red_pt_kind succeeds at every red tile. */
  ghost predicate AllKinded(points: seq<Point>) {
    forall i {:trigger Prev(points, i)} :: 0 <= i < |points| ==> GetRedPtKind(Prev(points, i), points[i], Next(points, i)).Ok?
  }

  /** The corner kind of each red tile, in loop order. */
  ghost function CornerKinds(points: seq<Point>): (kinds: seq<RedPointKind>)
    requires AllKinded(points)
    ensures |kinds| == |points|
    ensures forall i {:trigger Prev(points, i)} :: 0 <= i < |points| ==> GetRedPtKind(Prev(points, i), points[i], Next(points, i)) == Ok(kinds[i])
  {
    seq(|points|, i requires 0 <= i < |points| => GetRedPtKind(Prev(points, i), points[i], Next(points, i)).value)
  }

  /** The red tiles among the first i. */
  function FirstTiles(points: seq<Point>, i: nat): set<Point>
    requires i <= |points|
  {
    set j | 0 <= j < i :: points[j]
  }

  lemma FirstTilesStep(points: seq<Point>, i: nat)
    requires i < |points|
    ensures FirstTiles(points, i + 1) == FirstTiles(points, i) + {points[i]}
  {
  }

  lemma FirstTilesAll(points: seq<Point>)
    ensures forall p :: p in FirstTiles(points, |points|) <==> p in points
  {
    forall p | p in points ensures p in FirstTiles(points, |points|) {
      var j :| 0 <= j < |points| && points[j] == p;
    }
  }

  /** A loop is closed when each tile after the first is on one axis with the one before
      it, and the last with the first. */
  lemma ClosedLoopFrom(points: seq<Point>)
    requires points != []
    requires forall j {:trigger Prev(points, j)} :: 1 <= j < |points| ==> OneAxis(Prev(points, j), points[j])
    requires OneAxis(points[|points| - 1], points[0])
    ensures ClosedLoop(points)
  {
  }

  /** The segments after the first, then the closing one, are all the segments. */
  lemma GreenClose(points: seq<Point>)
    requires points != []
    ensures UnionOf(Links(points)[1..]) + Segment(points[|points| - 1], points[0]) == GreenOf(points)
  {
    UnionOfCons(Links(points));
  }

  /** Once the closing segment joins the last tile to the first, every segment is on one
      axis and the green tiles are those of every segment. */
  lemma ConnectAllClosed(points: seq<Point>, links: seq<set<Point>>, pointsSet: set<Point>,
                         greenPts: set<Point>, closedGreen: set<Point>)
    requires points != [] && links == Links(points)
    requires pointsSet == FirstTiles(points, |points|)
    requires greenPts == UnionOf(links[1..|points|])
    requires forall j {:trigger Prev(points, j)} :: 1 <= j < |points| ==> OneAxis(Prev(points, j), points[j])
    requires OneAxis(points[|points| - 1], points[0])
    requires closedGreen == greenPts + Segment(points[|points| - 1], points[0])
    ensures ClosedLoop(points)
    ensures forall p :: p in pointsSet <==> p in points
    ensures closedGreen == GreenOf(points)
  {
    assert links[1..] == links[1..|points|];
    ClosedLoopFrom(points);
    GreenClose(points);
    FirstTilesAll(points);
  }

  /** The first half of ChristmasFloor::from: the set of red tiles and the green tiles of
      every segment, the closing one included; the first segment not on one axis is refused. */
  method ConnectAll(points: seq<Point>) returns (r: Result<(set<Point>, set<Point>)>)
    requires points != []
    ensures r.Err? <==> !ClosedLoop(points)
    ensures r.Ok? ==> forall p :: p in r.value.0 <==> p in points
    ensures r.Ok? ==> r.value.1 == GreenOf(points)
  {
    var n := |points|;
    var first := points[0];
    var prev := first;
    var greenPts: set<Point> := {};
    var greenLinePts: map<Point, GreenPoint> := map[];
    var pointsSet := {first};
    ghost var links := Links(points);
    for i := 1 to n
      invariant prev == points[i - 1]
      invariant pointsSet == FirstTiles(points, i)
      invariant greenPts == UnionOf(links[1..i])
      invariant forall j {:trigger Prev(points, j)} :: 1 <= j < i ==> OneAxis(Prev(points, j), points[j])
    {
      var pt := points[i];
      FirstTilesStep(points, i);
      pointsSet := pointsSet + {pt};
      var connected := ConnectPoints(prev, pt, greenPts, greenLinePts);
      if connected.Err? {
        assert !OneAxis(Prev(points, i), points[i]);
        return Err(connected.msg);
      }
      SliceSnoc(links, 1, i);
      greenPts, greenLinePts := connected.value.0, connected.value.1;
      prev := pt;
    }
    var closed := ConnectPoints(prev, first, greenPts, greenLinePts);
    if closed.Err? {
      assert !OneAxis(Prev(points, 0), points[0]);
      return Err(closed.msg);
    }
    ConnectAllClosed(points, links, pointsSet, greenPts, closed.value.0);
    return Ok((pointsSet, closed.value.0));
  }

  /** The kinds get_red_pt_kind gives, in loop order, are CornerKinds. */
  lemma CornerKindsUnique(points: seq<Point>, kinds: seq<RedPointKind>)
    requires |kinds| == |points|
    requires forall j {:trigger Prev(points, j)} :: 0 <= j < |points| ==> GetRedPtKind(Prev(points, j), points[j], Next(points, j)) == Ok(kinds[j])
    ensures AllKinded(points) && kinds == CornerKinds(points)
  {
  }

  /** The corner loop of ChristmasFloor::from: every red tile gets its kind; the first
      straight run (or tile off its predecessor's axis) is refused. */
  method RecordKinds(points: seq<Point>) returns (r: Result<map<Point, RedPointKind>>)
    requires points != []
    ensures r.Err? <==> !AllKinded(points)
    ensures r.Ok? ==> r.value == Recorded(points, CornerKinds(points))
  {
    var n := |points|;
    var redPtKinds: map<Point, RedPointKind> := map[];
    ghost var kinds: seq<RedPointKind> := [];
    for idx := 0 to n
      invariant |kinds| == idx
      invariant forall j {:trigger Prev(points, j)} :: 0 <= j < idx ==> GetRedPtKind(Prev(points, j), points[j], Next(points, j)) == Ok(kinds[j])
      invariant redPtKinds == Recorded(points[..idx], kinds)
    {
      var prev := if idx == 0 then points[n - 1] else points[idx - 1];
      var next := if idx == n - 1 then points[0] else points[idx + 1];
      var ptKind := GetRedPtKind(prev, points[idx], next);
      if ptKind.Err? {
        assert GetRedPtKind(Prev(points, idx), points[idx], Next(points, idx)).Err?;
        return Err(ptKind.msg);
      }
      TakeSnoc(points, idx);
      RecordedSnoc(points[..idx], kinds, points[idx], ptKind.value);
      redPtKinds := redPtKinds[points[idx] := ptKind.value];
      kinds := kinds + [ptKind.value];
    }
    assert points[..n] == points;
    CornerKindsUnique(points, kinds);
    return Ok(redPtKinds);
  }

  /** A loop that is closed refuses a tile's kind only where it runs straight on. */
  lemma KindedIffTurns(points: seq<Point>)
    requires ClosedLoop(points)
    ensures AllKinded(points) <==> AllTurn(points)
  {
    forall i | 0 <= i < |points| ensures GetRedPtKind(Prev(points, i), points[i], Next(points, i)).Ok? <==> Turns(Prev(points, i), points[i], Next(points, i)) {
      GetRedPtKindSpec(Prev(points, i), points[i], Next(points, i));
    }
  }

  /** ChristmasFloor::from: joins each red tile to the next and the last to the first, then
      records each tile's corner kind. An empty list, two tiles in a row not on one axis, or
      a straight run is refused. */
  method ChristmasFloorFrom(points: seq<Point>) returns (r: Result<ChristmasFloor>)
    ensures r.Err? <==> points == [] || !ClosedLoop(points) || !AllTurn(points)
    ensures r.Ok? ==> r.value.points == points
    ensures r.Ok? ==> forall p :: p in r.value.pointsSet <==> p in points
    ensures r.Ok? ==> r.value.greenPointsSet == GreenOf(points)
    ensures r.Ok? ==> AllKinded(points) && r.value.redTileKinds == Recorded(points, CornerKinds(points))
  {
    if points == [] {
      return Err(UNWRAP_NONE);
    }
    var connected := ConnectAll(points);
    if connected.Err? {
      return Err(connected.msg);
    }
    KindedIffTurns(points);
    var kinds := RecordKinds(points);
    if kinds.Err? {
      return Err(kinds.msg);
    }
    return Ok(ChristmasFloor(points, connected.value.0, connected.value.1, kinds.value));
  }
}
