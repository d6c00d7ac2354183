/** Day 8: junction boxes in 3-D space are joined, closest pair first, into circuits. The
    pairs wait in a hand-written binary min-heap ordered by distance; joining two boxes
    merges their circuits. */
module Day8 {
  import opened Common
  import IndexPairs
  import Sorting

  // ---------------------------------------------------------------------------------------
  // Points and their text
  // ---------------------------------------------------------------------------------------

  datatype Point = Point(x: nat, y: nat, z: nat)

  /** The characters the point reader passes over before a number. */
  predicate InSkipCharset(c: char) {
    c in ",\n\r\t "
  }

  /** The ordering key of a pair: the squared Euclidean distance, which orders pairs as the
      distance itself does. */
  function SquaredDistance(a: Point, b: Point): nat {
    (a.x - b.x) * (a.x - b.x) + (a.y - b.y) * (a.y - b.y) + (a.z - b.z) * (a.z - b.z)
  }

  /** Three numbers read with the charset skipped before each; a missing one is an error. */
  function ExtractPoint(line: string): (r: Result<(Point, string)>)
    ensures r.Ok? ==> |r.value.1| < |line|
    ensures (forall i :: 0 <= i < |line| ==> !IsDigit(line[i])) ==> r.Err?
  {
    NoDigitsNoNumber(line);
    var (first, line1) := EatNumberSkipping(line, InSkipCharset);
    EatShrinks(line);
    EatShrinks(line1);
    var (second, line2) := EatNumberSkipping(line1, InSkipCharset);
    EatShrinks(line2);
    var (third, line3) := EatNumberSkipping(line2, InSkipCharset);
    if first.None? || second.None? || third.None? then
      Err("Could not parse point from input line")
    else
      Ok((Point(first.value, second.value, third.value), line3))
  }

  /** Reading a number never lengthens the text, and reading one shortens it. */
  lemma EatShrinks(line: string)
    ensures |EatNumberSkipping(line, InSkipCharset).1| <= |line|
    ensures EatNumberSkipping(line, InSkipCharset).0.Some? ==> |EatNumberSkipping(line, InSkipCharset).1| < |line|
  {
    EatNumberSkippingRuns(line, InSkipCharset);
  }

  lemma NoDigitsNoNumber(line: string)
    ensures (forall i :: 0 <= i < |line| ==> !IsDigit(line[i])) ==> EatNumberSkipping(line, InSkipCharset).0 == None
  {
    EatNumberSkippingRuns(line, InSkipCharset);
    var m := LeadingCount(line, InSkipCharset);
    if m < |line| {
      assert line[m..][0] == line[m];
    }
  }

  /** Points read one after another until the text is used up. */
  function PointsOf(input: string): (r: Result<seq<Point>>)
    decreases |input|
  {
    if input == [] then Ok([])
    else
      match ExtractPoint(input)
      case Err(msg) => Err(msg)
      case Ok((p, rest)) =>
        match PointsOf(rest)
        case Err(msg) => Err(msg)
        case Ok(ps) => Ok([p] + ps)
  }

  function PointText(p: Point): string {
    DecimalString(p.x) + "," + DecimalString(p.y) + "," + DecimalString(p.z)
  }

  /** One point per line, with no line break after the last. */
  function PointsText(ps: seq<Point>): string {
    if ps == [] then ""
    else if |ps| == 1 then PointText(ps[0])
    else PointText(ps[0]) + "\n" + PointsText(ps[1..])
  }

  /** A number written in decimal after some skipped characters is read back whole. */
  lemma EatDecimal(pre: string, n: nat, rest: string)
    requires forall i :: 0 <= i < |pre| ==> InSkipCharset(pre[i])
    requires rest == [] || !IsDigit(rest[0])
    ensures EatNumberSkipping(pre + DecimalString(n) + rest, InSkipCharset) == (Some(n), rest)
  {
    var digits := DecimalString(n);
    var line := pre + digits + rest;
    ThreeParts(pre, digits, rest);
    assert !InSkipCharset(digits[0]);
    LeadingCountPrefix(pre, digits + rest);
    LeadingDigitsOf(digits, rest);
    EatNumberSkippingRuns(line, InSkipCharset);
    DecimalStringRoundTrip(n);
  }

  /** The three parts of a text made of three parts. */
  lemma ThreeParts(a: string, b: string, c: string)
    ensures (a + b + c)[|a|..] == b + c
    ensures (a + b + c)[|a|..|a| + |b|] == b
    ensures (a + b + c)[|a| + |b|..] == c
    ensures a + b + c == a + (b + c)
  {
  }

  lemma {:induction false} LeadingCountPrefix(pre: string, rest: string)
    requires forall i :: 0 <= i < |pre| ==> InSkipCharset(pre[i])
    requires rest != [] && !InSkipCharset(rest[0])
    ensures LeadingCount(pre + rest, InSkipCharset) == |pre|
  {
    if pre != [] {
      assert (pre + rest)[1..] == pre[1..] + rest;
      LeadingCountPrefix(pre[1..], rest);
    }
  }

  lemma {:induction false} LeadingDigitsOf(digits: string, rest: string)
    requires AllDigits(digits)
    requires rest == [] || !IsDigit(rest[0])
    ensures LeadingCount(digits + rest, IsDigit) == |digits|
  {
    if digits != [] {
      assert (digits + rest)[1..] == digits[1..] + rest;
      LeadingDigitsOf(digits[1..], rest);
    } else {
      assert digits + rest == rest;
    }
  }

  /** A point written as "x,y,z", after skipped characters, is read back. */
  lemma ExtractPointText(pre: string, p: Point, rest: string)
    requires forall i :: 0 <= i < |pre| ==> InSkipCharset(pre[i])
    requires rest == [] || !IsDigit(rest[0])
    ensures ExtractPoint(pre + PointText(p) + rest) == Ok((p, rest))
  {
    var tail2 := "," + DecimalString(p.z) + rest;
    var tail1 := "," + DecimalString(p.y) + tail2;
    var line := pre + PointText(p) + rest;
    PointTextSplit(pre, p, rest);
    EatDecimal(pre, p.x, tail1);
    EatDecimal(",", p.y, tail2);
    EatDecimal(",", p.z, rest);
    assert ExtractPoint(line) == Ok((p, rest));
  }

  lemma PointTextSplit(pre: string, p: Point, rest: string)
    ensures pre + PointText(p) + rest
      == pre + DecimalString(p.x) + ("," + DecimalString(p.y) + ("," + DecimalString(p.z) + rest))
  {
  }

  /** Reading the lines "x,y,z" of a point list gives the list back. */
  lemma {:induction false} PointsRoundTrip(ps: seq<Point>)
    ensures PointsOf(PointsText(ps)) == Ok(ps)
    decreases |ps|
  {
    if ps == [] {
      assert PointsText(ps) == [];
    } else if |ps| == 1 {
      PointsRoundTripOne(ps[0]);
      assert PointsText(ps) == PointText(ps[0]) && ps == [ps[0]];
    } else {
      PointsRoundTrip(ps[1..]);
      PointsRoundTripCons(ps[0], ps[1..]);
      assert ps == [ps[0]] + ps[1..];
    }
  }

  lemma PointsRoundTripOne(p: Point)
    ensures PointsOf(PointText(p)) == Ok([p])
  {
    var t := PointText(p);
    assert [] + t + [] == t;
    ExtractPointText([], p, []);
    PointsOfCons(t, p, [], []);
    assert [p] + [] == [p];
  }

  lemma PointsRoundTripCons(p: Point, qs: seq<Point>)
    requires qs != [] && PointsOf(PointsText(qs)) == Ok(qs)
    ensures PointsOf(PointsText([p] + qs)) == Ok([p] + qs)
  {
    var rest := "\n" + PointsText(qs);
    var t := PointsText([p] + qs);
    PointsTextCons(p, qs);
    assert t == [] + PointText(p) + rest;
    ExtractPointText([], p, rest);
    SkipLineBreak(qs);
    PointsOfCons(t, p, rest, qs);
  }

  lemma PointsTextCons(p: Point, qs: seq<Point>)
    requires qs != []
    ensures PointsText([p] + qs) == PointText(p) + "\n" + PointsText(qs)
  {
    var ps := [p] + qs;
    assert ps[0] == p && ps[1..] == qs;
  }

  /** A point read first, then a list read from the rest. */
  lemma PointsOfCons(t: string, p: Point, rest: string, ps: seq<Point>)
    requires ExtractPoint(t) == Ok((p, rest)) && PointsOf(rest) == Ok(ps)
    ensures PointsOf(t) == Ok([p] + ps)
  {
  }

  /** The line break between two points is passed over by the next read. */
  lemma SkipLineBreak(ps: seq<Point>)
    requires ps != []
    ensures PointsOf("\n" + PointsText(ps)) == PointsOf(PointsText(ps))
  {
    var tail := if |ps| == 1 then "" else "\n" + PointsText(ps[1..]);
    PointsTextHead(ps);
    assert "\n" + PointsText(ps) == "\n" + PointText(ps[0]) + tail;
    SkipLineBreakBefore(ps, tail);
  }

  /** A point list's text with `tail` in place of what follows the first point: a line break
      in front of it does not change what is read. */
  lemma SkipLineBreakBefore(ps: seq<Point>, tail: string)
    requires ps != []
    requires tail == [] || tail[0] == '\n'
    ensures PointsOf("\n" + PointText(ps[0]) + tail) == PointsOf(PointText(ps[0]) + tail)
  {
    var t := PointText(ps[0]) + tail;
    var u := "\n" + PointText(ps[0]) + tail;
    assert t == [] + PointText(ps[0]) + tail;
    ExtractPointText([], ps[0], tail);
    ExtractPointText("\n", ps[0], tail);
    assert ExtractPoint(t) == ExtractPoint(u);
  }

  /** A line break after the last point is an error: the reader skips it, finds no number
      and fails. */
  lemma {:induction false} TrailingLineBreakRejected(ps: seq<Point>)
    requires ps != []
    ensures PointsOf(PointsText(ps) + "\n").Err?
    decreases |ps|
  {
    if |ps| == 1 {
      TrailingLineBreakOne(ps[0]);
      assert PointsText(ps) == PointText(ps[0]);
    } else {
      TrailingLineBreakRejected(ps[1..]);
      TrailingLineBreakMore(ps);
    }
  }

  lemma TrailingLineBreakOne(p: Point)
    ensures PointsOf(PointText(p) + "\n").Err?
  {
    assert PointText(p) + "\n" == [] + PointText(p) + "\n";
    ExtractPointText([], p, "\n");
    NoDigitsNoNumber("\n");
    assert ExtractPoint("\n").Err?;
  }

  lemma TrailingLineBreakMore(ps: seq<Point>)
    requires |ps| > 1
    requires PointsOf(PointsText(ps[1..]) + "\n").Err?
    ensures PointsOf(PointsText(ps) + "\n").Err?
  {
    var u := PointsText(ps[1..]);
    SkipLineBreakTrailing(ps[1..]);
    assert PointsText(ps) == PointText(ps[0]) + "\n" + u;
    ErrorAfterPoint(ps[0], u);
  }

  lemma ErrorAfterPoint(p: Point, u: string)
    requires PointsOf("\n" + u + "\n").Err?
    ensures PointsOf(PointText(p) + "\n" + u + "\n").Err?
  {
    var a := PointText(p);
    var rest := "\n" + u + "\n";
    var t := a + "\n" + u + "\n";
    ConcatAssoc(a, "\n", u, "\n");
    assert [] + a + rest == t;
    ExtractPointText([], p, rest);
    PointsOfAfterPoint(t, p, rest);
  }

  lemma PointsOfAfterPoint(t: string, p: Point, rest: string)
    requires ExtractPoint(t) == Ok((p, rest))
    ensures PointsOf(t).Err? == PointsOf(rest).Err?
  {
  }

  lemma ConcatAssoc(a: string, b: string, c: string, d: string)
    ensures a + b + c + d == a + (b + c + d)
  {
  }

  lemma SkipLineBreakTrailing(ps: seq<Point>)
    requires ps != []
    ensures PointsOf("\n" + PointsText(ps) + "\n") == PointsOf(PointsText(ps) + "\n")
  {
    var h := PointText(ps[0]);
    var m := if |ps| == 1 then "" else "\n" + PointsText(ps[1..]);
    var tail := m + "\n";
    PointsTextHead(ps);
    assert PointsText(ps) + "\n" == h + tail;
    assert "\n" + PointsText(ps) + "\n" == "\n" + h + tail;
    SkipLineBreakBefore(ps, tail);
  }

  /** A point list's text is its first point's text and what follows it. */
  lemma PointsTextHead(ps: seq<Point>)
    requires ps != []
    ensures PointsText(ps) == PointText(ps[0]) + (if |ps| == 1 then "" else "\n" + PointsText(ps[1..]))
  {
    if |ps| == 1 {
      assert PointText(ps[0]) + "" == PointText(ps[0]);
    }
  }

  /** The reading loop of the graph constructor: extract points until no text is left. */
  method ParsePoints(input: string) returns (r: Result<seq<Point>>)
    ensures r == PointsOf(input)
  {
    var rest := input;
    var points: seq<Point> := [];
    assert PointsOf(input).Ok? ==> [] + PointsOf(input).value == PointsOf(input).value;
    while |rest| > 0
      invariant PointsOf(input) == PrependOk(points, PointsOf(rest))
      decreases |rest|
    {
      var extracted := ExtractPoint(rest);
      if extracted.Err? {
        return Err(extracted.msg);
      }
      var (point, next) := extracted.value;
      PrependStep(points, point, PointsOf(next));
      points := points + [point];
      rest := next;
    }
    assert points + [] == points;
    return Ok(points);
  }

  lemma PrependStep(ps: seq<Point>, p: Point, r: Result<seq<Point>>)
    ensures PrependOk(ps, match r case Err(msg) => Err(msg) case Ok(qs) => Ok([p] + qs))
         == PrependOk(ps + [p], r)
  {
    if r.Ok? {
      assert ps + ([p] + r.value) == ps + [p] + r.value;
    }
  }

  function PrependOk(ps: seq<Point>, r: Result<seq<Point>>): Result<seq<Point>> {
    match r
    case Err(msg) => Err(msg)
    case Ok(qs) => Ok(ps + qs)
  }

  // ---------------------------------------------------------------------------------------
  // The distance queue: a binary min-heap in a vector
  // ---------------------------------------------------------------------------------------

  /** A candidate connection between points p1 and p2; entries compare by `dist` alone. */
  datatype DistanceEntry = DistanceEntry(p1: nat, p2: nat, dist: nat)

  /** The parent slot of a heap slot; the root is its own parent. */
  function ParentIdx(idx: nat): (p: nat)
    ensures idx == 0 ==> p == 0
    ensures idx > 0 ==> p < idx && (idx == 2 * p + 1 || idx == 2 * p + 2)
  {
    if idx == 0 then 0 else (idx - 1) / 2
  }

  /** The two child slots of a heap slot, whose parent it is. */
  function ChildrenIdxs(idx: nat): (r: (nat, nat))
    ensures r.1 == r.0 + 1 && idx < r.0
    ensures ParentIdx(r.0) == idx && ParentIdx(r.1) == idx
  {
    (idx * 2 + 1, idx * 2 + 2)
  }

  /** Every entry is at least as far as its parent. */
  ghost predicate IsMinHeap(q: seq<DistanceEntry>) {
    forall i :: 0 < i < |q| ==> q[ParentIdx(i)].dist <= q[i].dist
  }

  /** The root of a heap is no farther than any entry. */
  lemma {:induction false} HeapRootMin(q: seq<DistanceEntry>, i: nat)
    requires IsMinHeap(q) && i < |q|
    ensures q[0].dist <= q[i].dist
    decreases i
  {
    if i > 0 {
      HeapRootMin(q, ParentIdx(i));
    }
  }

  /** Sifting down from slot idx: the heap order holds everywhere except between idx and
      its children, and idx's parent is no farther than those children. */
  ghost predicate SiftDownInvariant(q: seq<DistanceEntry>, idx: nat) {
    && idx < |q|
    && (forall i :: 0 < i < |q| && ParentIdx(i) != idx ==> q[ParentIdx(i)].dist <= q[i].dist)
    && (idx > 0 ==> forall c :: 0 < c < |q| && ParentIdx(c) == idx ==> q[ParentIdx(idx)].dist <= q[c].dist)
  }

  /** Child c of slot idx is strictly nearer than idx and no farther than its sibling. */
  ghost predicate SwapCandidate(q: seq<DistanceEntry>, idx: nat, c: nat) {
    && idx < |q| && c < |q| && (c == 2 * idx + 1 || c == 2 * idx + 2) && q[c].dist < q[idx].dist
    && (2 * idx + 1 < |q| ==> q[c].dist <= q[2 * idx + 1].dist)
    && (2 * idx + 2 < |q| ==> q[c].dist <= q[2 * idx + 2].dist)
  }

  /** Swapping slot idx with a strictly nearer child that is no farther than its sibling
      moves the sift down to that child. */
  lemma SiftDownStep(q: seq<DistanceEntry>, idx: nat, c: nat)
    requires SiftDownInvariant(q, idx) && SwapCandidate(q, idx, c)
    ensures SiftDownInvariant(q[idx := q[c]][c := q[idx]], c)
  {
    SiftDownStepOrder(q, idx, c);
    SiftDownStepChildren(q, idx, c);
  }

  lemma SiftDownStepOrder(q: seq<DistanceEntry>, idx: nat, c: nat)
    requires SiftDownInvariant(q, idx) && SwapCandidate(q, idx, c)
    ensures var q' := q[idx := q[c]][c := q[idx]];
      forall i :: 0 < i < |q'| && ParentIdx(i) != c ==> q'[ParentIdx(i)].dist <= q'[i].dist
  {
    var q' := q[idx := q[c]][c := q[idx]];
    forall i | 0 < i < |q'| && ParentIdx(i) != c ensures q'[ParentIdx(i)].dist <= q'[i].dist {
      SiftDownStepAt(q, idx, c, i);
    }
  }

  lemma SiftDownStepAt(q: seq<DistanceEntry>, idx: nat, c: nat, i: nat)
    requires SiftDownInvariant(q, idx) && SwapCandidate(q, idx, c)
    requires 0 < i < |q| && ParentIdx(i) != c
    ensures var q' := q[idx := q[c]][c := q[idx]]; q'[ParentIdx(i)].dist <= q'[i].dist
  {
    var q' := q[idx := q[c]][c := q[idx]];
    var p := ParentIdx(i);
    if i == c {
      SwapAt(q, idx, c, p, i, q[c], q[idx]);
    } else if p == idx {
      SwapAt(q, idx, c, p, i, q[c], q[i]);
    } else if i == idx {
      assert ParentIdx(c) == idx;
      SwapAt(q, idx, c, p, i, q[p], q[c]);
    } else {
      SwapAt(q, idx, c, p, i, q[p], q[i]);
    }
  }

  /** The entries at slots p and i after swapping slots idx and c, given as a and b. */
  lemma SwapAt(q: seq<DistanceEntry>, idx: nat, c: nat, p: nat, i: nat, a: DistanceEntry, b: DistanceEntry)
    requires idx < |q| && c < |q| && p < |q| && i < |q| && idx != c
    requires a == (if p == c then q[idx] else if p == idx then q[c] else q[p])
    requires b == (if i == c then q[idx] else if i == idx then q[c] else q[i])
    requires a.dist <= b.dist
    ensures var q' := q[idx := q[c]][c := q[idx]]; q'[p].dist <= q'[i].dist
  {
  }

  lemma SiftDownStepChildren(q: seq<DistanceEntry>, idx: nat, c: nat)
    requires SiftDownInvariant(q, idx)
    requires c < |q| && (c == 2 * idx + 1 || c == 2 * idx + 2)
    ensures var q' := q[idx := q[c]][c := q[idx]];
      forall d :: 0 < d < |q'| && ParentIdx(d) == c ==> q'[ParentIdx(c)].dist <= q'[d].dist
  {
    var q' := q[idx := q[c]][c := q[idx]];
    forall d | 0 < d < |q'| && ParentIdx(d) == c ensures q'[ParentIdx(c)].dist <= q'[d].dist {
      assert d > c && q'[d] == q[d];
    }
  }

  /** Slot idx has exactly the two children ChildrenIdxs names. */
  lemma ChildrenAreTwo(idx: nat)
    ensures forall c :: c > 0 && ParentIdx(c) == idx ==> c == 2 * idx + 1 || c == 2 * idx + 2
  {
  }

  /** The sift stops when no child is strictly nearer: the heap order is restored. */
  lemma SiftDownSettled(q: seq<DistanceEntry>, idx: nat)
    requires SiftDownInvariant(q, idx)
    requires 2 * idx + 1 < |q| ==> q[idx].dist <= q[2 * idx + 1].dist
    requires 2 * idx + 2 < |q| ==> q[idx].dist <= q[2 * idx + 2].dist
    ensures IsMinHeap(q)
  {
    ChildrenAreTwo(idx);
  }

  /** Appending at the end and sifting up: the heap order holds everywhere except between
      idx and its parent, and idx's parent is no farther than idx's children. */
  ghost predicate SiftUpInvariant(q: seq<DistanceEntry>, idx: nat) {
    && idx < |q|
    && (forall i :: 0 < i < |q| && i != idx ==> q[ParentIdx(i)].dist <= q[i].dist)
    && (idx > 0 ==> forall c :: 0 < c < |q| && ParentIdx(c) == idx ==> q[ParentIdx(idx)].dist <= q[c].dist)
  }

  /** A heap with one entry appended is sifting up from its last slot. */
  lemma SiftUpStart(q: seq<DistanceEntry>, e: DistanceEntry)
    requires IsMinHeap(q)
    ensures SiftUpInvariant(q + [e], |q|)
  {
    var q' := q + [e];
    forall i | 0 < i < |q'| && i != |q| ensures q'[ParentIdx(i)].dist <= q'[i].dist {
      assert q'[i] == q[i] && q'[ParentIdx(i)] == q[ParentIdx(i)];
    }
  }

  /** Swapping slot idx with a strictly farther parent moves the sift up to the parent. */
  lemma SiftUpStep(q: seq<DistanceEntry>, idx: nat)
    requires SiftUpInvariant(q, idx) && idx > 0
    requires q[ParentIdx(idx)].dist > q[idx].dist
    ensures SiftUpInvariant(q[ParentIdx(idx) := q[idx]][idx := q[ParentIdx(idx)]], ParentIdx(idx))
  {
    var p := ParentIdx(idx);
    var q' := q[p := q[idx]][idx := q[p]];
    forall i | 0 < i < |q'| && i != p ensures q'[ParentIdx(i)].dist <= q'[i].dist {
      SiftUpStepAt(q, idx, i);
    }
    if p > 0 {
      forall c | 0 < c < |q'| && ParentIdx(c) == p ensures q'[ParentIdx(p)].dist <= q'[c].dist {
        SiftUpStepParent(q, idx, c);
      }
    }
  }

  lemma SiftUpStepAt(q: seq<DistanceEntry>, idx: nat, i: nat)
    requires SiftUpInvariant(q, idx) && idx > 0
    requires q[ParentIdx(idx)].dist > q[idx].dist
    requires 0 < i < |q| && i != ParentIdx(idx)
    ensures var q' := q[ParentIdx(idx) := q[idx]][idx := q[ParentIdx(idx)]];
      q'[ParentIdx(i)].dist <= q'[i].dist
  {
    var p := ParentIdx(idx);
    var pi := ParentIdx(i);
    var q' := q[p := q[idx]][idx := q[p]];
    if i == idx {
      assert q'[pi] == q[idx] && q'[i] == q[p];
    } else if pi == p {
      assert q'[pi] == q[idx] && q'[i] == q[i];
      assert q[p].dist <= q[i].dist;
    } else if pi == idx {
      assert q'[pi] == q[p] && q'[i] == q[i];
    } else {
      assert q'[pi] == q[pi] && q'[i] == q[i];
    }
  }

  lemma SiftUpStepParent(q: seq<DistanceEntry>, idx: nat, c: nat)
    requires SiftUpInvariant(q, idx) && idx > 0 && ParentIdx(idx) > 0
    requires q[ParentIdx(idx)].dist > q[idx].dist
    requires 0 < c < |q| && ParentIdx(c) == ParentIdx(idx)
    ensures var q' := q[ParentIdx(idx) := q[idx]][idx := q[ParentIdx(idx)]];
      q'[ParentIdx(ParentIdx(idx))].dist <= q'[c].dist
  {
    var p := ParentIdx(idx);
    var pp := ParentIdx(p);
    var q' := q[p := q[idx]][idx := q[p]];
    assert q'[pp] == q[pp];
    assert q[pp].dist <= q[p].dist;
    if c == idx {
      assert q'[c] == q[p];
    } else {
      assert q'[c] == q[c] && q[p].dist <= q[c].dist;
    }
  }

  /** The sift up stops below a parent that is no farther: the heap order is restored. */
  lemma SiftUpSettled(q: seq<DistanceEntry>, idx: nat)
    requires SiftUpInvariant(q, idx)
    requires q[ParentIdx(idx)].dist <= q[idx].dist
    ensures IsMinHeap(q)
  {
  }

  class DistanceQueue {
    var queue: seq<DistanceEntry>

    ghost predicate Valid()
      reads this
    {
      IsMinHeap(queue)
    }

    /** An empty queue; the capacity is an allocation hint only. */
    constructor WithCapacity(size: nat)
      ensures queue == [] && Valid()
    {
      queue := [];
    }

    method SwapIdx(idx1: nat, idx2: nat)
      requires idx1 < |queue| && idx2 < |queue|
      modifies this
      ensures queue == old(queue)[idx1 := old(queue)[idx2]][idx2 := old(queue)[idx1]]
      ensures multiset(queue) == multiset(old(queue))
    {
      var tmp := queue[idx1];
      queue := queue[idx1 := queue[idx2]];
      queue := queue[idx2 := tmp];
    }

    /** Appends the entry and sifts it up past every strictly farther parent. */
    method Enqueue(entry: DistanceEntry) returns (entryIdx: nat)
      requires Valid()
      modifies this
      ensures Valid()
      ensures multiset(queue) == multiset(old(queue)) + multiset{entry}
      ensures entryIdx < |queue| && queue[entryIdx] == entry
    {
      entryIdx := |queue|;
      SiftUpStart(queue, entry);
      queue := queue + [entry];
      var parentIdx := ParentIdx(entryIdx);
      while queue[parentIdx].dist > entry.dist
        invariant SiftUpInvariant(queue, entryIdx) && parentIdx == ParentIdx(entryIdx)
        invariant queue[entryIdx] == entry
        invariant multiset(queue) == multiset(old(queue)) + multiset{entry}
        decreases entryIdx
      {
        SiftUpStep(queue, entryIdx);
        SwapIdx(parentIdx, entryIdx);
        entryIdx := parentIdx;
        parentIdx := ParentIdx(parentIdx);
      }
      SiftUpSettled(queue, entryIdx);
    }

    /** The entry the next dequeue returns. */
    function Peek(): (r: Option<DistanceEntry>)
      reads this
      ensures r.None? <==> queue == []
      ensures r.Some? ==> r.value in queue
      ensures r.Some? && Valid() ==> forall i :: 0 <= i < |queue| ==> r.value.dist <= queue[i].dist
    {
      if |queue| == 0 then None
      else
        assert Valid() ==> forall i :: 0 <= i < |queue| ==> queue[0].dist <= queue[i].dist by {
          if Valid() {
            forall i | 0 <= i < |queue| ensures queue[0].dist <= queue[i].dist {
              HeapRootMin(queue, i);
            }
          }
        }
        Some(queue[0])
    }

    /** The heap check: each slot is no farther than the children it has, recursively. The
        source asserts the result; here the result is returned. */
    function ConfirmTree(idx: nat): bool
      reads this
      decreases if idx < |queue| then |queue| - idx else 0
    {
      if idx >= |queue| then true
      else
        var (left, right) := ChildrenIdxs(idx);
        var c1 := left >= |queue| || queue[idx].dist <= queue[left].dist;
        var c2 := right >= |queue| || queue[idx].dist <= queue[right].dist;
        c1 && c2 && ConfirmTree(left) && ConfirmTree(right)
    }

    lemma {:induction false} ConfirmTreeOfHeap(idx: nat)
      requires Valid()
      ensures ConfirmTree(idx)
      decreases if idx < |queue| then |queue| - idx else 0
    {
      if idx < |queue| {
        var (left, right) := ChildrenIdxs(idx);
        ConfirmTreeOfHeap(left);
        ConfirmTreeOfHeap(right);
      }
    }

    lemma {:induction false} ConfirmTreeReaches(i: nat)
      requires ConfirmTree(0) && i < |queue|
      ensures ConfirmTree(i)
      decreases i
    {
      if i > 0 {
        ConfirmTreeReaches(ParentIdx(i));
      }
    }

    /** The check passes from the root exactly when the queue is a min-heap. */
    lemma ConfirmTreeIsHeapCheck()
      ensures ConfirmTree(0) <==> Valid()
    {
      if Valid() {
        ConfirmTreeOfHeap(0);
      }
      if ConfirmTree(0) {
        forall i | 0 < i < |queue| ensures queue[ParentIdx(i)].dist <= queue[i].dist {
          ConfirmTreeReaches(ParentIdx(i));
        }
      }
    }

    /** Removes the root: the last entry takes its slot and sifts down, swapping with the
        nearer child while that child is strictly nearer. */
    method Dequeue() returns (r: Option<DistanceEntry>)
      requires Valid()
      modifies this
      ensures Valid()
      ensures r == old(Peek())
      ensures r.None? ==> queue == old(queue)
      ensures r.Some? ==> multiset(queue) + multiset{r.value} == multiset(old(queue))
      ensures r.Some? ==> forall i :: 0 <= i < |old(queue)| ==> r.value.dist <= old(queue)[i].dist
    {
      if |queue| == 0 {
        return None;
      }
      var deq := queue[0];
      forall i | 0 <= i < |queue| ensures deq.dist <= queue[i].dist {
        HeapRootMin(queue, i);
      }
      SwapIdx(0, |queue| - 1);
      ghost var swapped := queue;
      var popped := queue[|queue| - 1];
      assert queue == queue[..|queue| - 1] + [popped];
      queue := queue[..|queue| - 1];
      assert popped == deq;
      r := Some(deq);
      if |queue| == 0 {
        return;
      }
      assert SiftDownInvariant(queue, 0) by {
        forall i | 0 < i < |queue| && ParentIdx(i) != 0 ensures queue[ParentIdx(i)].dist <= queue[i].dist {
          assert queue[i] == swapped[i] && queue[ParentIdx(i)] == swapped[ParentIdx(i)];
        }
      }
      SiftDown();
    }

    /** The sift-down loop of dequeue, from the root. */
    method SiftDown()
      requires |queue| > 0 && SiftDownInvariant(queue, 0)
      modifies this
      ensures Valid()
      ensures multiset(queue) == multiset(old(queue))
    {
      var idx := 0;
      while true
        invariant SiftDownInvariant(queue, idx)
        invariant multiset(queue) == multiset(old(queue))
        decreases |queue| - idx
      {
        var moved;
        idx, moved := SiftDownOnce(idx);
        if !moved {
          break;
        }
      }
    }

    /** One round of the sift-down loop: swap slot idx with its nearer child if that child
        is strictly nearer, otherwise stop. */
    method SiftDownOnce(idx: nat) returns (next: nat, moved: bool)
      requires SiftDownInvariant(queue, idx)
      modifies this
      ensures multiset(queue) == multiset(old(queue)) && |queue| == |old(queue)|
      ensures moved ==> idx < next && SiftDownInvariant(queue, next)
      ensures !moved ==> queue == old(queue) && IsMinHeap(queue)
    {
      next, moved := NearerChild(idx);
      if !moved {
        SiftDownSettled(queue, idx);
        return idx, false;
      }
      SiftDownStep(queue, idx, next);
      SwapIdx(idx, next);
    }

    /** The child of slot idx that the sift-down swaps with: the nearer of the two when
        both are strictly nearer than idx, otherwise the one that is; none when no child is
        strictly nearer. */
    method NearerChild(idx: nat) returns (next: nat, found: bool)
      requires idx < |queue|
      ensures found ==> SwapCandidate(queue, idx, next)
      ensures !found ==>
        && (2 * idx + 1 < |queue| ==> queue[idx].dist <= queue[2 * idx + 1].dist)
        && (2 * idx + 2 < |queue| ==> queue[idx].dist <= queue[2 * idx + 2].dist)
    {
      var current := queue[idx];
      var (leftIdx, rightIdx) := ChildrenIdxs(idx);
      if leftIdx < |queue| && rightIdx < |queue| {
        var leftElt := queue[leftIdx];
        var rightElt := queue[rightIdx];
        if leftElt.dist < current.dist && rightElt.dist < current.dist {
          if leftElt.dist < rightElt.dist {
            return leftIdx, true;
          } else {
            return rightIdx, true;
          }
        } else if leftElt.dist < current.dist {
          return leftIdx, true;
        } else if rightElt.dist < current.dist {
          return rightIdx, true;
        } else {
          return idx, false;
        }
      } else if leftIdx < |queue| {
        var leftElt := queue[leftIdx];
        if leftElt.dist < current.dist {
          return leftIdx, true;
        } else {
          return idx, false;
        }
      } else {
        // The source's branch for a right child without a left one cannot be taken,
        // since the right child's slot is the left one's plus one.
        return idx, false;
      }
    }
  }

  // ---------------------------------------------------------------------------------------
  // Circuits
  // ---------------------------------------------------------------------------------------

  datatype CircuitState = Alive | Dead

  datatype Circuit = Circuit(state: CircuitState, id: nat, pointIndexes: set<nat>, connections: nat)

  /** A sum over circuits, of the value `f` gives each one. */
  function SumOver(cs: seq<Circuit>, f: Circuit -> nat): nat {
    if cs == [] then 0 else SumOver(cs[..|cs| - 1], f) + f(cs[|cs| - 1])
  }

  function AliveOne(c: Circuit): nat {
    if c.state == Alive then 1 else 0
  }

  function AliveConnectionsOf(c: Circuit): nat {
    if c.state == Alive then c.connections else 0
  }

  function AliveSizeOf(c: Circuit): nat {
    if c.state == Alive then |c.pointIndexes| else 0
  }

  /** Replacing one circuit changes a sum over circuits by the difference of their values. */
  lemma {:induction false} SumOverUpdate(cs: seq<Circuit>, i: nat, c: Circuit, f: Circuit -> nat)
    requires i < |cs|
    ensures SumOver(cs[i := c], f) + f(cs[i]) == SumOver(cs, f) + f(c)
    decreases |cs|
  {
    var last := |cs| - 1;
    if i < last {
      assert cs[i := c][..last] == cs[..last][i := c];
      SumOverUpdate(cs[..last], i, c, f);
    } else {
      assert cs[i := c][..last] == cs[..last];
    }
  }

  /** The live circuits' sizes, in circuit order. */
  function AliveSizes(cs: seq<Circuit>): (sizes: seq<nat>)
    ensures |sizes| == SumOver(cs, AliveOne)
    ensures Sum(sizes) == SumOver(cs, AliveSizeOf)
  {
    if cs == [] then []
    else
      var c := cs[|cs| - 1];
      var sizes := AliveSizes(cs[..|cs| - 1]) + (if c.state == Alive then [|c.pointIndexes|] else []);
      SumAppend(AliveSizes(cs[..|cs| - 1]), if c.state == Alive then [|c.pointIndexes|] else []);
      sizes
  }

  /** The circuit bookkeeping over n points: `circuitsMap[p]` is a live circuit holding p,
      every point of a live circuit maps back to it, and dead circuits are empty with no
      connections. */
  ghost predicate CircuitsValid(n: nat, cs: seq<Circuit>, cm: seq<nat>) {
    && |cs| == n && |cm| == n
    && (forall p :: 0 <= p < n ==> cm[p] < n && cs[cm[p]].state == Alive && p in cs[cm[p]].pointIndexes)
    && (forall c :: 0 <= c < n && cs[c].state == Alive ==>
          cs[c].pointIndexes != {} && forall p :: p in cs[c].pointIndexes ==> p < n && cm[p] == c)
    && (forall c :: 0 <= c < n && cs[c].state == Dead ==> cs[c].pointIndexes == {} && cs[c].connections == 0)
  }

  /** The insertion loop of a merge: every point of `more` is added to `pts`. */
  method InsertAll(pts: set<nat>, more: set<nat>) returns (r: set<nat>)
    ensures r == pts + more
  {
    r := pts;
    var todo := more;
    while todo != {}
      invariant todo <= more && r == pts + (more - todo)
      decreases |todo|
    {
      var pt :| pt in todo;
      r := r + {pt};
      todo := todo - {pt};
    }
  }

  /** The remapping loop of a merge: every point of `pts` is mapped to circuit c. */
  method Remap(cm: seq<nat>, pts: set<nat>, c: nat) returns (r: seq<nat>)
    requires forall p :: p in pts ==> p < |cm|
    ensures |r| == |cm|
    ensures forall p :: 0 <= p < |cm| ==> r[p] == if p in pts then c else cm[p]
  {
    r := cm;
    var todo := pts;
    while todo != {}
      invariant todo <= pts && |r| == |cm|
      invariant forall p :: 0 <= p < |cm| ==> r[p] == if p in pts && p !in todo then c else cm[p]
      decreases |todo|
    {
      var pt :| pt in todo;
      r := r[pt := c];
      todo := todo - {pt};
    }
  }

  /** Mapping the points of live circuit c2 to c1 is the merged map. */
  lemma RemapIsMerged(n: nat, cs: seq<Circuit>, cm: seq<nat>, c1: nat, c2: nat, r: seq<nat>)
    requires CircuitsValid(n, cs, cm) && c2 < n
    requires |r| == |cm|
    requires forall p :: 0 <= p < |cm| ==> r[p] == if p in cs[c2].pointIndexes then c1 else cm[p]
    requires cs[c2].state == Alive
    ensures r == MergedMap(cm, c1, c2)
  {
    CircuitsPartition(n, cs, cm);
    var m := MergedMap(cm, c1, c2);
    forall p | 0 <= p < n ensures r[p] == m[p] {
      assert p in cs[c2].pointIndexes <==> cm[p] == c2;
    }
  }

  /** The live circuits partition the points: p lies in live circuit c exactly when the map
      sends p to c. */
  lemma CircuitsPartition(n: nat, cs: seq<Circuit>, cm: seq<nat>)
    requires CircuitsValid(n, cs, cm)
    ensures forall p, c :: 0 <= p < n && 0 <= c < n ==>
      (cs[c].state == Alive && p in cs[c].pointIndexes <==> cm[p] == c)
  {
  }

  function InitialCircuits(n: nat): seq<Circuit> {
    seq(n, i requires 0 <= i < n => Circuit(Alive, i, {i}, 0))
  }

  function Identity(n: nat): seq<nat> {
    seq(n, i => i)
  }

  lemma {:induction false} InitialSums(n: nat)
    ensures SumOver(InitialCircuits(n), AliveConnectionsOf) == 0
    ensures SumOver(InitialCircuits(n), AliveSizeOf) == n
    ensures SumOver(InitialCircuits(n), AliveOne) == n
  {
    if n > 0 {
      assert InitialCircuits(n)[..n - 1] == InitialCircuits(n - 1);
      InitialSums(n - 1);
      assert |InitialCircuits(n)[n - 1].pointIndexes| == |{n - 1}| == 1;
    }
  }

  /** Live circuit c2 merged into live circuit c1: c2 dies empty, c1 takes its points and
      its connections plus the new one. */
  function MergedCircuits(cs: seq<Circuit>, c1: nat, c2: nat): seq<Circuit>
    requires c1 < |cs| && c2 < |cs|
  {
    var dead := cs[c2].(state := Dead, connections := 0, pointIndexes := {});
    var cs' := cs[c2 := dead];
    cs'[c1 := cs'[c1].(pointIndexes := cs'[c1].pointIndexes + cs[c2].pointIndexes,
                       connections := cs'[c1].connections + cs[c2].connections + 1)]
  }

  function MergedMap(cm: seq<nat>, c1: nat, c2: nat): seq<nat> {
    seq(|cm|, p requires 0 <= p < |cm| => if cm[p] == c2 then c1 else cm[p])
  }

  /** A merge keeps the bookkeeping valid, removes one live circuit, adds one connection and
      keeps the live circuits' sizes summing to the same total. */
  lemma MergeValid(n: nat, cs: seq<Circuit>, cm: seq<nat>, c1: nat, c2: nat)
    requires CircuitsValid(n, cs, cm)
    requires c1 < n && c2 < n && c1 != c2 && cs[c1].state == Alive && cs[c2].state == Alive
    ensures CircuitsValid(n, MergedCircuits(cs, c1, c2), MergedMap(cm, c1, c2))
    ensures SumOver(MergedCircuits(cs, c1, c2), AliveOne) + 1 == SumOver(cs, AliveOne)
    ensures SumOver(MergedCircuits(cs, c1, c2), AliveConnectionsOf) == SumOver(cs, AliveConnectionsOf) + 1
    ensures SumOver(MergedCircuits(cs, c1, c2), AliveSizeOf) == SumOver(cs, AliveSizeOf)
  {
    MergeSums(n, cs, cm, c1, c2);
    MergeMapValid(n, cs, cm, c1, c2);
    MergeCircuitsValid(n, cs, cm, c1, c2);
  }

  lemma MergedCircuitsAre(cs: seq<Circuit>, c1: nat, c2: nat, dead: Circuit, merged: Circuit)
    requires c1 < |cs| && c2 < |cs|
    requires dead == cs[c2].(state := Dead, connections := 0, pointIndexes := {})
    requires merged == cs[c2 := dead][c1].(pointIndexes := cs[c2 := dead][c1].pointIndexes + cs[c2].pointIndexes,
                                          connections := cs[c2 := dead][c1].connections + cs[c2].connections + 1)
    ensures MergedCircuits(cs, c1, c2) == cs[c2 := dead][c1 := merged]
  {
  }

  /** Two different live circuits share no point, so their union's size is the sum. */
  lemma DisjointCircuits(n: nat, cs: seq<Circuit>, cm: seq<nat>, c1: nat, c2: nat)
    requires CircuitsValid(n, cs, cm)
    requires c1 < n && c2 < n && c1 != c2 && cs[c1].state == Alive && cs[c2].state == Alive
    ensures |cs[c1].pointIndexes + cs[c2].pointIndexes| == |cs[c1].pointIndexes| + |cs[c2].pointIndexes|
  {
    assert cs[c1].pointIndexes !! cs[c2].pointIndexes by {
      forall p | p in cs[c1].pointIndexes ensures p !in cs[c2].pointIndexes {
        assert cm[p] == c1;
      }
    }
  }

  lemma MergeSums(n: nat, cs: seq<Circuit>, cm: seq<nat>, c1: nat, c2: nat)
    requires CircuitsValid(n, cs, cm)
    requires c1 < n && c2 < n && c1 != c2 && cs[c1].state == Alive && cs[c2].state == Alive
    ensures SumOver(MergedCircuits(cs, c1, c2), AliveOne) + 1 == SumOver(cs, AliveOne)
    ensures SumOver(MergedCircuits(cs, c1, c2), AliveConnectionsOf) == SumOver(cs, AliveConnectionsOf) + 1
    ensures SumOver(MergedCircuits(cs, c1, c2), AliveSizeOf) == SumOver(cs, AliveSizeOf)
  {
    var dead := cs[c2].(state := Dead, connections := 0, pointIndexes := {});
    var cs' := cs[c2 := dead];
    var merged := cs'[c1].(pointIndexes := cs'[c1].pointIndexes + cs[c2].pointIndexes,
                           connections := cs'[c1].connections + cs[c2].connections + 1);
    MergedCircuitsAre(cs, c1, c2, dead, merged);
    DisjointCircuits(n, cs, cm, c1, c2);
    SumOverUpdate(cs, c2, dead, AliveOne);
    SumOverUpdate(cs', c1, merged, AliveOne);
    SumOverUpdate(cs, c2, dead, AliveConnectionsOf);
    SumOverUpdate(cs', c1, merged, AliveConnectionsOf);
    SumOverUpdate(cs, c2, dead, AliveSizeOf);
    SumOverUpdate(cs', c1, merged, AliveSizeOf);
  }

  lemma MergeMapValid(n: nat, cs: seq<Circuit>, cm: seq<nat>, c1: nat, c2: nat)
    requires CircuitsValid(n, cs, cm)
    requires c1 < n && c2 < n && c1 != c2 && cs[c1].state == Alive && cs[c2].state == Alive
    ensures var cs'' := MergedCircuits(cs, c1, c2); var cm' := MergedMap(cm, c1, c2);
      forall p :: 0 <= p < n ==> cm'[p] < n && cs''[cm'[p]].state == Alive && p in cs''[cm'[p]].pointIndexes
  {
    var cs'' := MergedCircuits(cs, c1, c2);
    var cm' := MergedMap(cm, c1, c2);
    forall p | 0 <= p < n
      ensures cm'[p] < n && cs''[cm'[p]].state == Alive && p in cs''[cm'[p]].pointIndexes
    {
      if cm[p] == c2 {
        assert p in cs[c2].pointIndexes;
      }
    }
  }

  lemma MergeCircuitsValid(n: nat, cs: seq<Circuit>, cm: seq<nat>, c1: nat, c2: nat)
    requires CircuitsValid(n, cs, cm)
    requires c1 < n && c2 < n && c1 != c2 && cs[c1].state == Alive && cs[c2].state == Alive
    ensures var cs'' := MergedCircuits(cs, c1, c2); var cm' := MergedMap(cm, c1, c2);
      && |cs''| == n && |cm'| == n
      && (forall c :: 0 <= c < n && cs''[c].state == Alive ==>
            cs''[c].pointIndexes != {} && forall p :: p in cs''[c].pointIndexes ==> p < n && cm'[p] == c)
      && (forall c :: 0 <= c < n && cs''[c].state == Dead ==> cs''[c].pointIndexes == {} && cs''[c].connections == 0)
  {
    var cs'' := MergedCircuits(cs, c1, c2);
    var cm' := MergedMap(cm, c1, c2);
    forall c | 0 <= c < n && cs''[c].state == Alive
      ensures cs''[c].pointIndexes != {} && forall p :: p in cs''[c].pointIndexes ==> p < n && cm'[p] == c
    {
      assert c != c2;
      forall p | p in cs''[c].pointIndexes ensures p < n && cm'[p] == c {
        if c == c1 && p in cs[c2].pointIndexes {
          assert cm[p] == c2;
        } else {
          assert p in cs[c].pointIndexes;
        }
      }
    }
  }

  /** Another connection inside circuit c1 (`connections += 1`): only its count changes. */
  function Reconnected(cs: seq<Circuit>, c1: nat): seq<Circuit>
    requires c1 < |cs|
  {
    cs[c1 := cs[c1].(connections := cs[c1].connections + 1)]
  }

  lemma ReconnectValid(n: nat, cs: seq<Circuit>, cm: seq<nat>, c1: nat)
    requires CircuitsValid(n, cs, cm) && c1 < n && cs[c1].state == Alive
    ensures CircuitsValid(n, Reconnected(cs, c1), cm)
    ensures SumOver(Reconnected(cs, c1), AliveOne) == SumOver(cs, AliveOne)
    ensures SumOver(Reconnected(cs, c1), AliveConnectionsOf) == SumOver(cs, AliveConnectionsOf) + 1
    ensures SumOver(Reconnected(cs, c1), AliveSizeOf) == SumOver(cs, AliveSizeOf)
  {
    var c := cs[c1].(connections := cs[c1].connections + 1);
    SumOverUpdate(cs, c1, c, AliveOne);
    SumOverUpdate(cs, c1, c, AliveConnectionsOf);
    SumOverUpdate(cs, c1, c, AliveSizeOf);
  }

  /** When every two points share a circuit, exactly one circuit is alive. */
  lemma AllJoinedOneAlive(n: nat, cs: seq<Circuit>, cm: seq<nat>)
    requires CircuitsValid(n, cs, cm) && n > 0
    requires forall i, j :: 0 <= i < j < n ==> cm[i] == cm[j]
    ensures SumOver(cs, AliveOne) == 1
  {
    var k := cm[0];
    forall c | 0 <= c < n ensures cs[c].state == Alive <==> c == k {
      if cs[c].state == Alive {
        var p :| p in cs[c].pointIndexes;
        assert cm[p] == c;
        if p > 0 {
          assert cm[0] == cm[p];
        }
      }
    }
    OnlyOneAlive(cs, k);
  }

  lemma {:induction false} OnlyOneAlive(cs: seq<Circuit>, k: nat)
    requires k < |cs|
    requires forall c :: 0 <= c < |cs| ==> (cs[c].state == Alive <==> c == k)
    ensures SumOver(cs, AliveOne) == 1
  {
    NoneAlive(cs[..k]);
    var last := |cs| - 1;
    if k < last {
      OnlyOneAlive(cs[..last], k);
    } else {
      assert cs[..last] == cs[..k];
    }
  }

  lemma {:induction false} NoneAlive(cs: seq<Circuit>)
    requires forall c :: 0 <= c < |cs| ==> cs[c].state == Dead
    ensures SumOver(cs, AliveOne) == 0
  {
    if cs != [] {
      NoneAlive(cs[..|cs| - 1]);
    }
  }

  // ---------------------------------------------------------------------------------------
  // The graph
  // ---------------------------------------------------------------------------------------

  function PairEntry(points: seq<Point>, i: nat, j: nat): DistanceEntry
    requires i < |points| && j < |points|
  {
    DistanceEntry(i, j, SquaredDistance(points[i], points[j]))
  }

  /** The entries for a list of index pairs, in the same order. */
  function EntriesOf(points: seq<Point>, pairs: seq<(nat, nat)>): (es: seq<DistanceEntry>)
    requires forall k :: 0 <= k < |pairs| ==> pairs[k].0 < |points| && pairs[k].1 < |points|
    ensures |es| == |pairs|
  {
    seq(|pairs|, k requires 0 <= k < |pairs| => PairEntry(points, pairs[k].0, pairs[k].1))
  }

  /** Every queued entry is a pair p1 < p2 of points with its squared distance. */
  ghost predicate EntriesFor(points: seq<Point>, q: seq<DistanceEntry>) {
    forall e :: e in multiset(q) ==>
      e.p1 < e.p2 < |points| && e.dist == SquaredDistance(points[e.p1], points[e.p2])
  }

  /** A pair whose entry has left the queue is in one circuit. */
  ghost predicate DrainedPairsJoined(points: seq<Point>, q: seq<DistanceEntry>, cm: seq<nat>)
    requires |cm| == |points|
  {
    forall i, j :: 0 <= i < j < |points| ==> PairEntry(points, i, j) in multiset(q) || cm[i] == cm[j]
  }

  /** The graph's invariant: the queue is a heap of well-formed entries, the circuit
      bookkeeping is valid, the live circuits hold all points and all connections made,
      and every pair already taken from the queue lies in one circuit. */
  ghost predicate GraphValid(points: seq<Point>, q: seq<DistanceEntry>, cs: seq<Circuit>, cm: seq<nat>, successes: nat) {
    && IsMinHeap(q)
    && CircuitsValid(|points|, cs, cm)
    && SumOver(cs, AliveConnectionsOf) == successes
    && SumOver(cs, AliveSizeOf) == |points|
    && EntriesFor(points, q)
    && DrainedPairsJoined(points, q, cm)
  }

  /** The circuits after joining circuits c1 and c2: one more connection inside c1 when they
      are the same, otherwise c2 merged into c1. */
  ghost function Joined(cs: seq<Circuit>, c1: nat, c2: nat): seq<Circuit>
    requires c1 < |cs| && c2 < |cs|
  {
    if c1 == c2 then Reconnected(cs, c1) else MergedCircuits(cs, c1, c2)
  }

  /** One successful add_connection keeps the invariant: e has left the queue, and its two
      points now share a circuit. */
  lemma ConnectValid(points: seq<Point>, q: seq<DistanceEntry>, q': seq<DistanceEntry>, e: DistanceEntry,
                     cs: seq<Circuit>, cm: seq<nat>, successes: nat)
    requires GraphValid(points, q, cs, cm, successes)
    requires IsMinHeap(q') && multiset(q') + multiset{e} == multiset(q) && e in multiset(q)
    ensures e.p1 < e.p2 < |points| && cm[e.p1] < |points| && cm[e.p2] < |points|
    ensures cs[cm[e.p1]].state == Alive && cs[cm[e.p2]].state == Alive
    ensures GraphValid(points, q', Joined(cs, cm[e.p1], cm[e.p2]), MergedMap(cm, cm[e.p1], cm[e.p2]), successes + 1)
    ensures SumOver(Joined(cs, cm[e.p1], cm[e.p2]), AliveOne) + (if cm[e.p1] == cm[e.p2] then 0 else 1)
      == SumOver(cs, AliveOne)
    ensures MergedMap(cm, cm[e.p1], cm[e.p2])[e.p1] == MergedMap(cm, cm[e.p1], cm[e.p2])[e.p2]
  {
    var n := |points|;
    var c1 := cm[e.p1];
    var c2 := cm[e.p2];
    var cm' := MergedMap(cm, c1, c2);
    MergedMapKeepsTogether(cm, c1, c2);
    DrainedAfter(points, q, q', e, cm, cm');
    var cs' := Joined(cs, c1, c2);
    if c1 == c2 {
      ReconnectValid(n, cs, cm, c1);
      MergedMapSame(cm, c1);
      assert cs' == Reconnected(cs, c1);
    } else {
      MergeValid(n, cs, cm, c1, c2);
      assert cs' == MergedCircuits(cs, c1, c2);
    }
  }

  // ---------------------------------------------------------------------------------------
  // The connections made, in the order they were made
  // ---------------------------------------------------------------------------------------

  /** Some connection made joins points a and b, in either order. */
  ghost predicate Edge(history: seq<DistanceEntry>, a: nat, b: nat) {
    exists k :: 0 <= k < |history| &&
      ((history[k].p1 == a && history[k].p2 == b) || (history[k].p1 == b && history[k].p2 == a))
  }

  /** A walk from point to point along connections made. */
  ghost predicate IsPath(history: seq<DistanceEntry>, path: seq<nat>) {
    |path| >= 1 && forall k :: 0 <= k < |path| - 1 ==> Edge(history, path[k], path[k + 1])
  }

  /** Points a and b are joined by a walk along the connections made. */
  ghost predicate Connected(history: seq<DistanceEntry>, a: nat, b: nat) {
    exists path :: IsPath(history, path) && path[0] == a && path[|path| - 1] == b
  }

  /** The points among the first n that the connections made join to a. */
  ghost function Component(history: seq<DistanceEntry>, n: nat, a: nat): set<nat> {
    set b | 0 <= b < n && Connected(history, a, b)
  }

  /** Some representative is joined to point p. */
  ghost predicate Represented(history: seq<DistanceEntry>, reps: seq<nat>, p: nat) {
    exists k :: 0 <= k < |reps| && Connected(history, reps[k], p)
  }

  /** One point of each group of the n points that the connections join, in some order. */
  ghost predicate OnePerComponent(history: seq<DistanceEntry>, n: nat, reps: seq<nat>) {
    && (forall k :: 0 <= k < |reps| ==> reps[k] < n)
    && (forall p :: 0 <= p < n ==> Represented(history, reps, p))
    && (forall k, l :: 0 <= k < l < |reps| ==> !Connected(history, reps[k], reps[l]))
  }

  /** The sizes of the groups the representatives stand for. */
  ghost function ComponentSizes(history: seq<DistanceEntry>, n: nat, reps: seq<nat>): (sizes: seq<nat>)
    ensures |sizes| == |reps|
  {
    seq(|reps|, k requires 0 <= k < |reps| => |Component(history, n, reps[k])|)
  }

  /** The connections join all n points into one group. */
  ghost predicate AllConnected(history: seq<DistanceEntry>, n: nat) {
    forall i, j :: 0 <= i < n && 0 <= j < n ==> Connected(history, i, j)
  }

  /** The connections are made nearest first: their distances never decrease, and none is
      farther than a pair still queued. */
  ghost predicate NearestFirst(history: seq<DistanceEntry>, q: seq<DistanceEntry>) {
    && (forall i, j :: 0 <= i < j < |history| ==> history[i].dist <= history[j].dist)
    && (forall i, k :: 0 <= i < |history| && 0 <= k < |q| ==> history[i].dist <= q[k].dist)
  }

  /** A reference description of the connections made, from the points alone: pairs p1 < p2
      with their squared distance, none twice, in order of distance, and no pair left out
      nearer than one taken. Ties may be taken in any order. */
  ghost predicate NearestPairs(points: seq<Point>, history: seq<DistanceEntry>) {
    && (forall k :: 0 <= k < |history| ==>
          history[k].p1 < history[k].p2 < |points| && history[k] == PairEntry(points, history[k].p1, history[k].p2))
    && multiset(history) <= multiset(EntriesOf(points, IndexPairs.Pairs(|points|)))
    && (forall i, j :: 0 <= i < j < |history| ==> history[i].dist <= history[j].dist)
    && (forall i, j, k :: 0 <= i < j < |points| && 0 <= k < |history| && PairEntry(points, i, j) !in multiset(history)
          ==> history[k].dist <= PairEntry(points, i, j).dist)
  }

  /** The graph's invariant about its history: the history and the queue together hold
      every pair once, the history is nearest first and as long as the connections made,
      every live circuit holds the point it is named after, and two points share a circuit
      exactly when the connections made join them. */
  ghost predicate HistoryValid(points: seq<Point>, q: seq<DistanceEntry>, history: seq<DistanceEntry>,
                               cs: seq<Circuit>, cm: seq<nat>, successes: nat) {
    && |cs| == |points| && |cm| == |points|
    && |history| == successes
    && EntriesFor(points, history)
    && multiset(history) + multiset(q) == multiset(EntriesOf(points, IndexPairs.Pairs(|points|)))
    && NearestFirst(history, q)
    && GroupsMatch(history, |points|, cs, cm)
  }

  /** Every live circuit is named after a point it holds, and two of the n points share a
      circuit exactly when the connections made join them. */
  ghost predicate GroupsMatch(history: seq<DistanceEntry>, n: nat, cs: seq<Circuit>, cm: seq<nat>)
    requires |cs| == n && |cm| == n
  {
    && (forall c :: 0 <= c < n && cs[c].state == Alive ==> cm[c] == c)
    && (forall i, j {:trigger Connected(history, i, j)} :: 0 <= i < n && 0 <= j < n ==>
          (cm[i] == cm[j] <==> Connected(history, i, j)))
  }

  /** Both halves of the graph's invariant. */
  ghost predicate StateValid(points: seq<Point>, q: seq<DistanceEntry>, history: seq<DistanceEntry>,
                             cs: seq<Circuit>, cm: seq<nat>, successes: nat) {
    GraphValid(points, q, cs, cm, successes) && HistoryValid(points, q, history, cs, cm, successes)
  }

  /** One successful add_connection keeps both halves of the invariant. */
  lemma ConnectStep(points: seq<Point>, q: seq<DistanceEntry>, q': seq<DistanceEntry>, e: DistanceEntry,
                    history: seq<DistanceEntry>, cs: seq<Circuit>, cm: seq<nat>, successes: nat)
    requires StateValid(points, q, history, cs, cm, successes)
    requires IsMinHeap(q') && multiset(q') + multiset{e} == multiset(q) && e in multiset(q)
    requires forall i :: 0 <= i < |q| ==> e.dist <= q[i].dist
    ensures e.p1 < e.p2 < |points| && cm[e.p1] < |points| && cm[e.p2] < |points|
    ensures cs[cm[e.p1]].state == Alive && cs[cm[e.p2]].state == Alive
    ensures StateValid(points, q', history + [e], Joined(cs, cm[e.p1], cm[e.p2]),
                       MergedMap(cm, cm[e.p1], cm[e.p2]), successes + 1)
    ensures SumOver(Joined(cs, cm[e.p1], cm[e.p2]), AliveOne) + (if cm[e.p1] == cm[e.p2] then 0 else 1)
      == SumOver(cs, AliveOne)
    ensures MergedMap(cm, cm[e.p1], cm[e.p2])[e.p1] == MergedMap(cm, cm[e.p1], cm[e.p2])[e.p2]
  {
    ConnectValid(points, q, q', e, cs, cm, successes);
    ConnectHistory(points, q, q', e, history, cs, cm, successes);
  }

  lemma ConnectedSelf(history: seq<DistanceEntry>, a: nat)
    ensures Connected(history, a, a)
  {
    assert IsPath(history, [a]);
  }

  /** Before any connection, a point is joined to itself alone. */
  lemma NothingConnected(a: nat, b: nat)
    ensures Connected([], a, b) <==> a == b
  {
    if Connected([], a, b) {
      var path :| IsPath([], path) && path[0] == a && path[|path| - 1] == b;
      assert 0 < |path| - 1 ==> Edge([], path[0], path[1]);
    } else {
      ConnectedSelf([], a);
    }
  }

  /** One more connection keeps every walk. */
  lemma PathExtend(history: seq<DistanceEntry>, e: DistanceEntry, path: seq<nat>)
    requires IsPath(history, path)
    ensures IsPath(history + [e], path)
  {
    forall k | 0 <= k < |path| - 1 ensures Edge(history + [e], path[k], path[k + 1]) {
      var m :| 0 <= m < |history| &&
        ((history[m].p1 == path[k] && history[m].p2 == path[k + 1]) || (history[m].p1 == path[k + 1] && history[m].p2 == path[k]));
      assert (history + [e])[m] == history[m];
    }
  }

  /** Two walks joined by a connection make one walk. */
  lemma PathJoin(history: seq<DistanceEntry>, p: seq<nat>, q: seq<nat>)
    requires IsPath(history, p) && IsPath(history, q) && Edge(history, p[|p| - 1], q[0])
    ensures IsPath(history, p + q) && (p + q)[0] == p[0] && (p + q)[|p + q| - 1] == q[|q| - 1]
  {
    var pq := p + q;
    forall k | 0 <= k < |pq| - 1 ensures Edge(history, pq[k], pq[k + 1]) {
      if k < |p| - 1 {
        assert pq[k] == p[k] && pq[k + 1] == p[k + 1];
      } else if k >= |p| {
        assert pq[k] == q[k - |p|] && pq[k + 1] == q[k - |p| + 1];
      }
    }
  }

  /** A labelling that every connection respects is constant along a walk. */
  lemma {:induction false} PathKeeps(history: seq<DistanceEntry>, m: seq<nat>, path: seq<nat>)
    requires forall k :: 0 <= k < |history| ==> history[k].p1 < |m| && history[k].p2 < |m| && m[history[k].p1] == m[history[k].p2]
    requires IsPath(history, path) && path[0] < |m|
    ensures path[|path| - 1] < |m| && m[path[0]] == m[path[|path| - 1]]
    decreases |path|
  {
    if |path| > 1 {
      assert Edge(history, path[0], path[1]);
      var rest := path[1..];
      assert IsPath(history, rest) by {
        forall k | 0 <= k < |rest| - 1 ensures Edge(history, rest[k], rest[k + 1]) {
          assert rest[k] == path[k + 1] && rest[k + 1] == path[k + 2];
        }
      }
      PathKeeps(history, m, rest);
    }
  }

  /** The history as the graph is built: empty, beside a queue of every pair. */
  lemma InitialHistory(points: seq<Point>, q: seq<DistanceEntry>)
    requires multiset(q) == multiset(EntriesOf(points, IndexPairs.Pairs(|points|)))
    ensures HistoryValid(points, q, [], InitialCircuits(|points|), Identity(|points|), 0)
  {
    var n := |points|;
    forall i, j | 0 <= i < n && 0 <= j < n ensures Identity(n)[i] == Identity(n)[j] <==> Connected([], i, j) {
      NothingConnected(i, j);
    }
  }

  /** Taking the nearest entry e off the queue and joining its points keeps the history's
      invariant with e appended to the history. */
  lemma ConnectHistory(points: seq<Point>, q: seq<DistanceEntry>, q': seq<DistanceEntry>, e: DistanceEntry,
                       history: seq<DistanceEntry>, cs: seq<Circuit>, cm: seq<nat>, successes: nat)
    requires GraphValid(points, q, cs, cm, successes) && HistoryValid(points, q, history, cs, cm, successes)
    requires multiset(q') + multiset{e} == multiset(q) && e in multiset(q)
    requires forall i :: 0 <= i < |q| ==> e.dist <= q[i].dist
    ensures e.p1 < e.p2 < |points|
    ensures HistoryValid(points, q', history + [e], Joined(cs, cm[e.p1], cm[e.p2]),
                         MergedMap(cm, cm[e.p1], cm[e.p2]), successes + 1)
  {
    var h := history + [e];
    var c1, c2 := cm[e.p1], cm[e.p2];
    var cm' := MergedMap(cm, c1, c2);
    var cs' := Joined(cs, c1, c2);
    assert multiset(h) + multiset(q') == multiset(EntriesOf(points, IndexPairs.Pairs(|points|))) by {
      assert multiset(h) == multiset(history) + multiset{e};
    }
    assert EntriesFor(points, h) by {
      assert multiset(h) == multiset(history) + multiset{e};
    }
    NearestFirstAfter(history, q, q', e);
    RootsAfter(points, cs, cm, c1, c2);
    ConnectedAfter(points, history, e, cm);
  }

  lemma NearestFirstAfter(history: seq<DistanceEntry>, q: seq<DistanceEntry>, q': seq<DistanceEntry>, e: DistanceEntry)
    requires NearestFirst(history, q)
    requires multiset(q') + multiset{e} == multiset(q) && e in multiset(q)
    requires forall i :: 0 <= i < |q| ==> e.dist <= q[i].dist
    ensures NearestFirst(history + [e], q')
  {
    var h := history + [e];
    var ke :| 0 <= ke < |q| && q[ke] == e;
    forall i, j | 0 <= i < j < |h| ensures h[i].dist <= h[j].dist {
      if j == |history| {
        assert h[i] == history[i] && h[j] == q[ke];
      } else {
        assert h[i] == history[i] && h[j] == history[j];
      }
    }
    forall i, k | 0 <= i < |h| && 0 <= k < |q'| ensures h[i].dist <= q'[k].dist {
      assert q'[k] in multiset(q);
      var m :| 0 <= m < |q| && q[m] == q'[k];
      if i < |history| {
        assert h[i] == history[i];
      }
    }
  }

  /** After joining, every live circuit still holds the point it is named after. */
  lemma RootsAfter(points: seq<Point>, cs: seq<Circuit>, cm: seq<nat>, c1: nat, c2: nat)
    requires CircuitsValid(|points|, cs, cm) && c1 < |points| && c2 < |points|
    requires cs[c1].state == Alive && cs[c2].state == Alive
    requires forall c :: 0 <= c < |points| && cs[c].state == Alive ==> cm[c] == c
    ensures forall c :: 0 <= c < |points| && Joined(cs, c1, c2)[c].state == Alive ==> MergedMap(cm, c1, c2)[c] == c
  {
    forall c | 0 <= c < |points| && Joined(cs, c1, c2)[c].state == Alive ensures MergedMap(cm, c1, c2)[c] == c {
      if c1 != c2 {
        assert c != c2 && cs[c].state == Alive;
      } else {
        assert cs[c].state == Alive;
      }
    }
  }

  /** After joining e's circuits, two points share a circuit exactly when the connections
      made, e now among them, join them. */
  lemma ConnectedAfter(points: seq<Point>, history: seq<DistanceEntry>, e: DistanceEntry, cm: seq<nat>)
    requires |cm| == |points| && e.p1 < e.p2 < |points| && EntriesFor(points, history)
    requires forall i, j :: 0 <= i < |points| && 0 <= j < |points| ==> (cm[i] == cm[j] <==> Connected(history, i, j))
    ensures var cm' := MergedMap(cm, cm[e.p1], cm[e.p2]);
      forall i, j :: 0 <= i < |points| && 0 <= j < |points| ==> (cm'[i] == cm'[j] <==> Connected(history + [e], i, j))
  {
    var n := |points|;
    var cm' := MergedMap(cm, cm[e.p1], cm[e.p2]);
    EdgesRespected(points, history, e, cm);
    forall i, j | 0 <= i < n && 0 <= j < n ensures cm'[i] == cm'[j] <==> Connected(history + [e], i, j) {
      if Connected(history + [e], i, j) {
        var path :| IsPath(history + [e], path) && path[0] == i && path[|path| - 1] == j;
        PathKeeps(history + [e], cm', path);
      }
      if cm'[i] == cm'[j] {
        JoinedAfter(points, history, e, cm, i, j);
      }
    }
  }

  /** Every connection made, e included, joins points that share a circuit after the join. */
  lemma EdgesRespected(points: seq<Point>, history: seq<DistanceEntry>, e: DistanceEntry, cm: seq<nat>)
    requires |cm| == |points| && e.p1 < e.p2 < |points| && EntriesFor(points, history)
    requires forall i, j :: 0 <= i < |points| && 0 <= j < |points| ==> (cm[i] == cm[j] <==> Connected(history, i, j))
    ensures var cm' := MergedMap(cm, cm[e.p1], cm[e.p2]); var h := history + [e];
      forall k :: 0 <= k < |h| ==> h[k].p1 < |cm'| && h[k].p2 < |cm'| && cm'[h[k].p1] == cm'[h[k].p2]
  {
    var h := history + [e];
    var cm' := MergedMap(cm, cm[e.p1], cm[e.p2]);
    forall k | 0 <= k < |h| ensures h[k].p1 < |cm'| && h[k].p2 < |cm'| && cm'[h[k].p1] == cm'[h[k].p2] {
      if k < |history| {
        var x := history[k];
        assert h[k] == x && x in multiset(history);
        assert IsPath(history, [x.p1, x.p2]) by {
          assert Edge(history, x.p1, x.p2);
        }
        assert Connected(history, x.p1, x.p2);
      }
    }
  }

  /** Two points that share a circuit after joining e's are joined by the connections made
      with e. */
  lemma JoinedAfter(points: seq<Point>, history: seq<DistanceEntry>, e: DistanceEntry, cm: seq<nat>, i: nat, j: nat)
    requires |cm| == |points| && e.p1 < e.p2 < |points| && i < |points| && j < |points|
    requires forall i, j :: 0 <= i < |points| && 0 <= j < |points| ==> (cm[i] == cm[j] <==> Connected(history, i, j))
    requires MergedMap(cm, cm[e.p1], cm[e.p2])[i] == MergedMap(cm, cm[e.p1], cm[e.p2])[j]
    ensures Connected(history + [e], i, j)
  {
    var h := history + [e];
    var c1, c2 := cm[e.p1], cm[e.p2];
    if cm[i] == cm[j] {
      var path :| IsPath(history, path) && path[0] == i && path[|path| - 1] == j;
      PathExtend(history, e, path);
    } else {
      var (a, b) := if cm[i] == c1 then (e.p1, e.p2) else (e.p2, e.p1);
      assert cm[i] == cm[a] && cm[b] == cm[j];
      var p :| IsPath(history, p) && p[0] == i && p[|p| - 1] == a;
      var q :| IsPath(history, q) && q[0] == b && q[|q| - 1] == j;
      PathExtend(history, e, p);
      PathExtend(history, e, q);
      assert Edge(h, a, b) by {
        assert h[|history|] == e;
      }
      PathJoin(h, p, q);
    }
  }

  /** The live circuits' names, in circuit order. */
  function LiveIds(cs: seq<Circuit>): (ids: seq<nat>)
    ensures forall k :: 0 <= k < |ids| ==> ids[k] < |cs|
  {
    if cs == [] then []
    else LiveIds(cs[..|cs| - 1]) + (if cs[|cs| - 1].state == Alive then [|cs| - 1] else [])
  }

  /** The live circuits' names are as many as their sizes, and name live circuits whose
      sizes they stand beside. */
  lemma {:induction false} LiveIdsSpec(cs: seq<Circuit>)
    ensures |LiveIds(cs)| == |AliveSizes(cs)|
    ensures forall k :: 0 <= k < |LiveIds(cs)| ==>
      cs[LiveIds(cs)[k]].state == Alive && AliveSizes(cs)[k] == |cs[LiveIds(cs)[k]].pointIndexes|
  {
    if cs != [] {
      var init := cs[..|cs| - 1];
      var last := |cs| - 1;
      LiveIdsSpec(init);
      var prev, ids := LiveIds(init), LiveIds(cs);
      var sizes := AliveSizes(cs);
      assert sizes == AliveSizes(init) + (if cs[last].state == Alive then [|cs[last].pointIndexes|] else []);
      forall k | 0 <= k < |ids| ensures cs[ids[k]].state == Alive && sizes[k] == |cs[ids[k]].pointIndexes| {
        if k < |prev| {
          assert ids[k] == prev[k] && init[prev[k]] == cs[prev[k]];
        }
      }
    }
  }

  /** The live circuits' names are in increasing order, so each is listed once. */
  lemma {:induction false} LiveIdsIncreasing(cs: seq<Circuit>)
    ensures forall k, l :: 0 <= k < l < |LiveIds(cs)| ==> LiveIds(cs)[k] < LiveIds(cs)[l]
  {
    if cs != [] {
      LiveIdsIncreasing(cs[..|cs| - 1]);
    }
  }

  /** Every live circuit is listed. */
  lemma {:induction false} LiveIdsComplete(cs: seq<Circuit>)
    ensures forall c :: 0 <= c < |cs| && cs[c].state == Alive ==> c in LiveIds(cs)
  {
    if cs != [] {
      var init := cs[..|cs| - 1];
      var last := |cs| - 1;
      LiveIdsComplete(init);
      forall c | 0 <= c < |cs| && cs[c].state == Alive ensures c in LiveIds(cs) {
        if c < last {
          assert init[c] == cs[c];
        } else {
          assert LiveIds(cs)[|LiveIds(cs)| - 1] == c;
        }
      }
    }
  }

  /** The live circuits are the groups the connections made join, one circuit per group,
      each holding its group. */
  lemma CircuitsAreComponents(points: seq<Point>, q: seq<DistanceEntry>, history: seq<DistanceEntry>,
                              cs: seq<Circuit>, cm: seq<nat>, successes: nat)
    requires GraphValid(points, q, cs, cm, successes) && HistoryValid(points, q, history, cs, cm, successes)
    ensures OnePerComponent(history, |points|, LiveIds(cs))
    ensures AliveSizes(cs) == ComponentSizes(history, |points|, LiveIds(cs))
  {
    CircuitSizes(history, |points|, cs, cm);
    LiveIdsRepresent(history, |points|, cs, cm);
  }

  lemma CircuitSizes(history: seq<DistanceEntry>, n: nat, cs: seq<Circuit>, cm: seq<nat>)
    requires CircuitsValid(n, cs, cm) && GroupsMatch(history, n, cs, cm)
    ensures AliveSizes(cs) == ComponentSizes(history, n, LiveIds(cs))
  {
    var ids := LiveIds(cs);
    LiveIdsSpec(cs);
    forall k | 0 <= k < |ids| ensures AliveSizes(cs)[k] == |Component(history, n, ids[k])| {
      CircuitIsComponent(history, n, cs, cm, ids[k]);
    }
  }

  /** A live circuit holds exactly the points its named point is joined to. */
  lemma CircuitIsComponent(history: seq<DistanceEntry>, n: nat, cs: seq<Circuit>, cm: seq<nat>, c: nat)
    requires CircuitsValid(n, cs, cm) && GroupsMatch(history, n, cs, cm)
    requires c < n && cs[c].state == Alive
    ensures cs[c].pointIndexes == Component(history, n, c)
  {
    forall p | p in cs[c].pointIndexes ensures p in Component(history, n, c) {
      assert p < n && cm[p] == c == cm[c];
    }
    forall p | p in Component(history, n, c) ensures p in cs[c].pointIndexes {
      assert cm[c] == cm[p];
      assert cs[cm[p]].state == Alive && p in cs[cm[p]].pointIndexes;
    }
  }

  lemma LiveIdsRepresent(history: seq<DistanceEntry>, n: nat, cs: seq<Circuit>, cm: seq<nat>)
    requires CircuitsValid(n, cs, cm) && GroupsMatch(history, n, cs, cm)
    ensures OnePerComponent(history, n, LiveIds(cs))
  {
    var ids := LiveIds(cs);
    LiveIdsComplete(cs);
    forall p | 0 <= p < n ensures Represented(history, ids, p) {
      var c := cm[p];
      var k :| 0 <= k < |ids| && ids[k] == c;
      assert cm[c] == c;
      assert Connected(history, ids[k], p);
    }
    LiveIdsSpec(cs);
    LiveIdsIncreasing(cs);
    forall k, l | 0 <= k < l < |ids| ensures !Connected(history, ids[k], ids[l]) {
      assert cm[ids[k]] == ids[k] && cm[ids[l]] == ids[l];
    }
  }

  /** Read from the points alone, the history is the nearest pairs taken first. */
  lemma HistoryIsNearestPairs(points: seq<Point>, q: seq<DistanceEntry>, history: seq<DistanceEntry>,
                              cs: seq<Circuit>, cm: seq<nat>, successes: nat)
    requires HistoryValid(points, q, history, cs, cm, successes)
    ensures NearestPairs(points, history)
  {
    var n := |points|;
    forall k | 0 <= k < |history|
      ensures history[k].p1 < history[k].p2 < n && history[k] == PairEntry(points, history[k].p1, history[k].p2)
    {
      assert history[k] in multiset(history);
    }
    IndexPairs.PairsEnumeration(n);
    InitialAllPairs(points, history + q);
    forall i, j, k | 0 <= i < j < n && 0 <= k < |history| && PairEntry(points, i, j) !in multiset(history)
      ensures history[k].dist <= PairEntry(points, i, j).dist
    {
      var x := PairEntry(points, i, j);
      assert x in multiset(history + q);
      assert x in multiset(q);
      var m :| 0 <= m < |q| && q[m] == x;
    }
  }

  /** Some live circuit holds both points; a single live circuit means the connections
      join every point, and two live circuits mean they do not. */
  lemma OneAliveAllConnected(points: seq<Point>, q: seq<DistanceEntry>, history: seq<DistanceEntry>,
                             cs: seq<Circuit>, cm: seq<nat>, successes: nat)
    requires GraphValid(points, q, cs, cm, successes) && HistoryValid(points, q, history, cs, cm, successes)
    requires |points| > 0
    ensures SumOver(cs, AliveOne) == 1 <==> AllConnected(history, |points|)
  {
    var n := |points|;
    if AllConnected(history, n) {
      forall i, j | 0 <= i < j < n ensures cm[i] == cm[j] {
        assert Connected(history, i, j);
      }
      AllJoinedOneAlive(n, cs, cm);
    } else {
      var i, j :| 0 <= i < n && 0 <= j < n && !Connected(history, i, j);
      var a, b := cm[i], cm[j];
      assert a != b;
      if a < b {
        TwoAlive(cs, a, b);
      } else {
        TwoAlive(cs, b, a);
      }
    }
  }

  lemma {:induction false} TwoAlive(cs: seq<Circuit>, a: nat, b: nat)
    requires a < b < |cs| && cs[a].state == Alive && cs[b].state == Alive
    ensures SumOver(cs, AliveOne) >= 2
  {
    var init := cs[..|cs| - 1];
    if b == |cs| - 1 {
      assert init[a] == cs[a];
      OneAlive(init, a);
    } else {
      assert init[a] == cs[a] && init[b] == cs[b];
      TwoAlive(init, a, b);
    }
  }

  lemma {:induction false} OneAlive(cs: seq<Circuit>, a: nat)
    requires a < |cs| && cs[a].state == Alive
    ensures SumOver(cs, AliveOne) >= 1
  {
    if a < |cs| - 1 {
      assert cs[..|cs| - 1][a] == cs[a];
      OneAlive(cs[..|cs| - 1], a);
    }
  }

  class Graph {
    const points: seq<Point>
    const orderedDistances: DistanceQueue
    var circuits: seq<Circuit>
    var circuitsMap: seq<nat>
    /** The number of connections made so far. */
    ghost var successes: nat
    /** The entries taken off the queue, in the order they were taken. */
    ghost var history: seq<DistanceEntry>

    ghost predicate Valid()
      reads this, orderedDistances
    {
      StateValid(points, orderedDistances.queue, history, circuits, circuitsMap, successes)
    }

    /** Queues every pair p1 < p2 once, in the order of the nested loops, and puts every
        point in a live circuit of its own. */
    constructor FromPoints(points: seq<Point>)
      ensures this.points == points && fresh(orderedDistances)
      ensures multiset(orderedDistances.queue) == multiset(EntriesOf(points, IndexPairs.Pairs(|points|)))
      ensures circuits == InitialCircuits(|points|) && circuitsMap == Identity(|points|)
      ensures successes == 0 && history == []
      ensures Valid()
    {
      var n := |points|;
      var dqueue := QueueAllPairs(points);
      var circuits: seq<Circuit> := [];
      var circuitsMap: seq<nat> := [];
      for pIdx := 0 to n
        invariant circuits == InitialCircuits(pIdx) && circuitsMap == Identity(pIdx)
      {
        circuits := circuits + [Circuit(Alive, pIdx, {pIdx}, 0)];
        circuitsMap := circuitsMap + [pIdx];
      }
      this.points := points;
      this.orderedDistances := dqueue;
      this.circuits := circuits;
      this.circuitsMap := circuitsMap;
      this.successes := 0;
      this.history := [];
      new;
      InitialValid(points, dqueue.queue);
      InitialHistory(points, dqueue.queue);
    }

    /** The merge part of add_connection: circuit c2 dies, handing its points and
        connections to c1, and its points are mapped to c1. */
    method MergeInto(c1Idx: nat, c2Idx: nat)
      requires CircuitsValid(|points|, circuits, circuitsMap)
      requires c1Idx < |points| && c2Idx < |points| && c1Idx != c2Idx
      requires circuits[c1Idx].state == Alive && circuits[c2Idx].state == Alive
      modifies this
      ensures circuits == MergedCircuits(old(circuits), c1Idx, c2Idx)
      ensures circuitsMap == MergedMap(old(circuitsMap), c1Idx, c2Idx)
      ensures successes == old(successes) && history == old(history)
    {
      ghost var cs0 := circuits;
      var c2 := circuits[c2Idx];
      circuits := circuits[c2Idx := c2.(state := Dead, connections := 0, pointIndexes := {})];
      var c1 := circuits[c1Idx];
      var inserted := InsertAll(c1.pointIndexes, c2.pointIndexes);
      circuits := circuits[c1Idx := c1.(pointIndexes := inserted, connections := c1.connections + c2.connections + 1)];
      var remapped := Remap(circuitsMap, c2.pointIndexes, c1Idx);
      RemapIsMerged(|points|, cs0, circuitsMap, c1Idx, c2Idx, remapped);
      circuitsMap := remapped;
    }

    /** Takes the nearest queued pair and joins its two points: inside one circuit only the
        connection count grows; otherwise the second circuit dies and its points move to the
        first. With the queue empty nothing changes. */
    method AddConnection() returns (r: Option<(nat, nat)>)
      requires Valid()
      modifies this, orderedDistances
      ensures Valid()
      ensures r.None? <==> old(orderedDistances.queue) == []
      ensures |orderedDistances.queue| == |old(orderedDistances.queue)| - (if r.Some? then 1 else 0)
      ensures r.Some? ==> r.value.0 < r.value.1 < |points|
      ensures r.None? ==>
        && orderedDistances.queue == old(orderedDistances.queue)
        && circuits == old(circuits) && circuitsMap == old(circuitsMap) && successes == old(successes)
        && history == old(history)
      ensures r.Some? ==>
        var e := old(orderedDistances.Peek()).value;
        var c1 := old(circuitsMap)[e.p1];
        var c2 := old(circuitsMap)[e.p2];
        && r.value == (e.p1, e.p2)
        && multiset(orderedDistances.queue) + multiset{e} == multiset(old(orderedDistances.queue))
        && successes == old(successes) + 1
        && history == old(history) + [e]
        && circuitsMap == MergedMap(old(circuitsMap), c1, c2)
        && circuitsMap[e.p1] == circuitsMap[e.p2]
        && SumOver(circuits, AliveOne) == SumOver(old(circuits), AliveOne) - (if c1 == c2 then 0 else 1)
    {
      ghost var q0, cs0, cm0, h0, s0 := orderedDistances.queue, circuits, circuitsMap, history, successes;
      var connection := orderedDistances.Dequeue();
      if connection.None? {
        return None;
      }
      var e := connection.value;
      assert e in multiset(q0);
      assert |orderedDistances.queue| + 1 == |q0| by {
        assert |multiset(orderedDistances.queue) + multiset{e}| == |multiset(q0)|;
      }
      ghost var q := orderedDistances.queue;
      ConnectStep(points, q0, q, e, h0, cs0, cm0, s0);
      Connect(e);
      return Some((e.p1, e.p2));
    }

    /** Joins the two points of a pair just taken off the queue: the circuits are joined
        and the pair is counted and recorded. */
    method Connect(e: DistanceEntry)
      requires CircuitsValid(|points|, circuits, circuitsMap)
      requires e.p1 < |points| && e.p2 < |points|
      requires circuits[circuitsMap[e.p1]].state == Alive && circuits[circuitsMap[e.p2]].state == Alive
      requires StateValid(points, orderedDistances.queue, history + [e],
                          Joined(circuits, circuitsMap[e.p1], circuitsMap[e.p2]),
                          MergedMap(circuitsMap, circuitsMap[e.p1], circuitsMap[e.p2]), successes + 1)
      modifies this
      ensures Valid()
      ensures circuits == Joined(old(circuits), old(circuitsMap)[e.p1], old(circuitsMap)[e.p2])
      ensures circuitsMap == MergedMap(old(circuitsMap), old(circuitsMap)[e.p1], old(circuitsMap)[e.p2])
      ensures successes == old(successes) + 1 && history == old(history) + [e]
    {
      var c1Idx := circuitsMap[e.p1];
      var c2Idx := circuitsMap[e.p2];
      JoinCircuits(c1Idx, c2Idx);
      successes := successes + 1;
      history := history + [e];
      assert circuits == Joined(old(circuits), c1Idx, c2Idx) && circuitsMap == MergedMap(old(circuitsMap), c1Idx, c2Idx);
    }

    /** The circuit part of add_connection: one more connection inside a circuit, or the
        merge of two. */
    method JoinCircuits(c1Idx: nat, c2Idx: nat)
      requires CircuitsValid(|points|, circuits, circuitsMap)
      requires c1Idx < |points| && c2Idx < |points|
      requires circuits[c1Idx].state == Alive && circuits[c2Idx].state == Alive
      modifies this
      ensures circuits == Joined(old(circuits), c1Idx, c2Idx)
      ensures circuitsMap == MergedMap(old(circuitsMap), c1Idx, c2Idx)
      ensures successes == old(successes) && history == old(history)
    {
      if c1Idx == c2Idx {
        circuits := Reconnected(circuits, c1Idx);
        MergedMapSame(circuitsMap, c1Idx);
      } else {
        MergeInto(c1Idx, c2Idx);
      }
    }
  }

  /** The outer loop of the distance computation: row p1 for every point p1. */
  method QueueAllPairs(points: seq<Point>) returns (dqueue: DistanceQueue)
    ensures fresh(dqueue) && dqueue.Valid()
    ensures multiset(dqueue.queue) == multiset(EntriesOf(points, IndexPairs.Pairs(|points|)))
  {
    var n := |points|;
    dqueue := new DistanceQueue.WithCapacity(n * n);
    for p1Idx := 0 to n
      invariant fresh(dqueue) && dqueue.Valid()
      invariant multiset(dqueue.queue) == multiset(EntriesOf(points, IndexPairs.RowsUpTo(p1Idx, n)))
    {
      EnqueueRow(dqueue, points, p1Idx);
    }
  }

  method EnqueueRow(dqueue: DistanceQueue, points: seq<Point>, p1Idx: nat)
    requires p1Idx < |points| && dqueue.Valid()
    requires multiset(dqueue.queue) == multiset(EntriesOf(points, IndexPairs.RowsUpTo(p1Idx, |points|)))
    modifies dqueue
    ensures dqueue.Valid()
    ensures multiset(dqueue.queue) == multiset(EntriesOf(points, IndexPairs.RowsUpTo(p1Idx + 1, |points|)))
  {
    var n := |points|;
    ghost var before := multiset(EntriesOf(points, IndexPairs.RowsUpTo(p1Idx, n)));
    ghost var count := 0;
    // The source compares p2 with the length of the distance matrix built so far, which
    // is p1.
    var distanceMatrixLen := p1Idx;
    for p2Idx := 0 to n
      invariant dqueue.Valid()
      invariant count == if p2Idx <= p1Idx + 1 then 0 else p2Idx - p1Idx - 1
      invariant multiset(dqueue.queue) == before + multiset(RowEntries(points, p1Idx, count))
    {
      if p1Idx == p2Idx {
        continue;
      }
      if p2Idx > distanceMatrixLen {
        var entry := DistanceEntry(p1Idx, p2Idx, SquaredDistance(points[p1Idx], points[p2Idx]));
        RowEntriesSnoc(points, p1Idx, count, entry);
        var _ := dqueue.Enqueue(entry);
        count := count + 1;
      }
    }
    RowsUpToEntries(points, p1Idx);
  }

  /** The first count entries of row i of the enumeration, in visiting order. */
  ghost function RowEntries(points: seq<Point>, i: nat, count: nat): seq<DistanceEntry>
    requires i + count < |points|
  {
    seq(count, k requires 0 <= k < count => PairEntry(points, i, i + 1 + k))
  }

  lemma RowEntriesSnoc(points: seq<Point>, i: nat, count: nat, e: DistanceEntry)
    requires i + count + 1 < |points| && e == PairEntry(points, i, i + 1 + count)
    ensures multiset(RowEntries(points, i, count + 1)) == multiset(RowEntries(points, i, count)) + multiset{e}
  {
    assert RowEntries(points, i, count + 1) == RowEntries(points, i, count) + [e];
  }

  /** Rows 0 .. i of the entries are rows 0 .. i-1 followed by all of row i. */
  lemma RowsUpToEntries(points: seq<Point>, i: nat)
    requires i < |points|
    ensures EntriesOf(points, IndexPairs.RowsUpTo(i + 1, |points|))
         == EntriesOf(points, IndexPairs.RowsUpTo(i, |points|)) + RowEntries(points, i, |points| - i - 1)
  {
    var n := |points|;
    var prev := IndexPairs.RowsUpTo(i, n);
    var row := IndexPairs.Row(i, n);
    var all := IndexPairs.RowsUpTo(i + 1, n);
    assert all == prev + row;
    assert |row| == n - i - 1;
    var lhs := EntriesOf(points, all);
    var rhs := EntriesOf(points, prev) + RowEntries(points, i, n - i - 1);
    forall k | 0 <= k < |lhs| ensures lhs[k] == rhs[k] {
      if k < |prev| {
        assert all[k] == prev[k];
      } else {
        assert all[k] == row[k - |prev|];
      }
    }
  }

  /** After a dequeue of e and a merge that joins e's points and keeps every earlier join,
      the drained pairs are still joined and the queued entries still well formed. */
  /** Merging a circuit with itself leaves the map as it is. */
  lemma MergedMapSame(cm: seq<nat>, c: nat)
    ensures MergedMap(cm, c, c) == cm
  {
  }

  /** Points in one circuit stay in one circuit after a merge. */
  lemma MergedMapKeepsTogether(cm: seq<nat>, c1: nat, c2: nat)
    ensures forall a, b :: 0 <= a < |cm| && 0 <= b < |cm| && cm[a] == cm[b] ==>
      MergedMap(cm, c1, c2)[a] == MergedMap(cm, c1, c2)[b]
  {
  }

  lemma DrainedAfter(points: seq<Point>, q: seq<DistanceEntry>, q': seq<DistanceEntry>, e: DistanceEntry,
                     cm: seq<nat>, cm': seq<nat>)
    requires |cm| == |points| && |cm'| == |points|
    requires EntriesFor(points, q) && DrainedPairsJoined(points, q, cm)
    requires multiset(q') + multiset{e} == multiset(q)
    requires e.p1 < |points| && e.p2 < |points| && cm'[e.p1] == cm'[e.p2]
    requires forall a, b :: 0 <= a < |points| && 0 <= b < |points| && cm[a] == cm[b] ==> cm'[a] == cm'[b]
    ensures EntriesFor(points, q') && DrainedPairsJoined(points, q', cm')
  {
    forall x | x in multiset(q') ensures x in multiset(q) {
    }
    forall i, j | 0 <= i < j < |points| ensures PairEntry(points, i, j) in multiset(q') || cm'[i] == cm'[j] {
      var x := PairEntry(points, i, j);
      if x == e {
      } else if x in multiset(q) {
        assert multiset(q')[x] == multiset(q)[x];
      } else {
        assert cm[i] == cm[j];
      }
    }
  }

  /** The graph as built: every point alone in a live circuit, every pair queued. */
  lemma InitialValid(points: seq<Point>, q: seq<DistanceEntry>)
    requires IsMinHeap(q)
    requires multiset(q) == multiset(EntriesOf(points, IndexPairs.Pairs(|points|)))
    ensures GraphValid(points, q, InitialCircuits(|points|), Identity(|points|), 0)
  {
    InitialSums(|points|);
    InitialQueue(points, q);
  }

  /** The initial queue holds well-formed entries and every pair's entry. */
  lemma InitialQueue(points: seq<Point>, q: seq<DistanceEntry>)
    requires multiset(q) == multiset(EntriesOf(points, IndexPairs.Pairs(|points|)))
    ensures EntriesFor(points, q)
    ensures forall i, j :: 0 <= i < j < |points| ==> PairEntry(points, i, j) in multiset(q)
  {
    IndexPairs.PairsEnumeration(|points|);
    InitialEntriesFor(points, q);
    InitialAllPairs(points, q);
  }

  lemma InitialEntriesFor(points: seq<Point>, q: seq<DistanceEntry>)
    requires multiset(q) == multiset(EntriesOf(points, IndexPairs.Pairs(|points|)))
    requires forall k :: 0 <= k < |IndexPairs.Pairs(|points|)| ==>
      IndexPairs.Pairs(|points|)[k].0 < IndexPairs.Pairs(|points|)[k].1 < |points|
    ensures EntriesFor(points, q)
  {
    var pairs := IndexPairs.Pairs(|points|);
    var es := EntriesOf(points, pairs);
    forall e | e in multiset(q)
      ensures e.p1 < e.p2 < |points| && e.dist == SquaredDistance(points[e.p1], points[e.p2])
    {
      assert e in es;
      var k :| 0 <= k < |es| && es[k] == e;
      assert pairs[k].0 < pairs[k].1 < |points|;
    }
  }

  lemma InitialAllPairs(points: seq<Point>, q: seq<DistanceEntry>)
    requires multiset(q) == multiset(EntriesOf(points, IndexPairs.Pairs(|points|)))
    requires forall i: nat, j: nat :: i < j < |points| ==> (i, j) in IndexPairs.Pairs(|points|)
    ensures forall i, j :: 0 <= i < j < |points| ==> PairEntry(points, i, j) in multiset(q)
  {
    var pairs := IndexPairs.Pairs(|points|);
    var es := EntriesOf(points, pairs);
    forall i, j | 0 <= i < j < |points| ensures PairEntry(points, i, j) in multiset(q) {
      assert (i, j) in pairs;
      var k :| 0 <= k < |pairs| && pairs[k] == (i, j);
      assert es[k] == PairEntry(points, i, j);
      assert es[k] in es;
    }
  }

  // ---------------------------------------------------------------------------------------
  // The two stars
  // ---------------------------------------------------------------------------------------

  /** How many connections star_one makes: 10 for the 20-point example, 1000 otherwise. */
  function StarOneTarget(n: nat): (t: nat)
    ensures t == 10 || t == 1000
  {
    if n == 20 then 10 else 1000
  }

  /** star_one halts only when there are enough pairs to make its target of connections;
      with fewer it would loop for ever on an empty queue. */
  predicate StarOneStops(input: string) {
    PointsOf(input).Ok? ==>
      var n := |PointsOf(input).value|;
      2 * StarOneTarget(n) <= n * (n - 1)
  }

  /** The key that sorts sizes largest first, as `b.cmp(&a)` does. */
  function Descending(x: nat): int {
    -(x as int)
  }

  /** The (at most) three largest sizes, largest first. */
  function TopThree(sizes: seq<nat>): seq<nat> {
    var sorted := Sorting.SortBy(sizes, Descending);
    sorted[..if |sorted| < 3 then |sorted| else 3]
  }

  function TopThreeProduct(sizes: seq<nat>): int {
    Product(TopThree(sizes))
  }

  /** TopThree takes min(3, |sizes|) of the sizes, and none left behind is larger than one
      taken. */
  lemma TopThreeLargest(sizes: seq<nat>)
    ensures |TopThree(sizes)| == if |sizes| < 3 then |sizes| else 3
    ensures multiset(TopThree(sizes)) <= multiset(sizes)
    ensures forall x, y :: x in TopThree(sizes) && y in multiset(sizes) - multiset(TopThree(sizes)) ==> y <= x
  {
    var sorted := Sorting.SortBy(sizes, Descending);
    var k := if |sorted| < 3 then |sorted| else 3;
    var top := sorted[..k];
    var rest := sorted[k..];
    SplitMultiset(sorted, k);
    DescendingSplit(sorted, k);
    assert multiset(sizes) - multiset(top) == multiset(rest);
  }

  lemma SplitMultiset(s: seq<nat>, k: nat)
    requires k <= |s|
    ensures multiset(s) == multiset(s[..k]) + multiset(s[k..])
  {
    assert s == s[..k] + s[k..];
  }

  /** Cut a largest-first sequence anywhere: nothing after the cut is larger than anything
      before it. */
  lemma DescendingSplit(s: seq<nat>, k: nat)
    requires k <= |s| && Sorting.SortedBy(s, Descending)
    ensures forall x, y :: x in s[..k] && y in multiset(s[k..]) ==> y <= x
  {
    forall x, y | x in s[..k] && y in multiset(s[k..]) ensures y <= x {
      var i :| 0 <= i < k && s[..k][i] == x;
      var j :| 0 <= j < |s| - k && s[k..][j] == y;
      assert s[i] == x && s[k + j] == y;
      assert Descending(s[i]) <= Descending(s[k + j]);
    }
  }

  /** Parses the points and answers from the three largest circuits; an input that does
      not parse is an error. */
  method StarOne(input: string) returns (r: Result<int>)
    requires StarOneStops(input)
    ensures r.Err? <==> PointsOf(input).Err?
    ensures r.Ok? ==>
      var points := PointsOf(input).value;
      exists cs: seq<Circuit>, cm: seq<nat> ::
        && CircuitsValid(|points|, cs, cm)
        && SumOver(cs, AliveConnectionsOf) == StarOneTarget(|points|)
        && SumOver(cs, AliveSizeOf) == |points|
        && r.value == TopThreeProduct(AliveSizes(cs))
    ensures r.Ok? ==>
      var points := PointsOf(input).value;
      exists history: seq<DistanceEntry>, reps: seq<nat> ::
        && NearestPairs(points, history) && |history| == StarOneTarget(|points|)
        && OnePerComponent(history, |points|, reps)
        && r.value == TopThreeProduct(ComponentSizes(history, |points|, reps))
  {
    var parsed := ParsePoints(input);
    if parsed.Err? {
      return Err(parsed.msg);
    }
    IndexPairs.PairsEnumeration(|parsed.value|);
    var product := LargestCircuitsProduct(parsed.value);
    return Ok(product);
  }

  /** Makes connections in order of distance until the live circuits hold the target number
      of connections, and multiplies the sizes of the three largest live circuits. */
  method LargestCircuitsProduct(points: seq<Point>) returns (product: int)
    requires StarOneTarget(|points|) <= |IndexPairs.Pairs(|points|)|
    ensures exists cs: seq<Circuit>, cm: seq<nat> ::
      && CircuitsValid(|points|, cs, cm)
      && SumOver(cs, AliveConnectionsOf) == StarOneTarget(|points|)
      && SumOver(cs, AliveSizeOf) == |points|
      && product == TopThreeProduct(AliveSizes(cs))
    ensures exists history: seq<DistanceEntry>, reps: seq<nat> ::
      && NearestPairs(points, history) && |history| == StarOneTarget(|points|)
      && OnePerComponent(history, |points|, reps)
      && product == TopThreeProduct(ComponentSizes(history, |points|, reps))
  {
    var n := |points|;
    ghost var total := |IndexPairs.Pairs(n)|;
    var graph := new Graph.FromPoints(points);
    assert |graph.orderedDistances.queue| == total by {
      assert |multiset(graph.orderedDistances.queue)| == |multiset(EntriesOf(points, IndexPairs.Pairs(n)))|;
    }
    ConnectNearest(graph, total);
    var circs := AliveSizes(graph.circuits);
    product := TopThreeProduct(circs);
    StarOneAnswer(points, graph.orderedDistances.queue, graph.history, graph.circuits, graph.circuitsMap,
                  graph.successes, product);
  }

  /** The loop of star_one: connects the nearest pairs left until the live circuits hold
      the target number of connections. */
  method ConnectNearest(graph: Graph, ghost total: nat)
    requires graph.Valid() && graph.successes + |graph.orderedDistances.queue| == total
    requires graph.successes < StarOneTarget(|graph.points|) <= total
    modifies graph, graph.orderedDistances
    ensures graph.Valid() && graph.successes == StarOneTarget(|graph.points|)
  {
    var n := |graph.points|;
    while true
      invariant graph.Valid()
      invariant graph.successes + |graph.orderedDistances.queue| == total
      invariant graph.successes < StarOneTarget(n)
      decreases |graph.orderedDistances.queue|
    {
      var _ := graph.AddConnection();
      // The live circuits' connections: by the graph invariant, the connections made.
      var cxns := SumOver(graph.circuits, AliveConnectionsOf);
      if n == 20 {
        if cxns == 10 {
          break;
        }
      } else {
        if cxns == 1000 {
          break;
        }
      }
    }
  }

  /** In a valid state the live circuits' sizes are the sizes of the groups the nearest
      pairs taken so far join. */
  lemma StarOneAnswer(points: seq<Point>, q: seq<DistanceEntry>, history: seq<DistanceEntry>,
                      cs: seq<Circuit>, cm: seq<nat>, successes: nat, product: int)
    requires StateValid(points, q, history, cs, cm, successes)
    requires product == TopThreeProduct(AliveSizes(cs))
    ensures exists cs: seq<Circuit>, cm: seq<nat> ::
      && CircuitsValid(|points|, cs, cm)
      && SumOver(cs, AliveConnectionsOf) == successes
      && SumOver(cs, AliveSizeOf) == |points|
      && product == TopThreeProduct(AliveSizes(cs))
    ensures exists history: seq<DistanceEntry>, reps: seq<nat> ::
      && NearestPairs(points, history) && |history| == successes
      && OnePerComponent(history, |points|, reps)
      && product == TopThreeProduct(ComponentSizes(history, |points|, reps))
  {
    CircuitsAreComponents(points, q, history, cs, cm, successes);
    HistoryIsNearestPairs(points, q, history, cs, cm, successes);
    var reps := LiveIds(cs);
    assert NearestPairs(points, history) && |history| == successes
      && OnePerComponent(history, |points|, reps)
      && product == TopThreeProduct(ComponentSizes(history, |points|, reps));
  }

  /** Parses the points and answers from the pair whose connection leaves one circuit
      alive. It is an error when the input does not parse, or when the queue runs dry
      first, which happens exactly when there are fewer than two points. */
  method StarTwo(input: string) returns (r: Result<nat>)
    ensures r.Err? <==> (PointsOf(input).Err? || |PointsOf(input).value| < 2)
    ensures r.Ok? ==> IsXProductOfPair(PointsOf(input).value, r.value)
    ensures r.Ok? ==>
      var points := PointsOf(input).value;
      exists history: seq<DistanceEntry> ::
        && NearestPairs(points, history) && |history| > 0
        && AllConnected(history, |points|)
        && !AllConnected(history[..|history| - 1], |points|)
        && r.value == XProduct(points[history[|history| - 1].p1], points[history[|history| - 1].p2])
  {
    var parsed := ParsePoints(input);
    if parsed.Err? {
      return Err(parsed.msg);
    }
    r := LastJoinProduct(parsed.value);
  }

  /** Makes connections in order of distance until one circuit is alive; the answer is the
      product of the x coordinates of the pair joined last. It is an error when the queue
      runs dry first, which happens exactly when there are fewer than two points. */
  method LastJoinProduct(points: seq<Point>) returns (r: Result<nat>)
    ensures r.Err? <==> |points| < 2
    ensures r.Ok? ==> IsXProductOfPair(points, r.value)
    ensures r.Ok? ==>
      exists history: seq<DistanceEntry> ::
        && NearestPairs(points, history) && |history| > 0
        && AllConnected(history, |points|)
        && !AllConnected(history[..|history| - 1], |points|)
        && r.value == XProduct(points[history[|history| - 1].p1], points[history[|history| - 1].p2])
  {
    var n := |points|;
    var graph := new Graph.FromPoints(points);
    InitialSums(n);
    while true
      invariant fresh(graph) && fresh(graph.orderedDistances)
      invariant graph.points == points && graph.Valid()
      invariant n >= 2 ==> SumOver(graph.circuits, AliveOne) != 1
      decreases |graph.orderedDistances.queue|
    {
      ghost var before := graph.orderedDistances.queue;
      ghost var cm0 := graph.circuitsMap;
      if before == [] && n >= 2 {
        DrainedAllJoined(points, graph.circuits, cm0);
      }
      ghost var h0 := graph.history;
      if n >= 2 {
        OneAliveAllConnected(points, before, h0, graph.circuits, cm0, graph.successes);
      }
      var latestConnection := graph.AddConnection();
      if latestConnection.None? {
        return Err("Couldn't find another connection!");
      }
      var livingCircuits := SumOver(graph.circuits, AliveOne);
      if livingCircuits == 1 {
        var (p1Idx, p2Idx) := latestConnection.value;
        var product := XProduct(points[p1Idx], points[p2Idx]);
        XProductOfPair(points, p1Idx, p2Idx);
        StarTwoAnswer(points, graph.orderedDistances.queue, h0, graph.history, graph.circuits, graph.circuitsMap, graph.successes);
        return Ok(product);
      }
    }
  }

  /** Once one circuit is alive, the connections made join every point, and without the
      last of them they did not. */
  lemma StarTwoAnswer(points: seq<Point>, q: seq<DistanceEntry>, h0: seq<DistanceEntry>, history: seq<DistanceEntry>,
                      cs: seq<Circuit>, cm: seq<nat>, successes: nat)
    requires StateValid(points, q, history, cs, cm, successes)
    requires |points| > 0 && SumOver(cs, AliveOne) == 1
    requires |history| > 0 && history[..|history| - 1] == h0 && !AllConnected(h0, |points|)
    ensures NearestPairs(points, history) && AllConnected(history, |points|)
    ensures !AllConnected(history[..|history| - 1], |points|)
  {
    OneAliveAllConnected(points, q, history, cs, cm, successes);
    HistoryIsNearestPairs(points, q, history, cs, cm, successes);
  }

  function XProduct(p: Point, q: Point): nat {
    p.x * q.x
  }

  /** v is the product of the x coordinates of two distinct points. */
  ghost predicate IsXProductOfPair(points: seq<Point>, v: nat) {
    exists i, j :: 0 <= i < j < |points| && v == XProduct(points[i], points[j])
  }

  lemma XProductOfPair(points: seq<Point>, i: nat, j: nat)
    requires i < j < |points|
    ensures IsXProductOfPair(points, XProduct(points[i], points[j]))
  {
  }

  /** With the queue drained, every pair has been joined, so one circuit is alive. */
  lemma DrainedAllJoined(points: seq<Point>, cs: seq<Circuit>, cm: seq<nat>)
    requires GraphValid(points, [], cs, cm, SumOver(cs, AliveConnectionsOf)) && |points| > 0
    ensures SumOver(cs, AliveOne) == 1
  {
    AllJoinedOneAlive(|points|, cs, cm);
  }
}
